/** Loading a file through the two cache levels with one fill per key at a time
    (filemgr/file_io_cache.go).  Callers interleave at the sections the source runs under its locks;
    a fill call is named by the caller that leads it.  The key stands for the whole file identity,
    from which it is hashed, and `content` is what the loader gives for it. */
module FileCacheLoad {

  type Key = nat
  type Bytes = seq<int>
  type CallerId = nat

  datatype Option<T> = None | Some(value: T)

  /** A file on disk, and what is known of it: `stamp` stands for the identity and modification time
      by which an unchanged file is recognised. */
  datatype File = File(bytes: Bytes, stamp: nat)
  datatype DiskEntry = DiskEntry(digest: Bytes, size: int, stamp: nat, file: Option<File>)

  datatype Phase =
    | Direct
    | Looking
    | Missed
    | Waiting(leader: CallerId)
    | Leading
    | Filling
    | Opening
    | Returned(bytes: Bytes, tracked: bool)
    | ReaderClosed
    | Failed

  datatype Caller = Caller(key: Key, size: int, inMemory: bool, onDisk: bool, phase: Phase)

  datatype State = State(
    callers: map<CallerId, Caller>,
    fills: map<Key, CallerId>, finished: set<CallerId>, loads: int, closing: bool, closed: bool,
    memory: map<Key, Bytes>, index: map<Key, DiskEntry>, readers: int, diskClosing: bool)

  const Initial := State(map[], map[], {}, 0, false, false, map[], map[], 0, false)

  predicate Active(p: Phase) {
    !p.Returned? && !p.ReaderClosed? && !p.Failed?
  }

  predicate Leads(p: Phase) {
    p.Leading? || p.Filling? || p.Opening?
  }

  // ---------------------------------------------------------------------------
  // Looking up
  // ---------------------------------------------------------------------------

  datatype Look = Hit(bytes: Bytes, tracked: bool) | Miss | Error

  /** When the caller's context ends, if it does, seen from the disk cache. */
  datatype Cancellation = Never | Before | During

  /** What each level answers, with the entries that the answer drops or refreshes. */
  datatype Answer = Answer(memory: map<Key, Bytes>, index: map<Key, DiskEntry>, look: Look)

  /** readL1. */
  function LookInMemory(memory: map<Key, Bytes>, index: map<Key, DiskEntry>, key: Key, size: int): Answer {
    if key !in memory then Answer(memory, index, Miss)
    else if |memory[key]| == size then Answer(memory, index, Hit(memory[key], false))
    else Answer(memory - {key}, index, Miss)
  }

  /** diskCache.open: an unchanged file is taken as it is, a changed one only with the right digest. */
  function LookOnDisk(memory: map<Key, Bytes>, index: map<Key, DiskEntry>, key: Key, size: int, closing: bool,
                      canceled: Cancellation): Answer
  {
    if canceled.Before? then Answer(memory, index, Error)
    else if key !in index || closing then Answer(memory, index, Miss)
    else if index[key].size != size then Answer(memory, index - {key}, Miss)
    else if canceled.During? then Answer(memory, index, Error)
    else
      match index[key].file
      case None => Answer(memory, index - {key}, Miss)
      case Some(file) =>
        if |file.bytes| != size then Answer(memory, index - {key}, Miss)
        else if file.stamp == index[key].stamp then Answer(memory, index, Hit(file.bytes, true))
        else if file.bytes == index[key].digest then
          Answer(memory, index[key := index[key].(stamp := file.stamp)], Hit(file.bytes, true))
        else Answer(memory, index - {key}, Miss)
  }

  /** lookup. */
  function Lookup(s: State, c: Caller, canceled: Cancellation): Answer {
    var first := if c.inMemory then LookInMemory(s.memory, s.index, c.key, c.size) else Answer(s.memory, s.index, Miss);
    if first.look.Hit? || !c.onDisk then first
    else LookOnDisk(first.memory, first.index, c.key, c.size, s.diskClosing, canceled)
  }

  // ---------------------------------------------------------------------------
  // Steps
  // ---------------------------------------------------------------------------

  function To(s: State, c: CallerId, phase: Phase): State
    requires c in s.callers
  {
    s.(callers := s.callers[c := s.callers[c].(phase := phase)])
  }

  /** The load ends: `loads.Done`, and a tracked reader joins the open ones. */
  function End(s: State, c: CallerId, phase: Phase): State
    requires c in s.callers
  {
    To(s, c, phase).(loads := s.loads - 1,
                     readers := if phase.Returned? && phase.tracked then s.readers + 1 else s.readers)
  }

  /** What beginFill makes of a caller that missed. */
  datatype Role = Refused | Follow(leader: CallerId) | Lead

  function RoleOf(fills: map<Key, CallerId>, closed: bool, key: Key): Role {
    if closed then Refused else if key in fills then Follow(fills[key]) else Lead
  }

  /** Whether finishFill ends the fill of the key, which only its leader does. */
  predicate Ends(fills: map<Key, CallerId>, key: Key, c: CallerId) {
    key in fills && fills[key] == c
  }

  /** finishFill. */
  function FinishFill(s: State, c: CallerId): State
    requires c in s.callers
  {
    var key := s.callers[c].key;
    if Ends(s.fills, key, c) then s.(fills := s.fills - {key}, finished := s.finished + {c}) else s
  }

  /** The leader's load ends, and with it the fill. */
  function EndLead(s: State, c: CallerId, phase: Phase): State
    requires c in s.callers
  {
    End(FinishFill(s, c), c, phase)
  }

  datatype FillOutcome =
    | LoaderFails
    | Loaded(kept: bool, stamp: nat)
    | LocalFailure(reloaded: bool)

  datatype Step =
    | Begin(c: CallerId, key: Key, size: int, inMemory: bool, onDisk: bool)
    | LoadDirectly(c: CallerId, fails: bool)
    | Look(c: CallerId, canceled: Cancellation)
    | Join(c: CallerId)
    | Wake(c: CallerId)
    | Cancel(c: CallerId)
    | Fill(c: CallerId, outcome: FillOutcome)
    | OpenAdmitted(c: CallerId, canceled: Cancellation, reloaded: bool)
    | CloseReader(c: CallerId)
    | Evict(key: Key)
    | ForgetInMemory(key: Key)
    | Tamper(key: Key, file: Option<File>)
    | BeginClose
    | BeginCloseDisk
    | FinishClose

  predicate Enabled(s: State, step: Step) {
    match step
    case Begin(c, _, size, inMemory, onDisk) => c !in s.callers && size >= 0 && !(inMemory && onDisk)
    case LoadDirectly(c, _) => c in s.callers && s.callers[c].phase.Direct?
    case Look(c, _) => c in s.callers && (s.callers[c].phase.Looking? || s.callers[c].phase.Leading?)
    case Join(c) => c in s.callers && s.callers[c].phase.Missed?
    case Wake(c) => c in s.callers && s.callers[c].phase.Waiting? && s.callers[c].phase.leader in s.finished
    case Cancel(c) => c in s.callers && (s.callers[c].phase.Looking? || s.callers[c].phase.Waiting?)
    case Fill(c, _) => c in s.callers && s.callers[c].phase.Filling?
    case OpenAdmitted(c, _, _) => c in s.callers && s.callers[c].phase.Opening?
    case CloseReader(c) => c in s.callers && s.callers[c].phase.Returned? && s.callers[c].phase.tracked
    case Evict(_) => true
    case ForgetInMemory(_) => true
    // a file changed behind the cache's back shows a new stamp
    case Tamper(key, file) => key in s.index && (file.Some? ==> file.value.stamp != s.index[key].stamp)
    case BeginClose => !s.closed
    case BeginCloseDisk => s.closing && s.loads == 0
    case FinishClose => s.closing && s.loads == 0 && s.diskClosing && s.readers == 0
  }

  function BeginStep(s: State, c: CallerId, caller: Caller): State {
    if s.closing || s.closed then s.(callers := s.callers[c := caller.(phase := Failed)])
    else s.(callers := s.callers[c := caller], loads := s.loads + 1)
  }

  function LookStep(s: State, c: CallerId, canceled: Cancellation): State
    requires Enabled(s, Look(c, canceled))
  {
    var caller := s.callers[c];
    var a := Lookup(s, caller, canceled);
    var s' := s.(memory := a.memory, index := a.index);
    if caller.phase.Leading? then
      match a.look
      case Hit(bytes, tracked) => EndLead(s', c, Returned(bytes, tracked))
      case Error => EndLead(s', c, Failed)
      case Miss => To(s', c, Filling)
    else
      match a.look
      case Hit(bytes, tracked) => End(s', c, Returned(bytes, tracked))
      case Error => End(s', c, Failed)
      case Miss => To(s', c, Missed)
  }

  /** beginFill. */
  function JoinStep(s: State, c: CallerId): State
    requires Enabled(s, Join(c))
  {
    var key := s.callers[c].key;
    match RoleOf(s.fills, s.closed, key)
    case Refused => End(s, c, Failed)
    case Follow(leader) => To(s, c, Waiting(leader))
    case Lead => To(s.(fills := s.fills[key := c]), c, Leading)
  }

  /** fillBuffered and fillDisk up to the admission of the candidate. */
  function FillStep(s: State, c: CallerId, outcome: FillOutcome, content: Key -> Bytes): State
    requires Enabled(s, Fill(c, outcome))
  {
    var caller := s.callers[c];
    var bytes := content(caller.key);
    match outcome
    case LoaderFails => EndLead(s, c, Failed)
    case LocalFailure(reloaded) =>
      EndLead(s, c, if reloaded && !caller.inMemory then Returned(bytes, false) else Failed)
    case Loaded(kept, stamp) =>
      if |bytes| != caller.size then EndLead(s, c, Failed)
      else if caller.inMemory then
        EndLead(if kept then s.(memory := s.memory[caller.key := bytes]) else s, c, Returned(bytes, false))
      else if kept then
        To(s.(index := s.index[caller.key := DiskEntry(bytes, caller.size, stamp, Some(File(bytes, stamp)))]),
           c, Opening)
      else EndLead(s, c, Returned(bytes, false))
  }

  /** fillDisk after its candidate was admitted. */
  function OpenStep(s: State, c: CallerId, canceled: Cancellation, reloaded: bool, content: Key -> Bytes): State
    requires Enabled(s, OpenAdmitted(c, canceled, reloaded))
  {
    var caller := s.callers[c];
    var a := LookOnDisk(s.memory, s.index, caller.key, caller.size, s.diskClosing, canceled);
    var s' := s.(memory := a.memory, index := a.index);
    match a.look
    case Hit(bytes, tracked) => EndLead(s', c, Returned(bytes, tracked))
    case Error => EndLead(s', c, Failed)
    case Miss => EndLead(s', c, if reloaded then Returned(content(caller.key), false) else Failed)
  }

  function Apply(s: State, step: Step, content: Key -> Bytes): State
    requires Enabled(s, step)
  {
    match step
    case Begin(c, key, size, inMemory, onDisk) =>
      BeginStep(s, c, Caller(key, size, inMemory, onDisk, if inMemory || onDisk then Looking else Direct))
    case LoadDirectly(c, fails) => End(s, c, if fails then Failed else Returned(content(s.callers[c].key), false))
    case Look(c, canceled) => LookStep(s, c, canceled)
    case Join(c) => JoinStep(s, c)
    case Wake(c) => To(s, c, Looking)
    case Cancel(c) => End(s, c, Failed)
    case Fill(c, outcome) => FillStep(s, c, outcome, content)
    case OpenAdmitted(c, canceled, reloaded) => OpenStep(s, c, canceled, reloaded, content)
    case CloseReader(c) => To(s, c, ReaderClosed).(readers := s.readers - 1)
    case Evict(key) => s.(index := s.index - {key})
    case ForgetInMemory(key) => s.(memory := s.memory - {key})
    case Tamper(key, file) => s.(index := s.index[key := s.index[key].(file := file)])
    case BeginClose => s.(closing := true)
    case BeginCloseDisk => s.(diskClosing := true)
    case FinishClose => s.(closed := true)
  }

  // ---------------------------------------------------------------------------
  // What every step keeps
  // ---------------------------------------------------------------------------

  /** What is cached for a key is what its loader gives: a file with the recorded stamp holds it, and
      so does any file with the recorded digest. */
  ghost predicate CachesSound(memory: map<Key, Bytes>, index: map<Key, DiskEntry>, content: Key -> Bytes) {
    && (forall k :: k in memory ==> memory[k] == content(k))
    && (forall k :: k in index ==> EntrySound(index[k], content(k)))
  }

  predicate EntrySound(e: DiskEntry, bytes: Bytes) {
    e.digest == bytes && (e.file.Some? && e.file.value.stamp == e.stamp ==> e.file.value.bytes == bytes)
  }

  ghost predicate CallerSound(s: State, c: CallerId, content: Key -> Bytes)
    requires c in s.callers
  {
    var caller := s.callers[c];
    && (caller.phase.Returned? ==> caller.phase.bytes == content(caller.key))
    && (Leads(caller.phase) ==> caller.key in s.fills && s.fills[caller.key] == c)
    && (caller.phase.Waiting? ==>
         caller.phase.leader in s.finished || (caller.key in s.fills && s.fills[caller.key] == caller.phase.leader))
  }

  ghost predicate FillsLed(s: State) {
    forall k :: k in s.fills ==>
      s.fills[k] in s.callers && s.callers[s.fills[k]].key == k && Leads(s.callers[s.fills[k]].phase)
  }

  ghost function ActiveCallers(callers: map<CallerId, Caller>): set<CallerId> {
    set c | c in callers && Active(callers[c].phase)
  }

  ghost function OpenReaders(callers: map<CallerId, Caller>): set<CallerId> {
    set c | c in callers && callers[c].phase.Returned? && callers[c].phase.tracked
  }

  /** The counters that Close waits for. */
  ghost predicate CountersExact(s: State) {
    s.loads == |ActiveCallers(s.callers)| && s.readers == |OpenReaders(s.callers)|
  }

  ghost predicate CloseOrder(s: State) {
    && (s.closed ==> s.closing && s.loads == 0 && s.diskClosing && s.readers == 0)
    && (s.diskClosing ==> s.closing && s.loads == 0)
  }

  ghost predicate Sound(s: State, content: Key -> Bytes) {
    && CachesSound(s.memory, s.index, content) && (forall c :: c in s.callers ==> CallerSound(s, c, content))
    && FillsLed(s) && CountersExact(s) && CloseOrder(s)
  }
}
