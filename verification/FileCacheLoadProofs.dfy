/** Any interleaving of callers, evictions, changes on disk and Close. */
module FileCacheLoadProofs {
  import opened FileCacheLoad

  // ---------------------------------------------------------------------------
  // Looking up
  // ---------------------------------------------------------------------------

  /** A hit is what the loader would give. */
  lemma DiskAnswerSound(memory: map<Key, Bytes>, index: map<Key, DiskEntry>, key: Key, size: int, closing: bool,
                        canceled: Cancellation, content: Key -> Bytes)
    requires CachesSound(memory, index, content)
    ensures var a := LookOnDisk(memory, index, key, size, closing, canceled);
      && CachesSound(a.memory, a.index, content)
      && (a.look.Hit? ==> a.look.bytes == content(key) && a.look.tracked && !closing)
  {
  }

  lemma AnswerSound(s: State, c: Caller, canceled: Cancellation, content: Key -> Bytes)
    requires CachesSound(s.memory, s.index, content)
    ensures var a := Lookup(s, c, canceled);
      && CachesSound(a.memory, a.index, content)
      && (a.look.Hit? ==> a.look.bytes == content(c.key) && (a.look.tracked ==> !s.diskClosing))
  {
    var first := if c.inMemory then LookInMemory(s.memory, s.index, c.key, c.size) else Answer(s.memory, s.index, Miss);
    DiskAnswerSound(first.memory, first.index, c.key, c.size, s.diskClosing, canceled, content);
  }

  // ---------------------------------------------------------------------------
  // A caller moves on
  // ---------------------------------------------------------------------------

  function One(b: bool): int {
    if b then 1 else 0
  }

  lemma CountWith(a: set<CallerId>, c: CallerId, joins: bool)
    ensures |if joins then a + {c} else a - {c}| == |a| + One(joins) - One(c in a)
  {
    if c in a {
      assert a + {c} == a;
    } else {
      assert a - {c} == a;
    }
  }

  predicate HoldsReader(p: Phase) {
    p.Returned? && p.tracked
  }

  /** How the counts change when one caller does. */
  lemma CountMoved(callers: map<CallerId, Caller>, c: CallerId, caller: Caller)
    ensures var moved := callers[c := caller];
      && |ActiveCallers(moved)| == |ActiveCallers(callers)| + One(Active(caller.phase))
                                   - One(c in callers && Active(callers[c].phase))
      && |OpenReaders(moved)| == |OpenReaders(callers)| + One(HoldsReader(caller.phase))
                                 - One(c in callers && HoldsReader(callers[c].phase))
  {
    SetsMoved(callers, c, caller);
    CountWith(ActiveCallers(callers), c, Active(caller.phase));
    CountWith(OpenReaders(callers), c, HoldsReader(caller.phase));
  }

  lemma SetsMoved(callers: map<CallerId, Caller>, c: CallerId, caller: Caller)
    ensures var moved := callers[c := caller];
      && ActiveCallers(moved) == (if Active(caller.phase) then ActiveCallers(callers) + {c}
                                  else ActiveCallers(callers) - {c})
      && OpenReaders(moved) == (if HoldsReader(caller.phase) then OpenReaders(callers) + {c}
                                else OpenReaders(callers) - {c})
  {
  }

  /** The parts of soundness that speak of callers and fills. */
  ghost predicate CallersSound(s: State, content: Key -> Bytes) {
    (forall c :: c in s.callers ==> CallerSound(s, c, content)) && FillsLed(s)
  }

  /** A caller that does not lead, or goes on leading, changes its phase. */
  lemma CallersMoved(s: State, c: CallerId, phase: Phase, content: Key -> Bytes)
    requires CallersSound(s, content) && c in s.callers && Leads(phase) == Leads(s.callers[c].phase)
    requires phase.Returned? ==> phase.bytes == content(s.callers[c].key)
    requires phase.Waiting? ==> s.callers[c].key in s.fills && s.fills[s.callers[c].key] == phase.leader
    ensures CallersSound(To(s, c, phase), content)
  {
    var u := To(s, c, phase);
    forall d | d in u.callers ensures CallerSound(u, d, content) {
      if d != c { assert CallerSound(s, d, content); } else { assert CallerSound(s, c, content); }
    }
  }

  /** A leader's fill ends: nobody else leads for the key, and those who wait can go on. */
  lemma CallersFreed(s: State, c: CallerId, phase: Phase, content: Key -> Bytes)
    requires CallersSound(s, content) && c in s.callers && Leads(s.callers[c].phase) && !Leads(phase) && !phase.Waiting?
    requires phase.Returned? ==> phase.bytes == content(s.callers[c].key)
    ensures CallersSound(To(FinishFill(s, c), c, phase), content)
  {
    var key := s.callers[c].key;
    assert CallerSound(s, c, content);
    var u := To(FinishFill(s, c), c, phase);
    forall d | d in u.callers ensures CallerSound(u, d, content) {
      assert CallerSound(s, d, content);
    }
  }

  lemma CallersLed(s: State, c: CallerId, content: Key -> Bytes)
    requires CallersSound(s, content) && c in s.callers && s.callers[c].phase.Missed? && s.callers[c].key !in s.fills
    ensures CallersSound(To(s.(fills := s.fills[s.callers[c].key := c]), c, Leading), content)
  {
    var u := To(s.(fills := s.fills[s.callers[c].key := c]), c, Leading);
    forall d | d in u.callers ensures CallerSound(u, d, content) {
      assert CallerSound(s, d, content);
    }
  }

  // ---------------------------------------------------------------------------
  // Every step keeps the state sound
  // ---------------------------------------------------------------------------

  lemma ToSound(s: State, c: CallerId, phase: Phase, content: Key -> Bytes)
    requires Sound(s, content) && c in s.callers && Active(phase) && Active(s.callers[c].phase)
    requires Leads(phase) == Leads(s.callers[c].phase)
    requires phase.Waiting? ==> s.callers[c].key in s.fills && s.fills[s.callers[c].key] == phase.leader
    ensures Sound(To(s, c, phase), content)
  {
    CallersMoved(s, c, phase, content);
    CountMoved(s.callers, c, s.callers[c].(phase := phase));
  }

  lemma EndCounts(s: State, c: CallerId, phase: Phase)
    requires CountersExact(s) && CloseOrder(s) && c in s.callers
    requires Active(s.callers[c].phase) && (phase.Returned? || phase.Failed?)
    ensures CountersExact(End(s, c, phase)) && CloseOrder(End(s, c, phase))
  {
    CountMoved(s.callers, c, s.callers[c].(phase := phase));
  }

  lemma EndSound(s: State, c: CallerId, phase: Phase, content: Key -> Bytes)
    requires Sound(s, content) && c in s.callers && Active(s.callers[c].phase) && !Leads(s.callers[c].phase)
    requires phase.Failed? || (phase.Returned? && phase.bytes == content(s.callers[c].key))
    ensures Sound(End(s, c, phase), content)
  {
    CallersMoved(s, c, phase, content);
    EndCounts(s, c, phase);
    assert CallersSound(End(s, c, phase), content);
  }

  lemma EndLeadSound(s: State, c: CallerId, phase: Phase, content: Key -> Bytes)
    requires Sound(s, content) && c in s.callers && Leads(s.callers[c].phase)
    requires phase.Failed? || (phase.Returned? && phase.bytes == content(s.callers[c].key))
    ensures Sound(EndLead(s, c, phase), content)
  {
    CallersFreed(s, c, phase, content);
    EndCounts(FinishFill(s, c), c, phase);
    var moved, u := To(FinishFill(s, c), c, phase), EndLead(s, c, phase);
    CounterIrrelevant(moved, u.loads, u.readers, content);
    CounterIrrelevant(moved.(loads := u.loads), u.loads, u.readers, content);
    assert u == moved.(loads := u.loads).(readers := u.readers);
  }

  /** Only the caches change. */
  lemma CachesChanged(s: State, memory: map<Key, Bytes>, index: map<Key, DiskEntry>, content: Key -> Bytes)
    requires Sound(s, content) && CachesSound(memory, index, content)
    ensures Sound(s.(memory := memory, index := index), content)
  {
    var u := s.(memory := memory, index := index);
    forall c | c in u.callers ensures CallerSound(u, c, content) {
      assert CallerSound(s, c, content);
    }
  }

  lemma BeginSound(s: State, c: CallerId, caller: Caller, content: Key -> Bytes)
    requires Sound(s, content) && c !in s.callers && (caller.phase.Looking? || caller.phase.Direct?)
    ensures Sound(BeginStep(s, c, caller), content)
  {
    var entered := if s.closing || s.closed then caller.(phase := Failed) else caller;
    BeginCounts(s, c, caller);
    BeginCallers(s, c, entered, content);
    assert CallersSound(BeginStep(s, c, caller), content);
  }

  lemma BeginCounts(s: State, c: CallerId, caller: Caller)
    requires CountersExact(s) && CloseOrder(s) && c !in s.callers && (caller.phase.Looking? || caller.phase.Direct?)
    ensures CountersExact(BeginStep(s, c, caller)) && CloseOrder(BeginStep(s, c, caller))
  {
    CountMoved(s.callers, c, if s.closing || s.closed then caller.(phase := Failed) else caller);
  }

  lemma BeginCallers(s: State, c: CallerId, entered: Caller, content: Key -> Bytes)
    requires CallersSound(s, content) && c !in s.callers
    requires entered.phase.Looking? || entered.phase.Direct? || entered.phase.Failed?
    ensures CallersSound(s.(callers := s.callers[c := entered]), content)
    ensures CallersSound(s.(callers := s.callers[c := entered], loads := s.loads + 1), content)
  {
    var u := s.(callers := s.callers[c := entered]);
    forall d | d in u.callers ensures CallerSound(u, d, content) {
      if d != c { assert CallerSound(s, d, content); }
    }
    CounterIrrelevant(u, s.loads + 1, u.readers, content);
  }

  lemma CounterIrrelevant(s: State, loads: int, readers: int, content: Key -> Bytes)
    requires CallersSound(s, content)
    ensures CallersSound(s.(loads := loads), content) && CallersSound(s.(readers := readers), content)
  {
    forall d | d in s.callers
      ensures CallerSound(s.(loads := loads), d, content) && CallerSound(s.(readers := readers), d, content)
    {
      assert CallerSound(s, d, content);
    }
  }

  lemma LookSound(s: State, c: CallerId, canceled: Cancellation, content: Key -> Bytes)
    requires Sound(s, content) && Enabled(s, Look(c, canceled))
    ensures Sound(LookStep(s, c, canceled), content)
  {
    var a := Lookup(s, s.callers[c], canceled);
    AnswerSound(s, s.callers[c], canceled, content);
    var u := s.(memory := a.memory, index := a.index);
    CachesChanged(s, a.memory, a.index, content);
    match a.look
    case Hit(bytes, tracked) =>
      if s.callers[c].phase.Leading? { EndLeadSound(u, c, Returned(bytes, tracked), content); }
      else { EndSound(u, c, Returned(bytes, tracked), content); }
    case Error =>
      if s.callers[c].phase.Leading? { EndLeadSound(u, c, Failed, content); } else { EndSound(u, c, Failed, content); }
    case Miss =>
      ToSound(u, c, if s.callers[c].phase.Leading? then Filling else Missed, content);
  }

  lemma JoinSound(s: State, c: CallerId, content: Key -> Bytes)
    requires Sound(s, content) && Enabled(s, Join(c))
    ensures Sound(JoinStep(s, c), content)
  {
    var key := s.callers[c].key;
    if s.closed {
      EndSound(s, c, Failed, content);
    } else if key in s.fills {
      ToSound(s, c, Waiting(s.fills[key]), content);
    } else {
      CallersLed(s, c, content);
      LeadCounts(s, c);
    }
  }

  lemma LeadCounts(s: State, c: CallerId)
    requires CountersExact(s) && CloseOrder(s) && c in s.callers && s.callers[c].phase.Missed?
    ensures var u := To(s.(fills := s.fills[s.callers[c].key := c]), c, Leading); CountersExact(u) && CloseOrder(u)
  {
    CountMoved(s.callers, c, s.callers[c].(phase := Leading));
  }

  lemma FillSound(s: State, c: CallerId, outcome: FillOutcome, content: Key -> Bytes)
    requires Sound(s, content) && Enabled(s, Fill(c, outcome))
    ensures Sound(FillStep(s, c, outcome, content), content)
  {
    var caller := s.callers[c];
    var bytes := content(caller.key);
    match outcome
    case LoaderFails => EndLeadSound(s, c, Failed, content);
    case LocalFailure(reloaded) =>
      EndLeadSound(s, c, if reloaded && !caller.inMemory then Returned(bytes, false) else Failed, content);
    case Loaded(kept, stamp) =>
      if |bytes| != caller.size {
        EndLeadSound(s, c, Failed, content);
      } else if caller.inMemory {
        CachesChanged(s, s.memory[caller.key := bytes], s.index, content);
        EndLeadSound(if kept then s.(memory := s.memory[caller.key := bytes]) else s, c,
                     Returned(bytes, false), content);
      } else if kept {
        var index := s.index[caller.key := DiskEntry(bytes, caller.size, stamp, Some(File(bytes, stamp)))];
        CachesChanged(s, s.memory, index, content);
        ToSound(s.(index := index), c, Opening, content);
      } else {
        EndLeadSound(s, c, Returned(bytes, false), content);
      }
  }

  lemma OpenSound(s: State, c: CallerId, canceled: Cancellation, reloaded: bool, content: Key -> Bytes)
    requires Sound(s, content) && Enabled(s, OpenAdmitted(c, canceled, reloaded))
    ensures Sound(OpenStep(s, c, canceled, reloaded, content), content)
  {
    var caller := s.callers[c];
    var a := LookOnDisk(s.memory, s.index, caller.key, caller.size, s.diskClosing, canceled);
    DiskAnswerSound(s.memory, s.index, caller.key, caller.size, s.diskClosing, canceled, content);
    var u := s.(memory := a.memory, index := a.index);
    CachesChanged(s, a.memory, a.index, content);
    match a.look
    case Hit(bytes, tracked) => EndLeadSound(u, c, Returned(bytes, tracked), content);
    case Error => EndLeadSound(u, c, Failed, content);
    case Miss => EndLeadSound(u, c, if reloaded then Returned(content(caller.key), false) else Failed, content);
  }

  lemma CloseReaderSound(s: State, c: CallerId, content: Key -> Bytes)
    requires Sound(s, content) && Enabled(s, CloseReader(c))
    ensures Sound(To(s, c, ReaderClosed).(readers := s.readers - 1), content)
  {
    var u := To(s, c, ReaderClosed).(readers := s.readers - 1);
    CallersMoved(s, c, ReaderClosed, content);
    CounterIrrelevant(To(s, c, ReaderClosed), s.loads, s.readers - 1, content);
    CloseReaderCounts(s, c);
    assert CallersSound(u, content);
  }

  lemma CloseReaderCounts(s: State, c: CallerId)
    requires CountersExact(s) && CloseOrder(s) && Enabled(s, CloseReader(c))
    ensures var u := To(s, c, ReaderClosed).(readers := s.readers - 1); CountersExact(u) && CloseOrder(u)
  {
    CountMoved(s.callers, c, s.callers[c].(phase := ReaderClosed));
  }

  lemma FlagsSound(s: State, content: Key -> Bytes)
    requires Sound(s, content)
    ensures Sound(s.(closing := true), content)
    ensures s.closing && s.loads == 0 ==> Sound(s.(diskClosing := true), content)
    ensures s.closing && s.loads == 0 && s.diskClosing && s.readers == 0 ==> Sound(s.(closed := true), content)
  {
    forall c | c in s.callers
      ensures CallerSound(s.(closing := true), c, content) && CallerSound(s.(diskClosing := true), c, content)
      ensures CallerSound(s.(closed := true), c, content)
    {
      assert CallerSound(s, c, content);
    }
  }

  /** A step of a caller. */
  lemma CallerStepSound(s: State, step: Step, content: Key -> Bytes)
    requires Sound(s, content) && Enabled(s, step)
    requires step.Begin? || step.LoadDirectly? || step.Look? || step.Join? || step.Wake? || step.Cancel?
    ensures Sound(Apply(s, step, content), content)
  {
    match step
    case Begin(c, key, size, inMemory, onDisk) =>
      BeginSound(s, c, Caller(key, size, inMemory, onDisk, if inMemory || onDisk then Looking else Direct), content);
    case LoadDirectly(c, fails) =>
      EndSound(s, c, if fails then Failed else Returned(content(s.callers[c].key), false), content);
    case Look(c, canceled) => LookSound(s, c, canceled, content);
    case Join(c) => JoinSound(s, c, content);
    case Wake(c) => ToSound(s, c, Looking, content);
    case Cancel(c) => EndSound(s, c, Failed, content);
  }

  lemma StepSound(s: State, step: Step, content: Key -> Bytes)
    requires Sound(s, content) && Enabled(s, step)
    ensures Sound(Apply(s, step, content), content)
  {
    match step
    case Fill(c, outcome) => FillSound(s, c, outcome, content);
    case OpenAdmitted(c, canceled, reloaded) => OpenSound(s, c, canceled, reloaded, content);
    case CloseReader(c) => CloseReaderSound(s, c, content);
    case Evict(key) => CachesChanged(s, s.memory, s.index - {key}, content);
    case ForgetInMemory(key) => CachesChanged(s, s.memory - {key}, s.index, content);
    case Tamper(key, file) => CachesChanged(s, s.memory, s.index[key := s.index[key].(file := file)], content);
    case BeginClose => FlagsSound(s, content);
    case BeginCloseDisk => FlagsSound(s, content);
    case FinishClose => FlagsSound(s, content);
    case _ => CallerStepSound(s, step, content);
  }

  // ---------------------------------------------------------------------------
  // Whole runs
  // ---------------------------------------------------------------------------

  /** A run from any sound state, such as the empty one or one whose disk entries were recovered. */
  ghost predicate IsRun(states: seq<State>, steps: seq<Step>, content: Key -> Bytes) {
    && |states| == |steps| + 1 && Sound(states[0], content)
    && forall i {:trigger StepAt(states, steps, content, i)} :: 0 <= i < |steps| ==> StepAt(states, steps, content, i)
  }

  ghost predicate StepAt(states: seq<State>, steps: seq<Step>, content: Key -> Bytes, i: int)
    requires 0 <= i < |steps| && |states| == |steps| + 1
  {
    Enabled(states[i], steps[i]) && states[i + 1] == Apply(states[i], steps[i], content)
  }

  lemma InitialSound(content: Key -> Bytes)
    ensures Sound(Initial, content)
  {
    assert ActiveCallers(map[]) == {} && OpenReaders(map[]) == {};
  }

  lemma {:induction false} RunSound(states: seq<State>, steps: seq<Step>, content: Key -> Bytes, i: nat)
    requires IsRun(states, steps, content) && i < |states|
    ensures Sound(states[i], content)
  {
    if i > 0 {
      RunSound(states, steps, content, i - 1);
      assert StepAt(states, steps, content, i - 1);
      StepSound(states[i - 1], steps[i - 1], content);
    }
  }

  /** Every load that returns a reader returns what the loader gives for the file. */
  lemma LoadReturnsContent(states: seq<State>, steps: seq<Step>, content: Key -> Bytes, i: nat, c: CallerId)
    requires IsRun(states, steps, content) && i < |states|
    requires c in states[i].callers && states[i].callers[c].phase.Returned?
    ensures states[i].callers[c].phase.bytes == content(states[i].callers[c].key)
  {
    RunSound(states, steps, content, i);
    assert CallerSound(states[i], c, content);
  }

  /** At most one caller fills a key at a time. */
  lemma OneFillPerKey(states: seq<State>, steps: seq<Step>, content: Key -> Bytes, i: nat, c: CallerId, d: CallerId)
    requires IsRun(states, steps, content) && i < |states|
    requires c in states[i].callers && d in states[i].callers && states[i].callers[c].key == states[i].callers[d].key
    requires Leads(states[i].callers[c].phase) && Leads(states[i].callers[d].phase)
    ensures c == d
  {
    RunSound(states, steps, content, i);
    assert CallerSound(states[i], c, content) && CallerSound(states[i], d, content);
  }

  /** Whoever waits can wake, or waits for a caller that is still filling the same key. */
  lemma NobodyWaitsInVain(states: seq<State>, steps: seq<Step>, content: Key -> Bytes, i: nat, c: CallerId)
    requires IsRun(states, steps, content) && i < |states|
    requires c in states[i].callers && states[i].callers[c].phase.Waiting?
    ensures var s := states[i];
      var leader := s.callers[c].phase.leader;
      Enabled(s, Wake(c))
      || (leader in s.callers && Leads(s.callers[leader].phase) && s.callers[leader].key == s.callers[c].key)
  {
    RunSound(states, steps, content, i);
    assert CallerSound(states[i], c, content);
  }

  /** When Close has returned without an error no load is in progress and no tracked reader is open. */
  lemma CloseLeavesNothing(states: seq<State>, steps: seq<Step>, content: Key -> Bytes, i: nat)
    requires IsRun(states, steps, content) && i < |states| && states[i].closed
    ensures forall c :: c in states[i].callers ==>
      var p := states[i].callers[c].phase; !Active(p) && !(p.Returned? && p.tracked)
    ensures states[i].fills == map[]
  {
    RunSound(states, steps, content, i);
    var s := states[i];
    assert ActiveCallers(s.callers) == {} && OpenReaders(s.callers) == {};
    forall c | c in s.callers
      ensures !Active(s.callers[c].phase) && !(s.callers[c].phase.Returned? && s.callers[c].phase.tracked)
    {
      assert c !in ActiveCallers(s.callers) && c !in OpenReaders(s.callers);
    }
    assert forall k :: k !in s.fills;
  }
}
