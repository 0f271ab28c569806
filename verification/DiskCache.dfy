/** The disk cache (filemgr/file_io_cache_disk.go): entries found by key and kept in a
    least-recently-used list, with reference counts for open readers.  Each step is one section of
    code that the source runs under its mutex, so that any interleaving of callers is a sequence of
    steps. */
module DiskCache {

  type Key = nat

  const ALLOCATION_UNIT := 4096
  const MAX_INT64 := 0x7fff_ffff_ffff_ffff

  datatype Option<T> = None | Some(value: T)

  // ---------------------------------------------------------------------------
  // Costs
  // ---------------------------------------------------------------------------

  /** diskCacheEntryCost: the size in whole allocation units, or 0 where that does not fit. */
  function EntryCost(size: int, maxCost: int): (cost: int)
    ensures size < 0 || maxCost <= 0 ==> cost == 0
    ensures size >= 0 && 0 < maxCost <= ALLOCATION_UNIT ==> cost == maxCost
    ensures size >= 0 && maxCost > ALLOCATION_UNIT && cost != 0 ==>
      cost % ALLOCATION_UNIT == 0 && cost > 0 && size <= cost < size + ALLOCATION_UNIT + (if size == 0 then 1 else 0)
    ensures 0 <= size <= MAX_INT64 && maxCost > 0 && cost == 0 ==> size > MAX_INT64 - ALLOCATION_UNIT
  {
    if size < 0 || maxCost <= 0 then 0
    else if maxCost <= ALLOCATION_UNIT then maxCost
    else
      var logical := if size > 1 then size else 1;
      var remainder := logical % ALLOCATION_UNIT;
      if remainder == 0 then logical
      else
        var increment := ALLOCATION_UNIT - remainder;
        if logical > MAX_INT64 - increment then 0 else logical + increment
  }

  /** An entry; its generation is new for each, so entries are the same when they are equal.  Its
      reference count and retired flag are kept by the cache. */
  datatype DiskEntry = DiskEntry(key: Key, generation: nat, path: string, size: int, cost: int)

  // ---------------------------------------------------------------------------
  // Lists of entries
  // ---------------------------------------------------------------------------

  ghost function TotalCost(es: seq<DiskEntry>): int {
    if es == [] then 0 else es[0].cost + TotalCost(es[1..])
  }

  ghost function TotalSize(es: seq<DiskEntry>): int {
    if es == [] then 0 else es[0].size + TotalSize(es[1..])
  }

  ghost function Members(es: seq<DiskEntry>): set<DiskEntry> {
    if es == [] then {} else {es[0]} + Members(es[1..])
  }

  /** The entries of the list by key. */
  ghost function ByKey(es: seq<DiskEntry>): map<Key, DiskEntry> {
    if es == [] then map[] else ByKey(es[1..])[es[0].key := es[0]]
  }

  /** No key is listed twice. */
  ghost predicate DistinctKeys(es: seq<DiskEntry>) {
    es == [] || (es[0].key !in ByKey(es[1..]) && DistinctKeys(es[1..]))
  }

  /** The list without `e`. */
  function Without(es: seq<DiskEntry>, e: DiskEntry): seq<DiskEntry> {
    if es == [] then [] else if es[0] == e then es[1..] else [es[0]] + Without(es[1..], e)
  }

  lemma Cons(e: DiskEntry, es: seq<DiskEntry>)
    ensures Members([e] + es) == {e} + Members(es) && TotalCost([e] + es) == e.cost + TotalCost(es)
    ensures ByKey([e] + es) == ByKey(es)[e.key := e]
    ensures DistinctKeys([e] + es) <==> e.key !in ByKey(es) && DistinctKeys(es)
  {
    assert ([e] + es)[1..] == es;
  }

  /** The key map finds exactly the listed entries. */
  lemma {:induction false} ByKeyFinds(es: seq<DiskEntry>, e: DiskEntry)
    requires DistinctKeys(es)
    ensures e in Members(es) <==> e.key in ByKey(es) && ByKey(es)[e.key] == e
    ensures e in Members(es) <==> e in es
  {
    if es != [] {
      ByKeyFinds(es[1..], e);
      assert es == [es[0]] + es[1..];
    }
  }

  lemma {:induction false} ByKeyKeyed(es: seq<DiskEntry>, k: Key)
    ensures k in ByKey(es) ==> ByKey(es)[k].key == k && ByKey(es)[k] in Members(es)
  {
    if es != [] { ByKeyKeyed(es[1..], k); }
  }

  lemma {:induction false} WithoutMeans(es: seq<DiskEntry>, e: DiskEntry)
    requires DistinctKeys(es) && e in Members(es)
    ensures DistinctKeys(Without(es, e)) && Members(Without(es, e)) == Members(es) - {e}
    ensures ByKey(Without(es, e)) == ByKey(es) - {e.key}
    ensures TotalCost(Without(es, e)) == TotalCost(es) - e.cost
  {
    ByKeyFinds(es[1..], es[0]);
    if es[0] != e {
      ByKeyFinds(es[1..], e);
      WithoutMeans(es[1..], e);
      Cons(es[0], Without(es[1..], e));
    }
  }

  lemma {:induction false} SizesWithinCosts(es: seq<DiskEntry>)
    requires forall e :: e in Members(es) ==> 0 <= e.size <= e.cost
    ensures 0 <= TotalSize(es) <= TotalCost(es)
  {
    if es != [] {
      SizesWithinCosts(es[1..]);
    }
  }

  // ---------------------------------------------------------------------------
  // The index
  // ---------------------------------------------------------------------------

  datatype Limits = Limits(maxCost: int, keyLimit: int, minSize: int)

  /** The bounds that admit checks, and what the cost function adds to them. */
  ghost predicate Admissible(e: DiskEntry, l: Limits) {
    && 0 <= e.size && l.minSize < e.size <= l.keyLimit && e.size <= l.maxCost
    && 0 < e.cost <= l.maxCost && e.size <= e.cost
  }

  ghost predicate AllAdmissible(es: set<DiskEntry>, l: Limits) {
    forall e :: e in es ==> Admissible(e, l)
  }

  /** The key map and the list hold the same entries, whose costs add up to what is accounted and
      stay within the limit. */
  ghost predicate IndexSound(entries: map<Key, DiskEntry>, lru: seq<DiskEntry>, used: int, l: Limits) {
    && entries == ByKey(lru) && DistinctKeys(lru) && AllAdmissible(Members(lru), l)
    && used == TotalCost(lru) && used <= l.maxCost
  }

  lemma IndexWithout(entries: map<Key, DiskEntry>, lru: seq<DiskEntry>, used: int, l: Limits, e: DiskEntry)
    requires IndexSound(entries, lru, used, l) && e in Members(lru)
    ensures IndexSound(entries - {e.key}, Without(lru, e), used - e.cost, l)
    ensures Members(Without(lru, e)) == Members(lru) - {e} && e.key in entries && entries[e.key] == e
  {
    WithoutMeans(lru, e);
    ByKeyFinds(lru, e);
  }

  lemma IndexWith(entries: map<Key, DiskEntry>, lru: seq<DiskEntry>, used: int, l: Limits, e: DiskEntry)
    requires IndexSound(entries, lru, used, l) && e.key !in entries && Admissible(e, l) && e.cost <= l.maxCost - used
    ensures IndexSound(entries[e.key := e], [e] + lru, used + e.cost, l)
    ensures Members([e] + lru) == {e} + Members(lru)
  {
    Cons(e, lru);
  }

  lemma IndexToFront(entries: map<Key, DiskEntry>, lru: seq<DiskEntry>, used: int, l: Limits, e: DiskEntry)
    requires IndexSound(entries, lru, used, l) && e in Members(lru)
    ensures IndexSound(entries, [e] + Without(lru, e), used, l)
    ensures Members([e] + Without(lru, e)) == Members(lru)
  {
    IndexWithout(entries, lru, used, l, e);
    IndexWith(entries - {e.key}, Without(lru, e), used - e.cost, l, e);
    assert (entries - {e.key})[e.key := e] == entries;
  }

  // ---------------------------------------------------------------------------
  // The state
  // ---------------------------------------------------------------------------

  /** What the mutex protects, the wait group of the readers, and beside it the readers handed out and
      not closed (`open`), those closed that have not left the wait group yet (`leaving`), the entries
      whose files were handed to removal (`handed`), and whether close has dropped the index
      (`drained`).  `refs` holds every entry ever admitted. */
  datatype State = State(
    entries: map<Key, DiskEntry>, lru: seq<DiskEntry>, used: int, closing: bool, readers: int,
    refs: map<DiskEntry, int>, retired: set<DiskEntry>,
    open: multiset<DiskEntry>, leaving: nat, handed: multiset<DiskEntry>, drained: bool)

  const Empty := State(map[], [], 0, false, 0, map[], {}, multiset{}, 0, multiset{}, false)

  /** An entry has as many references as open readers, and its file was handed to removal once if
      the entry is retired and has none, and never otherwise. */
  ghost predicate Counted(s: State) {
    && s.readers == |s.open| + s.leaving
    && (forall e :: e in s.refs ==> s.refs[e] == s.open[e])
    && (forall e :: s.open[e] > 0 ==> e in s.refs)
    && (forall e :: s.handed[e] == if e in s.retired && s.open[e] == 0 then 1 else 0)
  }

  /** An entry is retired when it leaves the index, unless close drops the whole index. */
  ghost predicate Placed(s: State) {
    && Members(s.lru) <= s.refs.Keys && s.retired <= s.refs.Keys && Members(s.lru) !! s.retired
    && (if s.drained then s.closing && s.lru == [] && s.open == multiset{}
        else s.refs.Keys == Members(s.lru) + s.retired)
  }

  ghost predicate Sound(s: State, l: Limits) {
    l.maxCost >= 0 && IndexSound(s.entries, s.lru, s.used, l) && Counted(s) && Placed(s)
  }

  // ---------------------------------------------------------------------------
  // The steps
  // ---------------------------------------------------------------------------

  /** What is handed to removal when `e` is retired. */
  ghost function Idle(s: State, e: DiskEntry): multiset<DiskEntry> {
    if s.open[e] == 0 then multiset{e} else multiset{}
  }

  /** retireLocked on an entry of the index. */
  ghost function Retire(s: State, e: DiskEntry): State {
    s.(entries := s.entries - {e.key}, lru := Without(s.lru, e), used := s.used - e.cost,
       retired := s.retired + {e}, handed := s.handed + Idle(s, e))
  }

  /** The eviction loop of admit. */
  ghost function Evict(s: State, cost: int, l: Limits): State
    decreases |s.lru|
  {
    if cost <= l.maxCost - s.used || s.lru == [] then s
    else
      var oldest := s.lru[|s.lru| - 1];
      WithoutShorter(s.lru, oldest);
      Evict(Retire(s, oldest), cost, l)
  }

  predicate Fits(e: DiskEntry, l: Limits) {
    0 <= e.size && l.minSize < e.size <= l.keyLimit && e.size <= l.maxCost && 0 < e.cost <= l.maxCost
  }

  ghost function MakeRoom(s: State, e: DiskEntry, l: Limits): State {
    Evict(if e.key in s.entries then Retire(s, s.entries[e.key]) else s, e.cost, l)
  }

  ghost function Insert(s: State, e: DiskEntry): State {
    s.(entries := s.entries[e.key := e], lru := [e] + s.lru, used := s.used + e.cost, refs := s.refs[e := 0])
  }

  ghost function Admit(s: State, e: DiskEntry, l: Limits): State {
    if s.closing || !Fits(e, l) then s else Insert(MakeRoom(s, e, l), e)
  }

  /** The first section of open: a reference to the entry, which becomes the most recent. */
  ghost function Reference(s: State, e: DiskEntry): State
    requires e in s.refs
  {
    s.(refs := s.refs[e := s.refs[e] + 1], readers := s.readers + 1, lru := [e] + Without(s.lru, e),
       open := s.open + multiset{e})
  }

  ghost function Open(s: State, key: Key, size: int): State
    requires key in s.entries ==> s.entries[key] in s.refs
  {
    if key !in s.entries || s.closing then s
    else if s.entries[key].size != size then Retire(s, s.entries[key])
    else Reference(s, s.entries[key])
  }

  ghost function Invalidate(s: State, e: DiskEntry): State {
    if e.key in s.entries && s.entries[e.key] == e then Retire(s, e)
    else if e !in s.retired then s.(retired := s.retired + {e}, handed := s.handed + Idle(s, e))
    else s
  }

  /** The last reader of a retired entry hands its file to removal. */
  ghost function Release(s: State, e: DiskEntry): State
    requires e in s.refs
  {
    var s' := s.(refs := s.refs[e := s.refs[e] - 1], open := s.open - multiset{e}, leaving := s.leaving + 1);
    if e in s.retired then s'.(handed := s.handed + Idle(s', e)) else s'
  }

  /** A reader that was closed leaves the wait group, after the mutex was given up. */
  ghost function Leave(s: State): State
    requires s.leaving > 0
  {
    s.(readers := s.readers - 1, leaving := s.leaving - 1)
  }

  ghost function BeginClose(s: State): State {
    s.(closing := true)
  }

  /** close once its wait for the readers is over: the index is dropped, the files stay. */
  ghost function EndClose(s: State): State {
    s.(entries := map[], lru := [], used := 0, drained := true)
  }

  // ---------------------------------------------------------------------------
  // Every step keeps the state sound
  // ---------------------------------------------------------------------------

  lemma {:induction false} WithoutShorter(es: seq<DiskEntry>, e: DiskEntry)
    ensures e in es ==> |Without(es, e)| == |es| - 1
    ensures e !in es ==> Without(es, e) == es
  {
    if es != [] && es[0] != e {
      WithoutShorter(es[1..], e);
      assert es == [es[0]] + es[1..];
    }
  }

  lemma RetireSound(s: State, l: Limits, e: DiskEntry)
    requires Sound(s, l) && e in Members(s.lru)
    ensures Sound(Retire(s, e), l)
  {
    IndexWithout(s.entries, s.lru, s.used, l, e);
  }

  lemma {:induction false} EvictSound(s: State, cost: int, l: Limits)
    requires Sound(s, l) && 0 < cost <= l.maxCost
    ensures var u := Evict(s, cost, l);
      && Sound(u, l) && cost <= l.maxCost - u.used && u.refs == s.refs && u.open == s.open && u.closing == s.closing
      && u.drained == s.drained && u.entries.Keys <= s.entries.Keys
    decreases |s.lru|
  {
    if !(cost <= l.maxCost - s.used || s.lru == []) {
      var oldest := s.lru[|s.lru| - 1];
      ByKeyFinds(s.lru, oldest);
      WithoutShorter(s.lru, oldest);
      RetireSound(s, l, oldest);
      EvictSound(Retire(s, oldest), cost, l);
    }
  }

  lemma MakeRoomSound(s: State, e: DiskEntry, l: Limits)
    requires Sound(s, l) && Fits(e, l) && e !in s.refs
    ensures var u := MakeRoom(s, e, l);
      && Sound(u, l) && e.cost <= l.maxCost - u.used && u.refs == s.refs && u.open == s.open && u.closing == s.closing
      && u.drained == s.drained && e.key !in u.entries
  {
    if e.key in s.entries {
      ByKeyKeyed(s.lru, e.key);
      RetireSound(s, l, s.entries[e.key]);
      EvictSound(Retire(s, s.entries[e.key]), e.cost, l);
    } else {
      EvictSound(s, e.cost, l);
    }
  }

  lemma AdmitSound(s: State, e: DiskEntry, l: Limits)
    requires Sound(s, l) && e !in s.refs && e.cost == EntryCost(e.size, l.maxCost) && (s.drained ==> s.closing)
    ensures Sound(Admit(s, e, l), l)
  {
    if !s.closing && Fits(e, l) {
      MakeRoomSound(s, e, l);
      InsertSound(MakeRoom(s, e, l), e, l);
    }
  }

  lemma InsertSound(s: State, e: DiskEntry, l: Limits)
    requires Sound(s, l) && e !in s.refs && e.key !in s.entries && e.cost <= l.maxCost - s.used && !s.drained
    requires Fits(e, l) && e.cost == EntryCost(e.size, l.maxCost)
    ensures Sound(Insert(s, e), l)
  {
    IndexWith(s.entries, s.lru, s.used, l, e);
  }

  lemma OpenSound(s: State, l: Limits, key: Key, size: int)
    requires Sound(s, l)
    ensures key in s.entries ==> s.entries[key] in s.refs
    ensures Sound(Open(s, key, size), l)
  {
    if key in s.entries && !s.closing {
      ByKeyKeyed(s.lru, key);
      var e := s.entries[key];
      if e.size != size {
        RetireSound(s, l, e);
      } else {
        IndexToFront(s.entries, s.lru, s.used, l, e);
      }
    } else if key in s.entries {
      ByKeyKeyed(s.lru, key);
    }
  }

  lemma InvalidateSound(s: State, l: Limits, e: DiskEntry)
    requires Sound(s, l) && e in s.refs
    ensures Sound(Invalidate(s, e), l)
  {
    ByKeyFinds(s.lru, e);
    if e in Members(s.lru) { RetireSound(s, l, e); }
  }

  lemma ReleaseSound(s: State, l: Limits, e: DiskEntry)
    requires Sound(s, l) && s.open[e] > 0
    ensures e in s.refs && Sound(Release(s, e), l)
  {
    ReleaseCounted(s, e);
  }

  lemma ReleaseCounted(s: State, e: DiskEntry)
    requires Counted(s) && s.open[e] > 0
    ensures e in s.refs && Counted(Release(s, e))
  {
    var u := Release(s, e);
    assert |u.open| == |s.open| - 1 by { assert s.open == u.open + multiset{e}; }
    forall f
      ensures u.handed[f] == (if f in u.retired && u.open[f] == 0 then 1 else 0) && (u.open[f] > 0 ==> f in u.refs)
    {
      ReleasedAt(s, e, f);
    }
    forall f | f in u.refs ensures u.refs[f] == u.open[f] {
      ReleasedAt(s, e, f);
    }
  }

  lemma ReleasedAt(s: State, e: DiskEntry, f: DiskEntry)
    requires Counted(s) && s.open[e] > 0
    ensures e in s.refs
    ensures var u := Release(s, e);
      && u.handed[f] == (if f in u.retired && u.open[f] == 0 then 1 else 0) && (u.open[f] > 0 ==> f in u.refs)
      && (f in u.refs ==> u.refs[f] == u.open[f])
  {
    var u := Release(s, e);
    if f != e { assert u.open[f] == s.open[f] && u.handed[f] == s.handed[f]; }
  }

  lemma LeaveSound(s: State, l: Limits)
    requires Sound(s, l) && s.leaving > 0
    ensures Sound(Leave(s), l)
  {
  }

  lemma CloseSound(s: State, l: Limits)
    requires Sound(s, l)
    ensures Sound(BeginClose(s), l)
    ensures s.closing && s.open == multiset{} ==> Sound(EndClose(s), l)
  {
  }
}
