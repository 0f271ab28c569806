/** The list of the disk cache is ordered by use over every run, so eviction takes what was least recently
    admitted or opened (filemgr/file_io_cache_disk.go). */
module DiskCacheOrder {
  import opened DiskCache
  import opened DiskCacheRuns

  /** The step admits the entry, or opens it and finds it. */
  predicate Uses(s: State, l: Limits, step: Step, e: DiskEntry) {
    match step
    case AdmitStep(x) => x == e && !s.closing && Fits(e, l)
    case OpenStep(key, size) => !s.closing && key in s.entries && s.entries[key] == e && e.size == size
    case _ => false
  }

  /** Where the entry stands in the list, or its length. */
  ghost function Place(es: seq<DiskEntry>, e: DiskEntry): nat {
    if es == [] || es[0] == e then 0 else 1 + Place(es[1..], e)
  }

  /** The last use of the entry before state `n`; entries not used since the start of the run come before,
      in the order they were found in. */
  ghost function LastUse(states: seq<State>, steps: seq<Step>, l: Limits, e: DiskEntry, n: nat): int
    requires |states| == |steps| + 1 && n <= |steps|
  {
    if n == 0 then -1 - Place(states[0].lru, e)
    else if Uses(states[n - 1], l, steps[n - 1], e) then n - 1
    else LastUse(states, steps, l, e, n - 1)
  }

  type Rank = DiskEntry -> int

  /** Earlier ones have the greater rank. */
  ghost predicate Ordered(es: seq<DiskEntry>, rank: Rank) {
    forall p, q :: 0 <= p < q < |es| ==> rank(es[p]) > rank(es[q])
  }

  ghost function UseRank(states: seq<State>, steps: seq<Step>, l: Limits, n: nat): Rank
    requires |states| == |steps| + 1 && n <= |steps|
  {
    e => LastUse(states, steps, l, e, n)
  }

  // ---------------------------------------------------------------------------
  // Lists
  // ---------------------------------------------------------------------------

  /** Taking an entry out leaves the order of the others. */
  lemma {:induction false} WithoutOrdered(es: seq<DiskEntry>, e: DiskEntry, rank: Rank)
    requires Ordered(es, rank)
    ensures Ordered(Without(es, e), rank) && forall x :: x in Without(es, e) ==> x in es
  {
    if es != [] {
      assert es == [es[0]] + es[1..];
      if es[0] != e {
        WithoutOrdered(es[1..], e, rank);
        var rest := Without(es[1..], e);
        forall q | 0 <= q < |rest| ensures rank(es[0]) > rank(rest[q]) {
          assert rest[q] in rest;
          var p :| 0 <= p < |es[1..]| && es[1..][p] == rest[q];
          assert es[p + 1] == rest[q];
        }
      }
    }
  }

  lemma {:induction false} EvictOrdered(s: State, cost: int, l: Limits, rank: Rank)
    requires Ordered(s.lru, rank)
    ensures Ordered(Evict(s, cost, l).lru, rank)
    ensures forall x :: x in Evict(s, cost, l).lru ==> x in s.lru
    decreases |s.lru|
  {
    if !(cost <= l.maxCost - s.used || s.lru == []) {
      var oldest := s.lru[|s.lru| - 1];
      WithoutShorter(s.lru, oldest);
      WithoutOrdered(s.lru, oldest, rank);
      EvictOrdered(Retire(s, oldest), cost, l, rank);
    }
  }

  lemma MakeRoomOrdered(s: State, e: DiskEntry, l: Limits, rank: Rank)
    requires Ordered(s.lru, rank)
    ensures Ordered(MakeRoom(s, e, l).lru, rank)
    ensures forall x :: x in MakeRoom(s, e, l).lru ==> x in s.lru
  {
    if e.key in s.entries { WithoutOrdered(s.lru, s.entries[e.key], rank); }
    EvictOrdered(if e.key in s.entries then Retire(s, s.entries[e.key]) else s, e.cost, l, rank);
  }

  /** An entry that is put first with a greater rank than all others. */
  lemma FirstOrdered(e: DiskEntry, es: seq<DiskEntry>, rank: Rank)
    requires Ordered(es, rank) && forall x :: x in es ==> rank(e) > rank(x)
    ensures Ordered([e] + es, rank)
  {
    forall q | 0 <= q < |es| ensures rank(e) > rank(es[q]) {
      assert es[q] in es;
    }
  }

  lemma {:induction false} SameRanks(es: seq<DiskEntry>, a: Rank, b: Rank)
    requires Ordered(es, a) && forall x :: x in es ==> a(x) == b(x)
    ensures Ordered(es, b)
  {
    forall p, q | 0 <= p < q < |es| ensures b(es[p]) > b(es[q]) {
      assert es[p] in es && es[q] in es;
    }
  }

  /** The initial list is ordered by place. */
  lemma {:induction false} PlaceIs(es: seq<DiskEntry>, p: nat)
    requires DistinctKeys(es) && p < |es|
    ensures Place(es, es[p]) == p
  {
    if p > 0 {
      ByKeyFinds(es[1..], es[0]);
      assert es[1..][p - 1] == es[p];
      PlaceIs(es[1..], p - 1);
      ByKeyFinds(es[1..], es[p]);
    }
  }

  // ---------------------------------------------------------------------------
  // Steps
  // ---------------------------------------------------------------------------

  lemma {:induction false} LastUseBefore(states: seq<State>, steps: seq<Step>, l: Limits, e: DiskEntry, n: nat)
    requires |states| == |steps| + 1 && n <= |steps|
    ensures LastUse(states, steps, l, e, n) < n
  {
    if n > 0 { LastUseBefore(states, steps, l, e, n - 1); }
  }

  /** The list after a step: the used entry, if there is one, before others in the order they had. */
  ghost predicate Moved(s: State, l: Limits, step: Step, u: State, rank: Rank) {
    if exists e :: Uses(s, l, step, e) then
      u.lru != [] && Uses(s, l, step, u.lru[0]) && Ordered(u.lru[1..], rank) && u.lru[0] !in u.lru[1..]
      && forall x :: x in u.lru[1..] ==> x in s.lru
    else Ordered(u.lru, rank) && forall x :: x in u.lru ==> x in s.lru
  }

  lemma AdmitMoves(s: State, e: DiskEntry, l: Limits, rank: Rank)
    requires Sound(s, l) && Ordered(s.lru, rank) && Enabled(s, l, AdmitStep(e))
    ensures Moved(s, l, AdmitStep(e), Admit(s, e, l), rank)
  {
    if Uses(s, l, AdmitStep(e), e) {
      MakeRoomOrdered(s, e, l, rank);
      var room := MakeRoom(s, e, l);
      assert ([e] + room.lru)[1..] == room.lru;
      ByKeyFinds(s.lru, e);
    }
  }

  lemma OpenMoves(s: State, key: Key, size: int, l: Limits, rank: Rank)
    requires Sound(s, l) && Ordered(s.lru, rank) && Enabled(s, l, OpenStep(key, size))
    ensures Moved(s, l, OpenStep(key, size), Open(s, key, size), rank)
  {
    if key in s.entries {
      var e := s.entries[key];
      ByKeyKeyed(s.lru, key);
      WithoutOrdered(s.lru, e, rank);
      WithoutMeans(s.lru, e);
      ByKeyFinds(Without(s.lru, e), e);
      assert ([e] + Without(s.lru, e))[1..] == Without(s.lru, e);
      if Uses(s, l, OpenStep(key, size), e) { assert Open(s, key, size).lru == [e] + Without(s.lru, e); }
    }
  }

  lemma StepMoves(s: State, l: Limits, step: Step, rank: Rank)
    requires Sound(s, l) && Ordered(s.lru, rank) && Enabled(s, l, step)
    ensures Moved(s, l, step, Apply(s, l, step), rank)
  {
    match step
    case AdmitStep(e) => AdmitMoves(s, e, l, rank);
    case OpenStep(key, size) => OpenMoves(s, key, size, l, rank);
    case InvalidateStep(e) => WithoutOrdered(s.lru, e, rank);
    case _ =>
  }

  // ---------------------------------------------------------------------------
  // Runs
  // ---------------------------------------------------------------------------

  /** In every state of every run an entry stands before another exactly if its last use came later. */
  lemma {:induction false} OrderedByUse(states: seq<State>, steps: seq<Step>, l: Limits, n: nat)
    requires IsRun(states, steps, l) && n < |states|
    ensures Ordered(states[n].lru, UseRank(states, steps, l, n))
  {
    if n == 0 {
      forall p | 0 <= p < |states[0].lru| ensures Place(states[0].lru, states[0].lru[p]) == p {
        PlaceIs(states[0].lru, p);
      }
    } else {
      OrderedByUse(states, steps, l, n - 1);
      RunSound(states, steps, l, n - 1);
      assert StepAt(states, steps, l, n - 1);
      StepMoves(states[n - 1], l, steps[n - 1], UseRank(states, steps, l, n - 1));
      NextOrdered(states, steps, l, n - 1);
    }
  }

  lemma NextOrdered(states: seq<State>, steps: seq<Step>, l: Limits, n: nat)
    requires |states| == |steps| + 1 && n < |steps|
    requires Moved(states[n], l, steps[n], states[n + 1], UseRank(states, steps, l, n))
    ensures Ordered(states[n + 1].lru, UseRank(states, steps, l, n + 1))
  {
    var a, b, es := UseRank(states, steps, l, n), UseRank(states, steps, l, n + 1), states[n + 1].lru;
    if exists e :: Uses(states[n], l, steps[n], e) {
      var e, rest := es[0], es[1..];
      forall x | x in rest ensures a(x) == b(x) && b(e) > b(x) {
        LastUseBefore(states, steps, l, x, n);
      }
      SameRanks(rest, a, b);
      FirstOrdered(e, rest, b);
      assert es == [e] + rest;
    } else {
      SameRanks(es, a, b);
    }
  }

  /** Of two entries of the list, the one that was used last stands first. */
  lemma BeforeExactly(states: seq<State>, steps: seq<Step>, l: Limits, n: nat, p: nat, q: nat)
    requires IsRun(states, steps, l) && n < |states| && p < |states[n].lru| && q < |states[n].lru|
    ensures p < q <==>
      LastUse(states, steps, l, states[n].lru[p], n) > LastUse(states, steps, l, states[n].lru[q], n)
  {
    OrderedByUse(states, steps, l, n);
    var rank := UseRank(states, steps, l, n);
    assert p < q ==> rank(states[n].lru[p]) > rank(states[n].lru[q]);
    assert q < p ==> rank(states[n].lru[q]) > rank(states[n].lru[p]);
  }

  /** An admission evicts only what was used less recently than everything it keeps. */
  lemma EvictsLeastRecent(states: seq<State>, steps: seq<Step>, l: Limits, n: nat, kept: DiskEntry, gone: DiskEntry)
    requires IsRun(states, steps, l) && n < |steps| && steps[n].AdmitStep?
    requires kept in states[n + 1].lru && kept != steps[n].entry
    requires gone in states[n].lru && gone !in states[n + 1].lru && gone.key != steps[n].entry.key
    ensures LastUse(states, steps, l, kept, n) > LastUse(states, steps, l, gone, n)
  {
    var s, e := states[n], steps[n].entry;
    RunSound(states, steps, l, n);
    assert StepAt(states, steps, l, n);
    OrderedByUse(states, steps, l, n);
    var rank := UseRank(states, steps, l, n);
    AdmitKeepsMost(s, e, l);
    var es := if e.key in s.entries then Without(s.lru, s.entries[e.key]) else s.lru;
    WithoutOrdered(s.lru, if e.key in s.entries then s.entries[e.key] else e, rank);
    GoneIsListed(s, l, e, gone);
    assert Ordered(es, rank);
    KeptBeforeGone(es, states[n + 1].lru[1..], rank, kept, gone);
  }

  /** What the new entry does not replace stays in the list until eviction. */
  lemma GoneIsListed(s: State, l: Limits, e: DiskEntry, gone: DiskEntry)
    requires Sound(s, l) && gone in s.lru && gone.key != e.key
    ensures e.key in s.entries ==> gone in Without(s.lru, s.entries[e.key])
  {
    if e.key in s.entries {
      var old' := s.entries[e.key];
      ByKeyKeyed(s.lru, e.key);
      WithoutMeans(s.lru, old');
      ByKeyFinds(s.lru, gone);
      ByKeyFinds(Without(s.lru, old'), gone);
    }
  }

  lemma KeptBeforeGone(es: seq<DiskEntry>, front: seq<DiskEntry>, rank: Rank, kept: DiskEntry, gone: DiskEntry)
    requires Ordered(es, rank) && front <= es && kept in front && gone in es && gone !in front
    ensures rank(kept) > rank(gone)
  {
    var p :| 0 <= p < |front| && front[p] == kept;
    var q :| 0 <= q < |es| && es[q] == gone;
    assert forall i :: 0 <= i < |front| ==> es[i] == front[i] && front[i] in front;
    assert es[p] == kept;
  }

  // ---------------------------------------------------------------------------
  // What leaves the list
  // ---------------------------------------------------------------------------

  /** The step takes the entry out of the list: another takes its place, its size is not the one asked for, it is
      invalidated, or the cache has been closed. */
  predicate Drops(s: State, l: Limits, step: Step, e: DiskEntry) {
    match step
    case AdmitStep(x) => !s.closing && Fits(x, l) && x.key == e.key
    case OpenStep(key, size) => !s.closing && key in s.entries && s.entries[key] == e && e.size != size
    case InvalidateStep(x) => x == e
    case EndCloseStep => true
    case _ => false
  }

  lemma WithoutExactly(es: seq<DiskEntry>, x: DiskEntry, e: DiskEntry)
    requires DistinctKeys(es) && x in es
    ensures e in Without(es, x) <==> e in es && e != x
  {
    ByKeyFinds(es, x);
    WithoutMeans(es, x);
    ByKeyFinds(es, e);
    ByKeyFinds(Without(es, x), e);
  }

  lemma ListedByKey(s: State, l: Limits, e: DiskEntry)
    requires Sound(s, l)
    ensures e in s.lru <==> e.key in s.entries && s.entries[e.key] == e
    ensures forall k :: k in s.entries ==> s.entries[k].key == k && s.entries[k] in s.lru
  {
    ByKeyFinds(s.lru, e);
    forall k | k in s.entries ensures s.entries[k].key == k && s.entries[k] in s.lru {
      ByKeyKeyed(s.lru, k);
      ByKeyFinds(s.lru, s.entries[k]);
    }
  }

  /** Every step but an admission takes exactly what it drops out of the list, and brings nothing in. */
  lemma StepDrops(s: State, l: Limits, step: Step, e: DiskEntry)
    requires Sound(s, l) && Enabled(s, l, step) && !step.AdmitStep?
    ensures e in Apply(s, l, step).lru <==> e in s.lru && !Drops(s, l, step, e)
  {
    ListedByKey(s, l, e);
    match step
    case OpenStep(key, size) =>
      if key in s.entries {
        WithoutExactly(s.lru, s.entries[key], e);
      }
    case InvalidateStep(x) => if x.key in s.entries && s.entries[x.key] == x { WithoutExactly(s.lru, x, e); }
    case _ =>
  }

  /** An admission brings its entry in, takes out the one whose key it has, and of the others those that are
      evicted. */
  lemma AdmitDrops(s: State, l: Limits, x: DiskEntry, e: DiskEntry)
    requires Sound(s, l) && Enabled(s, l, AdmitStep(x)) && !s.closing && Fits(x, l)
    ensures x in Admit(s, x, l).lru
    ensures e in Admit(s, x, l).lru && e != x ==> e in s.lru && e.key != x.key
  {
    MakeRoomOrderedBy(s, x, l);
    var room := MakeRoom(s, x, l);
    assert Admit(s, x, l).lru == [x] + room.lru;
    AdmitSound(s, x, l);
    ListedByKey(Admit(s, x, l), l, e);
    ListedByKey(Admit(s, x, l), l, x);
  }

  lemma MakeRoomOrderedBy(s: State, x: DiskEntry, l: Limits)
    requires Sound(s, l)
    ensures forall e :: e in MakeRoom(s, x, l).lru ==> e in s.lru
  {
    forall p | 0 <= p < |s.lru| ensures Place(s.lru, s.lru[p]) == p {
      PlaceIs(s.lru, p);
    }
    var rank: Rank := e => -1 - Place(s.lru, e);
    MakeRoomOrdered(s, x, l, rank);
  }

  /** A closing cache uses nothing any more, over every run. */
  lemma {:induction false} NothingUsedWhenClosing(states: seq<State>, steps: seq<Step>, l: Limits, i: nat, j: nat,
                                                  e: DiskEntry)
    requires IsRun(states, steps, l) && i <= j < |steps| && (states[i].closing || (i < j && steps[i].BeginCloseStep?))
    ensures states[j].closing && !Uses(states[j], l, steps[j], e)
    decreases j
  {
    if i < j {
      assert StepAt(states, steps, l, j - 1);
      if i < j - 1 || states[i].closing { NothingUsedWhenClosing(states, steps, l, i, j - 1, e); }
      if steps[j - 1].AdmitStep? { assert Apply(states[j - 1], l, steps[j - 1]).closing; }
    }
  }
}
