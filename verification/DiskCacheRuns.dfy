/** Any interleaving of the steps of the disk cache. */
module DiskCacheRuns {
  import opened DiskCache

  datatype Step =
    | AdmitStep(entry: DiskEntry)
    | OpenStep(key: Key, size: int)
    | InvalidateStep(entry: DiskEntry)
    | ReleaseStep(entry: DiskEntry)
    | LeaveStep
    | BeginCloseStep
    | EndCloseStep

  /** No two entries have the same file. */
  ghost predicate PathsDistinct(es: set<DiskEntry>) {
    forall e, f :: e in es && f in es && e.path == f.path ==> e == f
  }

  /** The entry is new and so is its file, whose name carries a new generation. */
  ghost predicate NewFile(s: State, e: DiskEntry) {
    forall f :: f in s.refs ==> f.path != e.path
  }

  /** When the source can take a step: an admitted entry is new and carries its cost, an entry is
      invalidated by a caller that found it, a reader is closed once, and close goes on when it has
      waited for the readers. */
  ghost predicate Enabled(s: State, l: Limits, step: Step) {
    match step
    case AdmitStep(e) => NewFile(s, e) && e.cost == EntryCost(e.size, l.maxCost)
    case OpenStep(key, _) => key in s.entries ==> s.entries[key] in s.refs
    case InvalidateStep(e) => e in s.refs
    case ReleaseStep(e) => s.open[e] > 0 && e in s.refs
    case LeaveStep => s.leaving > 0
    case BeginCloseStep => true
    case EndCloseStep => s.closing && s.readers == 0
  }

  ghost function Apply(s: State, l: Limits, step: Step): State
    requires Enabled(s, l, step)
  {
    match step
    case AdmitStep(e) => Admit(s, e, l)
    case OpenStep(key, size) => Open(s, key, size)
    case InvalidateStep(e) => Invalidate(s, e)
    case ReleaseStep(e) => Release(s, e)
    case LeaveStep => Leave(s)
    case BeginCloseStep => BeginClose(s)
    case EndCloseStep => EndClose(s)
  }

  /** A run from any sound state: the empty one, or one that recovery leaves. */
  ghost predicate IsRun(states: seq<State>, steps: seq<Step>, l: Limits) {
    && |states| == |steps| + 1 && Sound(states[0], l) && PathsDistinct(states[0].refs.Keys)
    && forall i {:trigger StepAt(states, steps, l, i)} :: 0 <= i < |steps| ==> StepAt(states, steps, l, i)
  }

  ghost predicate StepAt(states: seq<State>, steps: seq<Step>, l: Limits, i: int)
    requires 0 <= i < |steps| && |states| == |steps| + 1
  {
    Enabled(states[i], l, steps[i]) && states[i + 1] == Apply(states[i], l, steps[i])
  }

  lemma StepSound(s: State, l: Limits, step: Step)
    requires Sound(s, l) && Enabled(s, l, step)
    ensures Sound(Apply(s, l, step), l)
  {
    match step
    case AdmitStep(e) => AdmitSound(s, e, l);
    case OpenStep(key, size) => OpenSound(s, l, key, size);
    case InvalidateStep(e) => InvalidateSound(s, l, e);
    case ReleaseStep(e) => ReleaseSound(s, l, e);
    case LeaveStep => LeaveSound(s, l);
    case BeginCloseStep => CloseSound(s, l);
    case EndCloseStep =>
      assert s.open == multiset{};
      CloseSound(s, l);
  }

  lemma {:induction false} RunSound(states: seq<State>, steps: seq<Step>, l: Limits, i: nat)
    requires IsRun(states, steps, l) && i < |states|
    ensures Sound(states[i], l)
  {
    if i > 0 {
      RunSound(states, steps, l, i - 1);
      assert StepAt(states, steps, l, i - 1);
      StepSound(states[i - 1], l, steps[i - 1]);
    }
  }

  // ---------------------------------------------------------------------------
  // What soundness means to a caller
  // ---------------------------------------------------------------------------

  /** In every state of every run the key map and the list hold the same entries, their costs are
      accounted within the limit, and so are their sizes. */
  lemma IndexAlwaysExact(states: seq<State>, steps: seq<Step>, l: Limits, i: nat)
    requires IsRun(states, steps, l) && i < |states|
    ensures var s := states[i];
      && (forall e :: e in s.lru <==> e.key in s.entries && s.entries[e.key] == e)
      && (forall k :: k in s.entries ==> s.entries[k].key == k)
      && s.used == TotalCost(s.lru) <= l.maxCost && 0 <= TotalSize(s.lru) <= s.used
  {
    RunSound(states, steps, l, i);
    var s := states[i];
    forall e ensures e in s.lru <==> e.key in s.entries && s.entries[e.key] == e { ByKeyFinds(s.lru, e); }
    forall k | k in s.entries ensures s.entries[k].key == k { ByKeyKeyed(s.lru, k); }
    SizesWithinCosts(s.lru);
  }

  /** What a step does to one entry: it stays known, retired and handed over once it is. */
  ghost predicate Onward(s: State, u: State) {
    && s.refs.Keys <= u.refs.Keys && s.retired <= u.retired
    && (forall e :: s.handed[e] <= u.handed[e])
    && (forall e :: e in s.retired ==> u.open[e] <= s.open[e])
  }

  lemma OnwardTrans(s: State, t: State, u: State)
    requires Onward(s, t) && Onward(t, u)
    ensures Onward(s, u)
  {
  }

  lemma RetireOnward(s: State, e: DiskEntry)
    ensures Onward(s, Retire(s, e))
  {
  }

  lemma {:induction false} EvictOnward(s: State, cost: int, l: Limits)
    ensures Onward(s, Evict(s, cost, l))
    decreases |s.lru|
  {
    if !(cost <= l.maxCost - s.used || s.lru == []) {
      var oldest := s.lru[|s.lru| - 1];
      WithoutShorter(s.lru, oldest);
      RetireOnward(s, oldest);
      EvictOnward(Retire(s, oldest), cost, l);
      OnwardTrans(s, Retire(s, oldest), Evict(Retire(s, oldest), cost, l));
    }
  }

  lemma AdmitOnward(s: State, e: DiskEntry, l: Limits)
    ensures Onward(s, Admit(s, e, l))
  {
    var s' := if e.key in s.entries then Retire(s, s.entries[e.key]) else s;
    EvictOnward(s', e.cost, l);
    OnwardTrans(s, s', MakeRoom(s, e, l));
    OnwardTrans(s, MakeRoom(s, e, l), Insert(MakeRoom(s, e, l), e));
  }

  lemma OpenOnward(s: State, l: Limits, key: Key, size: int)
    requires Sound(s, l) && (key in s.entries ==> s.entries[key] in s.refs)
    ensures Onward(s, Open(s, key, size))
  {
    if key in s.entries && !s.closing {
      ByKeyKeyed(s.lru, key);
      var e := s.entries[key];
      if e.size != size { RetireOnward(s, e); } else { ReferenceOnward(s, e); }
    }
  }

  lemma ReferenceOnward(s: State, e: DiskEntry)
    requires e in s.refs && e !in s.retired
    ensures Onward(s, Reference(s, e))
  {
  }

  lemma InvalidateOnward(s: State, e: DiskEntry)
    ensures Onward(s, Invalidate(s, e))
  {
    RetireOnward(s, e);
  }

  lemma ReleaseOnward(s: State, e: DiskEntry)
    requires e in s.refs
    ensures Onward(s, Release(s, e))
  {
  }

  lemma StepOnward(s: State, l: Limits, step: Step)
    requires Sound(s, l) && Enabled(s, l, step)
    ensures Onward(s, Apply(s, l, step))
  {
    match step
    case AdmitStep(e) => AdmitOnward(s, e, l);
    case OpenStep(key, size) => OpenOnward(s, l, key, size);
    case InvalidateStep(e) => InvalidateOnward(s, e);
    case ReleaseStep(e) => ReleaseOnward(s, e);
    case _ =>
  }

  lemma RunStepOnward(states: seq<State>, steps: seq<Step>, l: Limits, i: nat)
    requires IsRun(states, steps, l) && i < |steps|
    ensures Onward(states[i], states[i + 1])
  {
    RunSound(states, steps, l, i);
    assert StepAt(states, steps, l, i);
    StepOnward(states[i], l, steps[i]);
  }

  ghost predicate OnwardAt(states: seq<State>, i: nat) {
    i + 1 < |states| ==> Onward(states[i], states[i + 1])
  }

  lemma {:induction false} ChainOnward(states: seq<State>, i: nat, j: nat)
    requires i <= j < |states| && forall k: nat :: k < |states| ==> OnwardAt(states, k)
    ensures Onward(states[i], states[j])
    decreases j
  {
    if i < j {
      ChainOnward(states, i, j - 1);
      assert OnwardAt(states, j - 1);
      OnwardTrans(states[i], states[j - 1], states[j]);
    }
  }

  lemma RunOnward(states: seq<State>, steps: seq<Step>, l: Limits, i: nat, j: nat)
    requires IsRun(states, steps, l) && i <= j < |states|
    ensures Onward(states[i], states[j])
  {
    forall k: nat | k < |states| ensures OnwardAt(states, k) {
      if k < |steps| { RunStepOnward(states, steps, l, k); }
    }
    ChainOnward(states, i, j);
  }

  /** Only admission makes an entry known. */
  ghost predicate Admits(s: State, u: State, step: Step) {
    u.refs.Keys == s.refs.Keys || (step.AdmitStep? && u.refs.Keys == s.refs.Keys + {step.entry})
  }

  lemma {:induction false} EvictRefs(s: State, cost: int, l: Limits)
    ensures Evict(s, cost, l).refs == s.refs
    decreases |s.lru|
  {
    if !(cost <= l.maxCost - s.used || s.lru == []) {
      WithoutShorter(s.lru, s.lru[|s.lru| - 1]);
      EvictRefs(Retire(s, s.lru[|s.lru| - 1]), cost, l);
    }
  }

  lemma StepAdmits(s: State, l: Limits, step: Step)
    requires Enabled(s, l, step)
    ensures Admits(s, Apply(s, l, step), step)
  {
    match step
    case AdmitStep(e) => AdmitRefs(s, e, l);
    case OpenStep(key, size) => OpenRefs(s, key, size);
    case ReleaseStep(e) => ReleaseRefs(s, e);
    case _ =>
  }

  lemma OpenRefs(s: State, key: Key, size: int)
    requires key in s.entries ==> s.entries[key] in s.refs
    ensures Open(s, key, size).refs.Keys == s.refs.Keys
  {
  }

  lemma ReleaseRefs(s: State, e: DiskEntry)
    requires e in s.refs
    ensures Release(s, e).refs.Keys == s.refs.Keys
  {
  }

  lemma AdmitRefs(s: State, e: DiskEntry, l: Limits)
    ensures Admit(s, e, l).refs.Keys == s.refs.Keys || Admit(s, e, l).refs.Keys == s.refs.Keys + {e}
  {
    var retired := if e.key in s.entries then Retire(s, s.entries[e.key]) else s;
    EvictRefs(retired, e.cost, l);
    assert MakeRoom(s, e, l).refs == s.refs;
  }

  lemma {:induction false} RunPathsDistinct(states: seq<State>, steps: seq<Step>, l: Limits, i: nat)
    requires IsRun(states, steps, l) && i < |states|
    ensures PathsDistinct(states[i].refs.Keys)
  {
    if i > 0 {
      RunPathsDistinct(states, steps, l, i - 1);
      assert StepAt(states, steps, l, i - 1);
      StepAdmits(states[i - 1], l, steps[i - 1]);
    }
  }

  /** A file that was handed to removal has no open reader then or at any later time, whatever entry
      it belonged to, and is not handed over again. */
  lemma NoReaderAfterRemoval(states: seq<State>, steps: seq<Step>, l: Limits, i: nat, j: nat, e: DiskEntry)
    requires IsRun(states, steps, l) && i <= j < |states| && states[i].handed[e] > 0
    ensures forall f: DiskEntry :: f.path == e.path ==> states[j].open[f] == 0
    ensures forall f: DiskEntry :: f.path == e.path ==> states[j].handed[f] == if f == e then 1 else 0
  {
    RunSound(states, steps, l, i);
    RunSound(states, steps, l, j);
    RunOnward(states, steps, l, i, j);
    RunPathsDistinct(states, steps, l, j);
    forall f: DiskEntry | f.path == e.path
      ensures states[j].open[f] == 0 && states[j].handed[f] == if f == e then 1 else 0
    {
      if f in states[j].refs { assert f == e; }
    }
  }

  /** A retired entry is handed to removal in the very step in which its last reader is closed, or
      in which it is retired if it has none: at any time it has been, exactly if no reader is left. */
  lemma RetiredIsHandedOnce(states: seq<State>, steps: seq<Step>, l: Limits, i: nat, e: DiskEntry)
    requires IsRun(states, steps, l) && i < |states|
    ensures e in states[i].retired ==> states[i].handed[e] == (if states[i].open[e] == 0 then 1 else 0)
    ensures e !in states[i].retired ==> states[i].handed[e] == 0
  {
    RunSound(states, steps, l, i);
  }

  /** The sum of the reference counts of a set of entries. */
  ghost function TotalRefs(refs: map<DiskEntry, int>, es: set<DiskEntry>): int
    requires es <= refs.Keys
    decreases |es|
  {
    if es == {} then 0
    else
      var e :| e in es;
      refs[e] + TotalRefs(refs, es - {e})
  }

  lemma {:induction false} TotalRefsIsOpen(refs: map<DiskEntry, int>, es: set<DiskEntry>, open: multiset<DiskEntry>)
    requires es <= refs.Keys && (forall e :: e in es ==> refs[e] == open[e]) && (forall e :: e in open ==> e in es)
    ensures TotalRefs(refs, es) == |open|
    decreases |es|
  {
    if es == {} {
      assert open == multiset{};
    } else {
      var e :| e in es && TotalRefs(refs, es) == refs[e] + TotalRefs(refs, es - {e});
      var rest := open[e := 0];
      assert |open| == |rest| + open[e] by { assert open == rest + multiset{}[e := open[e]]; }
      TotalRefsIsOpen(refs, es - {e}, rest);
    }
  }

  /** The outstanding-reader count that close waits for is the sum of the reference counts and the
      readers that are on their way out. */
  lemma ReadersAreRefs(states: seq<State>, steps: seq<Step>, l: Limits, i: nat)
    requires IsRun(states, steps, l) && i < |states|
    ensures states[i].readers == TotalRefs(states[i].refs, states[i].refs.Keys) + states[i].leaving
    ensures TotalRefs(states[i].refs, states[i].refs.Keys) == |states[i].open|
  {
    RunSound(states, steps, l, i);
    TotalRefsIsOpen(states[i].refs, states[i].refs.Keys, states[i].open);
  }

  // ---------------------------------------------------------------------------
  // Least recently used
  // ---------------------------------------------------------------------------

  /** `kept` is the longest front part of `es` that leaves room for `cost`. */
  ghost predicate KeepsMost(es: seq<DiskEntry>, kept: seq<DiskEntry>, cost: int, l: Limits) {
    && kept <= es && TotalCost(kept) <= l.maxCost - cost
    && (|kept| < |es| ==> TotalCost(es[..|kept| + 1]) > l.maxCost - cost)
  }

  lemma {:induction false} WithoutLast(es: seq<DiskEntry>)
    requires DistinctKeys(es) && es != []
    ensures Without(es, es[|es| - 1]) == es[..|es| - 1]
  {
    var last := es[|es| - 1];
    if |es| > 1 {
      ByKeyFinds(es[1..], last);
      ByKeyFinds(es[1..], es[0]);
      assert es[1..][|es| - 2] == last;
      WithoutLast(es[1..]);
      assert [es[0]] + es[1..][..|es| - 2] == es[..|es| - 1];
    }
  }

  lemma {:induction false} EvictKeepsMost(s: State, cost: int, l: Limits)
    requires Sound(s, l) && 0 < cost <= l.maxCost
    ensures KeepsMost(s.lru, Evict(s, cost, l).lru, cost, l)
    decreases |s.lru|
  {
    var n := |s.lru|;
    if cost <= l.maxCost - s.used || n == 0 {
      assert s.lru[..n] == s.lru;
    } else {
      var oldest := s.lru[n - 1];
      var t := Retire(s, oldest);
      ByKeyFinds(s.lru, oldest);
      RetireSound(s, l, oldest);
      WithoutLast(s.lru);
      EvictKeepsMost(t, cost, l);
      KeepsMostOfLonger(s.lru, Evict(t, cost, l).lru, cost, l);
    }
  }

  lemma KeepsMostOfLonger(es: seq<DiskEntry>, kept: seq<DiskEntry>, cost: int, l: Limits)
    requires es != [] && KeepsMost(es[..|es| - 1], kept, cost, l) && TotalCost(es) > l.maxCost - cost
    ensures KeepsMost(es, kept, cost, l)
  {
    if |kept| == |es| - 1 {
      assert es[..|es|] == es;
    } else {
      assert es[..|es| - 1][..|kept| + 1] == es[..|kept| + 1];
    }
  }

  /** Admitting an entry makes it the most recent, drops the entry it replaces, and evicts the
      least recent others, no more of them than needed. */
  lemma AdmitKeepsMost(s: State, e: DiskEntry, l: Limits)
    requires Sound(s, l) && e !in s.refs && !s.closing && Fits(e, l)
    ensures var u := Admit(s, e, l);
      && u.lru != [] && u.lru[0] == e
      && KeepsMost(if e.key in s.entries then Without(s.lru, s.entries[e.key]) else s.lru, u.lru[1..], e.cost, l)
  {
    var s' := if e.key in s.entries then Retire(s, s.entries[e.key]) else s;
    if e.key in s.entries {
      ByKeyKeyed(s.lru, e.key);
      RetireSound(s, l, s.entries[e.key]);
    }
    EvictKeepsMost(s', e.cost, l);
    assert ([e] + Evict(s', e.cost, l).lru)[1..] == Evict(s', e.cost, l).lru;
  }
}
