/** A run from the empty tables in which a release of export pins leaves a part behind: a file is
    stored and linked, an export pins it, its path is removed, and the export ends. */
module BlockLeaks {
  import opened BlockTables
  import opened BlockSteps
  import opened BlockInvariant
  import opened BlockRuns

  const Key := PartKey(1, 0)
  const Row := LiveRow("telegram", 100)

  const Draft := Empty.(files := map[1 := FileRow(Physical, false, 5, 1)])

  /** The tables of the run once the part is recorded. */
  function Stored(ready: bool, mappings: map<EntryId, FileId>, pins: set<Pin>): Tables {
    Tables(map[1 := FileRow(Physical, ready, 5, 1)], {Key}, map[Key := Row], mappings, map[], map[], map[], pins)
  }

  /** `t` is the last state of a run from the empty tables. */
  ghost predicate Reached(states: seq<Tables>, steps: seq<Step>, t: Tables) {
    IsRun(states, steps) && states[0] == Empty && states[|steps|] == t
  }

  lemma ReachNext(states: seq<Tables>, steps: seq<Step>, t: Tables, step: Step, u: Tables)
    requires Reached(states, steps, t) && SourcesPhysical(t) && Apply(t, step) == Ok(u)
    ensures Reached(states + [u], steps + [step], u)
  {
    var more, taken := states + [u], steps + [step];
    forall i | 0 <= i < |taken| ensures StepAt(more, taken, i) {
      if i < |steps| { assert StepAt(states, steps, i); }
    }
  }

  lemma StorePart()
    ensures CreatePart(Draft, Key, Row) == Ok(Stored(false, map[], {}))
  {
    assert Draft.parts + {Key} == {Key};
    assert Draft.states[Key := Row] == map[Key := Row];
  }

  lemma FinishFile()
    ensures FinishCreate(Stored(false, map[], {}), 1) == Ok(Stored(true, map[], {}))
  {
    var files := Stored(false, map[], {}).files;
    assert files[1 := files[1].(ready := true)] == map[1 := FileRow(Physical, true, 5, 1)];
  }

  lemma LinkFile()
    ensures Link(Stored(true, map[], {}), 1, 1) == Ok(Stored(true, map[1 := 1], {}))
  {
  }

  lemma PinFile()
    ensures CreateSnapshot(Stored(true, map[1 := 1], {}), 7, {1}) == Ok(Stored(true, map[1 := 1], {Pin(7, 1)}))
  {
    var t := Stored(true, map[1 := 1], {});
    assert Exportable(t, 1);
    var fs := SnapshotFiles(t, {1});
    assert fs == {1} by { assert 1 in {1} && t.mappings[1] == 1; }
    assert (set f | f in fs :: Pin(7, f)) == {Pin(7, 1)};
    assert t.pins + {Pin(7, 1)} == {Pin(7, 1)};
  }

  lemma RemovePath()
    ensures RemoveEntries(Stored(true, map[1 := 1], {Pin(7, 1)}), [1], 200) == Ok(Stored(true, map[], {Pin(7, 1)}))
  {
    var t, r := Stored(true, map[1 := 1], {Pin(7, 1)}), Stored(true, map[], {Pin(7, 1)});
    assert WithoutEntries(t.mappings, [1]) == map[];
    var ids := FileIdsOf(t, [1]);
    assert Pinned(r, 1) by { assert Pin(7, 1) in r.pins; }
    forall f | f in ids ensures f == 1 {
      var e :| e in [1] && e in t.mappings && t.mappings[e] == f;
    }
    MarksNothing(r, ids, 200);
  }

  lemma {:induction false} MarksNothing(t: Tables, ids: seq<FileId>, now: int)
    requires SourcesPhysical(t) && forall i :: 0 <= i < |ids| ==> HasLiveReference(t, ids[i])
    ensures MarkEach(t, ids, now) == Ok(t)
    decreases |ids|
  {
    if ids != [] { MarksNothing(t, ids[1..], now); }
  }

  lemma ReleasePins()
    ensures ReleaseSnapshot(Stored(true, map[], {Pin(7, 1)}), 7) == Stored(true, map[], {})
  {
    assert (set p | p in {Pin(7, 1)} && p.job != 7) == {};
  }

  /** The part is live in the end though nothing refers to its file, which an export had pinned. */
  lemma ReleaseCanLeak() returns (states: seq<Tables>, steps: seq<Step>)
    ensures IsRun(states, steps) && states[0] == Empty && |steps| > 0 && steps[|steps| - 1] == StepRelease(7)
    ensures HasLiveReference(states[|steps| - 1], Key.file) && !HasLiveReference(states[|steps|], Key.file)
    ensures Key in states[|steps|].states && states[|steps|].states[Key].state.Live?
  {
    var pinned := Stored(true, map[], {Pin(7, 1)});
    states, steps := PinnedRun();
    ReleasePins();
    ReachNext(states, steps, pinned, StepRelease(7), Stored(true, map[], {}));
    assert Pinned(pinned, 1) by { assert Pin(7, 1) in pinned.pins; }
    states, steps := states + [Stored(true, map[], {})], steps + [StepRelease(7)];
  }

  lemma StoredRun() returns (states: seq<Tables>, steps: seq<Step>)
    ensures Reached(states, steps, Stored(true, map[], {}))
  {
    EmptyInv();
    states, steps := [Empty], [];
    assert Reached(states, steps, Empty);
    ReachNext(states, steps, Empty, StepCreateDraft(1, Physical, 5, 1), Draft);
    states, steps := states + [Draft], steps + [StepCreateDraft(1, Physical, 5, 1)];
    StorePart();
    var t := Stored(false, map[], {});
    ReachNext(states, steps, Draft, StepCreatePart(Key, "telegram", 100), t);
    states, steps := states + [t], steps + [StepCreatePart(Key, "telegram", 100)];
    FinishFile();
    var u := Stored(true, map[], {});
    ReachNext(states, steps, t, StepFinishCreate(1), u);
    states, steps := states + [u], steps + [StepFinishCreate(1)];
  }

  lemma LinkedRun() returns (states: seq<Tables>, steps: seq<Step>)
    ensures Reached(states, steps, Stored(true, map[1 := 1], {}))
  {
    states, steps := StoredRun();
    LinkFile();
    var t := Stored(true, map[1 := 1], {});
    ReachNext(states, steps, Stored(true, map[], {}), StepLink(1, 1), t);
    states, steps := states + [t], steps + [StepLink(1, 1)];
  }

  lemma PinnedRun() returns (states: seq<Tables>, steps: seq<Step>)
    ensures Reached(states, steps, Stored(true, map[], {Pin(7, 1)}))
  {
    states, steps := LinkedRun();
    PinFile();
    var t, u := Stored(true, map[1 := 1], {}), Stored(true, map[1 := 1], {Pin(7, 1)});
    ReachNext(states, steps, t, StepSnapshot(7, {1}), u);
    states, steps := states + [u], steps + [StepSnapshot(7, {1})];
    RemovePath();
    var v := Stored(true, map[], {Pin(7, 1)});
    ReachNext(states, steps, u, StepRemove([1], 200), v);
    states, steps := states + [v], steps + [StepRemove([1], 200)];
  }
}
