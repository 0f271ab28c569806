/** The invariant of the block lifetime protocol and the two arguments every transaction uses:
    references are gained only by live files, and whatever loses its last reference is marked. */
module BlockInvariant {
  import opened BlockTables

  ghost predicate PartsSound(t: Tables) {
    && t.states.Keys <= t.parts
    && forall k :: k in t.parts ==>
      k.file in t.files && t.files[k.file].layout.Physical? && k.index < t.files[k.file].partCount
  }

  /** A ready physical file has every part it declares. */
  ghost predicate ReadyComplete(t: Tables) {
    forall f, i: nat :: f in t.files && t.files[f].ready && t.files[f].layout.Physical? && i < t.files[f].partCount ==>
      PartKey(f, i) in t.parts
  }

  ghost predicate MappedReady(t: Tables) {
    forall e :: e in t.mappings ==> t.mappings[e] in t.files && t.files[t.mappings[e]].ready
  }

  ghost predicate SegmentsSound(t: Tables) {
    && SourcesPhysical(t)
    && (forall c, i :: c in t.segments && 0 <= i < |t.segments[c]| ==> t.files[t.segments[c][i].source].ready)
    && forall c :: c in t.segments ==> c in t.files && t.files[c].layout.Composite? && t.files[c].ready
  }

  ghost predicate UploadsSound(t: Tables) {
    && (forall k :: k in t.uploadParts ==> IsFile(t, t.uploadParts[k].file) && t.files[t.uploadParts[k].file].ready)
    && (forall k :: k in t.uploadParts && t.uploadParts[k].state.PartActive? ==> 0 < k.number <= 10_000)
  }

  ghost predicate IsFile(t: Tables, f: FileId) {
    f in t.files && t.files[f].layout.Physical?
  }

  /** A job that pins a composite pins its sources too. */
  ghost predicate PinsSound(t: Tables) {
    && (forall p :: p in t.pins ==> p.file in t.files && t.files[p.file].ready)
    && (forall p, g :: p in t.pins && SourceOf(t, p.file, g) ==> Pin(p.job, g) in t.pins)
  }

  ghost predicate Sound(t: Tables) {
    PartsSound(t) && ReadyComplete(t) && MappedReady(t) && SegmentsSound(t) && UploadsSound(t) && PinsSound(t)
  }

  /** A file something refers to has only live delete states. */
  ghost predicate Safe(t: Tables) {
    forall k :: k in t.states && HasLiveReference(t, k.file) ==> t.states[k].state.Live?
  }

  ghost predicate Inv(t: Tables) {
    Sound(t) && Safe(t)
  }

  /** No file loses its last reference and stays live. */
  ghost predicate NoLeak(t: Tables, u: Tables) {
    forall k :: k in u.states && HasLiveReference(t, k.file) && !HasLiveReference(u, k.file) ==>
      !u.states[k].state.Live?
  }

  /** What may become of one delete state over any number of steps. */
  predicate Evolves(a: DeleteState, b: DeleteState) {
    match a
    case Live => true
    case Pending | Deleting => !b.Live?
    case _ => b == a
  }

  ghost predicate Monotone(t: Tables, u: Tables) {
    forall k :: k in t.states ==> k in u.states && Evolves(t.states[k].state, u.states[k].state)
  }

  /** What every committed transaction other than the release of export pins guarantees. */
  ghost predicate GoodStep(t: Tables, u: Tables) {
    Inv(u) && NoLeak(t, u) && Monotone(t, u)
  }

  // ---------------------------------------------------------------------------
  // Gaining references
  // ---------------------------------------------------------------------------

  /** Whatever gained a reference between `t` and `r` is live. */
  ghost predicate GainsLive(t: Tables, r: Tables) {
    forall f :: HasLiveReference(r, f) && !HasLiveReference(t, f) ==> AllLive(r, f)
  }

  lemma GainKeepsSafe(t: Tables, r: Tables)
    requires Safe(t) && r.states == t.states && GainsLive(t, r)
    ensures Safe(r)
  {
  }

  // ---------------------------------------------------------------------------
  // Losing references
  // ---------------------------------------------------------------------------

  /** `g` is one of `ids` or a source of one of them. */
  ghost predicate InTrees(t: Tables, ids: seq<FileId>, g: FileId) {
    exists i :: 0 <= i < |ids| && (ids[i] == g || SourceOf(t, ids[i], g))
  }

  /** Every physical file that lost its last reference lies in the trees of `ids`. */
  ghost predicate LossesListed(t: Tables, r: Tables, ids: seq<FileId>) {
    forall g :: IsFile(r, g) && HasLiveReference(t, g) && !HasLiveReference(r, g) ==> InTrees(r, ids, g)
  }

  /** A composite that is referenced keeps its sources referenced. */
  lemma ReferencedCompositeProtects(t: Tables, c: FileId, g: FileId)
    requires Sound(t) && IsComposite(t, c) && HasLiveReference(t, c) && SourceOf(t, c, g)
    ensures HasLiveReference(t, g)
  {
    if Pinned(t, c) {
      var p :| p in t.pins && p.file == c;
      assert Pin(p.job, g) in t.pins;
    } else if Mapped(t, c) {
      assert InMappedComposite(t, g);
    }
  }

  lemma ListedAreCondemned(r: Tables, ids: seq<FileId>, g: FileId)
    requires Sound(r) && IsFile(r, g) && !HasLiveReference(r, g) && InTrees(r, ids, g)
    requires forall i :: 0 <= i < |ids| ==> HasLiveReference(r, ids[i]) || ids[i] in r.files
    ensures g in CondemnedByAny(r, ids)
  {
    var i :| 0 <= i < |ids| && (ids[i] == g || SourceOf(r, ids[i], g));
    if ids[i] != g {
      assert ids[i] in r.segments;
      if HasLiveReference(r, ids[i]) {
        ReferencedCompositeProtects(r, ids[i], g);
        assert false;
      }
    }
    assert Condemned(r, ids[i], g);
  }

  // ---------------------------------------------------------------------------
  // Marking after a reference change
  // ---------------------------------------------------------------------------

  lemma SoundIgnoresStates(t: Tables, u: Tables)
    requires Sound(t) && SameButStates(t, u) && u.states.Keys == t.states.Keys
    ensures Sound(u)
  {
    assert forall c, g :: SourceOf(u, c, g) == SourceOf(t, c, g);
  }

  /** A transaction that changes references and makes pending what `ids` condemn. */
  lemma SettleExact(t: Tables, r: Tables, ids: seq<FileId>, now: int)
    requires Inv(t) && Sound(r) && r.states == t.states
    requires GainsLive(t, r) && LossesListed(t, r, ids)
    requires forall i :: 0 <= i < |ids| ==> HasLiveReference(r, ids[i]) || ids[i] in r.files
    ensures GoodStep(t, r.(states := Pend(r.states, CondemnedByAny(r, ids), now)))
  {
    var u := r.(states := Pend(r.states, CondemnedByAny(r, ids), now));
    GainKeepsSafe(t, r);
    SoundIgnoresStates(r, u);
    SameReferences(r, u);
    forall k | k in u.states && HasLiveReference(t, k.file) && !HasLiveReference(u, k.file)
      ensures !u.states[k].state.Live?
    {
      ListedAreCondemned(r, ids, k.file);
    }
  }

  /** A transaction that changes references and then marks `ids`. */
  lemma Settle(t: Tables, r: Tables, ids: seq<FileId>, now: int)
    requires Inv(t) && Sound(r) && r.states == t.states
    requires GainsLive(t, r) && LossesListed(t, r, ids)
    requires MarkEach(r, ids, now).Ok?
    ensures GoodStep(t, MarkEach(r, ids, now).value)
  {
    MarkEachPends(r, ids, now);
    MarkEachSucceeds(r, ids, now);
    SettleExact(t, r, ids, now);
  }

  lemma MarkTreeIsMarkEach(t: Tables, f: FileId, now: int)
    requires SourcesPhysical(t)
    ensures MarkTree(t, f, now) == MarkEach(t, [f], now)
  {
    var r := MarkTree(t, f, now);
    if r.Ok? {
      assert [f][1..] == [];
      assert MarkEach(r.value, [], now) == Ok(r.value);
    }
  }
}
