/** Recovering the disk cache from the files found in its directory
    (filemgr/file_io_cache_disk.go).  The walk comes as the sequence of the valid files in the order
    visited; several may carry the same key. */
module DiskCacheRecovery {
  import opened DiskCache
  import opened DiskCacheRuns
  import opened DiskCacheOrder
  import opened DiskCacheStore

  datatype Persisted = Persisted(entry: DiskEntry, modTime: int)

  type Winners = map<Key, Persisted>

  // ---------------------------------------------------------------------------
  // One winner per key
  // ---------------------------------------------------------------------------

  /** updateRecoveryWinner along the walk. */
  ghost function WinnersOf(walk: seq<Persisted>): Winners {
    if walk == [] then map[]
    else
      var n := |walk| - 1;
      Update(WinnersOf(walk[..n]), walk[n])
  }

  ghost function Update(winners: Winners, file: Persisted): Winners {
    if file.entry.key in winners && file.entry.generation <= winners[file.entry.key].entry.generation then winners
    else winners[file.entry.key := file]
  }

  /** `file` has the greatest generation found for its key. */
  ghost predicate Top(walk: seq<Persisted>, file: Persisted) {
    file in walk && forall g :: g in walk && g.entry.key == file.entry.key ==>
      g.entry.generation <= file.entry.generation
  }

  /** Each key found has a winner, which is of the greatest generation; the first such file found
      wins. */
  lemma {:induction false} WinnersAreTop(walk: seq<Persisted>, k: Key)
    ensures k in WinnersOf(walk) <==> exists f :: f in walk && f.entry.key == k
    ensures k in WinnersOf(walk) ==> WinnersOf(walk)[k].entry.key == k && Top(walk, WinnersOf(walk)[k])
  {
    if walk != [] {
      var n := |walk| - 1;
      WinnersAreTop(walk[..n], k);
      assert walk == walk[..n] + [walk[n]];
    }
  }

  /** A file of the greatest generation that comes first keeps its place. */
  lemma {:induction false} FirstTopWins(walk: seq<Persisted>, n: nat)
    requires 0 < n <= |walk| && Top(walk, walk[0])
    ensures var k := walk[0].entry.key; k in WinnersOf(walk[..n]) && WinnersOf(walk[..n])[k] == walk[0]
  {
    assert walk[..n][..n - 1] == walk[..n - 1] && walk[..n][n - 1] == walk[n - 1];
    if n > 1 {
      FirstTopWins(walk, n - 1);
      assert walk[n - 1] in walk;
    }
  }

  /** No key has two different files of its greatest generation. */
  ghost predicate UniqueTops(walk: seq<Persisted>) {
    forall f, g :: Top(walk, f) && Top(walk, g) && f.entry.key == g.entry.key ==> f == g
  }

  ghost predicate OrderIrrelevant(walk: seq<Persisted>) {
    forall other: seq<Persisted> :: multiset(other) == multiset(walk) ==> WinnersOf(other) == WinnersOf(walk)
  }

  lemma SameFiles(a: seq<Persisted>, b: seq<Persisted>)
    requires multiset(a) == multiset(b)
    ensures forall f :: f in a <==> f in b
  {
    forall f ensures f in a <==> f in b {
      assert f in a <==> f in multiset(a);
      assert f in b <==> f in multiset(b);
    }
  }

  lemma UniqueTopsSuffice(walk: seq<Persisted>)
    requires UniqueTops(walk)
    ensures OrderIrrelevant(walk)
  {
    forall other: seq<Persisted> | multiset(other) == multiset(walk) ensures WinnersOf(other) == WinnersOf(walk) {
      SameFiles(other, walk);
      var a, b := WinnersOf(other), WinnersOf(walk);
      forall k ensures (k in a <==> k in b) && (k in a ==> a[k] == b[k]) {
        WinnersAreTop(other, k);
        WinnersAreTop(walk, k);
      }
    }
  }

  /** The walk with one of its files moved to the front. */
  lemma MoveFirst(walk: seq<Persisted>, f: Persisted) returns (other: seq<Persisted>)
    requires f in walk
    ensures multiset(other) == multiset(walk) && other != [] && other[0] == f
  {
    var i :| 0 <= i < |walk| && walk[i] == f;
    other := [f] + walk[..i] + walk[i + 1..];
    assert walk == walk[..i] + [f] + walk[i + 1..];
  }

  lemma OrderMatters(walk: seq<Persisted>, f: Persisted, g: Persisted)
    requires Top(walk, f) && Top(walk, g) && f.entry.key == g.entry.key && f != g
    ensures !OrderIrrelevant(walk)
  {
    var first := MoveFirst(walk, f);
    var second := MoveFirst(walk, g);
    SameFiles(first, walk);
    SameFiles(second, walk);
    FirstTopWins(first, |first|);
    FirstTopWins(second, |second|);
    assert first[..|first|] == first && second[..|second|] == second;
    assert WinnersOf(first)[f.entry.key] != WinnersOf(second)[f.entry.key];
  }

  /** The winners do not depend on the order of the walk exactly when no key has two files of its
      greatest generation. */
  lemma WinnersIndependentOfOrder(walk: seq<Persisted>)
    ensures OrderIrrelevant(walk) <==> UniqueTops(walk)
  {
    if UniqueTops(walk) {
      UniqueTopsSuffice(walk);
    } else {
      var f, g :| Top(walk, f) && Top(walk, g) && f.entry.key == g.entry.key && f != g;
      OrderMatters(walk, f, g);
    }
  }

  // ---------------------------------------------------------------------------
  // The walk
  // ---------------------------------------------------------------------------

  /** Every file is a winner or removed, once. */
  ghost predicate Sifted(walk: seq<Persisted>, winners: Winners, removed: seq<Persisted>) {
    && (forall k :: k in winners ==> winners[k].entry.key == k && winners[k] in walk && winners[k] !in removed)
    && (forall f :: f in removed ==> f in walk)
    && (forall f :: f in walk ==> f in removed || (f.entry.key in winners && winners[f.entry.key] == f))
  }

  predicate DistinctFiles(walk: seq<Persisted>) {
    forall i, j :: 0 <= i < j < |walk| ==> walk[i].entry.path != walk[j].entry.path
  }

  /** The walk of recoverEntries: one winner per key, the other files removed. */
  method ChooseWinners(walk: seq<Persisted>) returns (winners: Winners, removed: seq<Persisted>)
    requires DistinctFiles(walk)
    ensures winners == WinnersOf(walk) && Sifted(walk, winners, removed)
  {
    winners, removed := map[], [];
    for i := 0 to |walk|
      invariant winners == WinnersOf(walk[..i]) && removed == LosersOf(walk[..i])
    {
      var file := walk[i];
      assert walk[..i + 1][..i] == walk[..i];
      if file.entry.key !in winners {
        winners := winners[file.entry.key := file];
      } else if file.entry.generation <= winners[file.entry.key].entry.generation {
        removed := removed + [file];
      } else {
        removed := removed + [winners[file.entry.key]];
        winners := winners[file.entry.key := file];
      }
    }
    assert walk[..|walk|] == walk;
    AllSifted(walk);
  }

  ghost function LosersOf(walk: seq<Persisted>): seq<Persisted> {
    if walk == [] then []
    else
      var n := |walk| - 1;
      LosersOf(walk[..n]) + Loser(WinnersOf(walk[..n]), walk[n])
  }

  lemma {:induction false} AllSifted(walk: seq<Persisted>)
    requires DistinctFiles(walk)
    ensures Sifted(walk, WinnersOf(walk), LosersOf(walk))
  {
    if walk != [] {
      var n := |walk| - 1;
      AllSifted(walk[..n]);
      assert walk == walk[..n] + [walk[n]];
      SiftedNext(walk[..n], WinnersOf(walk[..n]), LosersOf(walk[..n]), walk[n]);
    }
  }

  /** The file removed when `file` is found. */
  ghost function Loser(winners: Winners, file: Persisted): seq<Persisted> {
    if file.entry.key !in winners then []
    else if file.entry.generation <= winners[file.entry.key].entry.generation then [file]
    else [winners[file.entry.key]]
  }

  lemma SiftedNext(walk: seq<Persisted>, winners: Winners, removed: seq<Persisted>, file: Persisted)
    requires Sifted(walk, winners, removed) && file !in walk
    ensures Sifted(walk + [file], Update(winners, file), removed + Loser(winners, file))
  {
  }

  /** Two files of one key and one generation: whichever is found first wins. The order is a free
      choice here. The walk of the program goes by name, so on one tree it picks the same winner each
      time; which one that is, the names decide and not the order of the writes. */
  lemma OrderCanMatter()
    ensures exists walk :: DistinctFiles(walk) && !OrderIrrelevant(walk)
  {
    var f := Persisted(DiskEntry(0, 0, "a", 1, ALLOCATION_UNIT), 0);
    var g := Persisted(DiskEntry(0, 0, "b", 2, ALLOCATION_UNIT), 0);
    var walk := [f, g];
    assert Top(walk, f) && Top(walk, g);
    OrderMatters(walk, f, g);
    assert DistinctFiles(walk);
  }

  // ---------------------------------------------------------------------------
  // Admission in order of age
  // ---------------------------------------------------------------------------

  predicate Older(f: Persisted, g: Persisted) {
    if f.modTime == g.modTime then f.entry.generation <= g.entry.generation else f.modTime < g.modTime
  }

  /** `ordered` lists the winners of the keys `ks`, each once, oldest first. */
  ghost predicate OrderedWinners(winners: Winners, ks: set<Key>, ordered: seq<Persisted>) {
    && ks <= winners.Keys
    && (forall i, j :: 0 <= i < j < |ordered| ==>
         Older(ordered[i], ordered[j]) && ordered[i].entry.key != ordered[j].entry.key)
    && (forall i :: 0 <= i < |ordered| ==> ordered[i].entry.key in ks && winners[ordered[i].entry.key] == ordered[i])
    && (forall k :: k in ks ==> winners[k] in ordered)
  }

  /** The sort of recoverEntries. */
  method OrderByAge(winners: Winners) returns (ordered: seq<Persisted>)
    requires forall k :: k in winners ==> winners[k].entry.key == k
    ensures OrderedWinners(winners, winners.Keys, ordered)
  {
    ordered := [];
    var rest := winners.Keys;
    while rest != {}
      invariant rest <= winners.Keys && OrderedWinners(winners, winners.Keys - rest, ordered)
      invariant forall i, k :: 0 <= i < |ordered| && k in rest ==> Older(ordered[i], winners[k])
      decreases rest
    {
      OldestExists(winners, rest);
      var oldest :| oldest in rest && forall k :: k in rest ==> Older(winners[oldest], winners[k]);
      OrderedNext(winners, rest, ordered, oldest);
      ordered := ordered + [winners[oldest]];
      rest := rest - {oldest};
    }
    assert winners.Keys - rest == winners.Keys;
  }

  lemma {:induction false} OldestExists(winners: Winners, rest: set<Key>)
    requires rest != {} && rest <= winners.Keys
    ensures exists oldest :: oldest in rest && forall k :: k in rest ==> Older(winners[oldest], winners[k])
  {
    var one :| one in rest;
    if rest == {one} {
      assert forall k :: k in rest ==> Older(winners[one], winners[k]);
    } else {
      OldestExists(winners, rest - {one});
      var o :| o in rest - {one} && forall k :: k in rest - {one} ==> Older(winners[o], winners[k]);
      var oldest := if Older(winners[o], winners[one]) then o else one;
      assert forall k :: k in rest ==> Older(winners[oldest], winners[k]);
    }
  }

  lemma OrderedNext(winners: Winners, rest: set<Key>, ordered: seq<Persisted>, oldest: Key)
    requires rest <= winners.Keys && OrderedWinners(winners, winners.Keys - rest, ordered) && oldest in rest
    requires winners[oldest].entry.key == oldest
    requires forall i, k :: 0 <= i < |ordered| && k in rest ==> Older(ordered[i], winners[k])
    ensures OrderedWinners(winners, winners.Keys - (rest - {oldest}), ordered + [winners[oldest]])
  {
    var more := ordered + [winners[oldest]];
    assert more[|ordered|] == winners[oldest];
    forall k | k in winners.Keys - (rest - {oldest}) ensures winners[k] in more {
      if k != oldest { assert winners[k] in ordered; }
    }
  }

  /** What admission leaves as it was. */
  lemma AdmitFrame(s: State, e: DiskEntry, l: Limits)
    requires Sound(s, l) && e !in s.refs && e.cost == EntryCost(e.size, l.maxCost) && !s.closing
    ensures var u := Admit(s, e, l);
      && Sound(u, l) && u.open == s.open && !u.closing && u.drained == s.drained
      && u.refs == (if Fits(e, l) then s.refs[e := 0] else s.refs)
  {
    AdmitSound(s, e, l);
    if Fits(e, l) { MakeRoomSound(s, e, l); }
  }

  /** The file of each entry is in the index, or was handed to removal. */
  ghost predicate Settled(s: State, e: DiskEntry) {
    if e in Members(s.lru) then s.handed[e] == 0 else s.handed[e] == 1
  }

  lemma AllSettled(s: State, l: Limits)
    requires Sound(s, l) && s.open == multiset{} && !s.drained
    ensures forall e :: e in s.refs ==> Settled(s, e)
    ensures forall e :: e in Members(s.lru) ==> e in s.refs
  {
  }

  /** The entries of `ordered` within the limits, and the files beyond them. */
  ghost function Fitting(ordered: seq<Persisted>, l: Limits): set<DiskEntry> {
    if ordered == [] then {}
    else
      var n := |ordered| - 1;
      if Fits(ordered[n].entry, l) then Fitting(ordered[..n], l) + {ordered[n].entry} else Fitting(ordered[..n], l)
  }

  ghost function Misfits(ordered: seq<Persisted>, l: Limits): seq<Persisted> {
    if ordered == [] then []
    else
      var n := |ordered| - 1;
      if Fits(ordered[n].entry, l) then Misfits(ordered[..n], l) else Misfits(ordered[..n], l) + [ordered[n]]
  }

  lemma {:induction false} FittingMeans(ordered: seq<Persisted>, l: Limits)
    ensures forall e :: e in Fitting(ordered, l) ==>
      Fits(e, l) && exists i :: 0 <= i < |ordered| && ordered[i].entry == e
    ensures forall f :: f in Misfits(ordered, l) <==> f in ordered && !Fits(f.entry, l)
    ensures forall f :: f in ordered && Fits(f.entry, l) ==> f.entry in Fitting(ordered, l)
  {
    if ordered != [] {
      var n := |ordered| - 1;
      FittingMeans(ordered[..n], l);
      assert ordered == ordered[..n] + [ordered[n]];
      forall e | e in Fitting(ordered[..n], l) ensures exists i :: 0 <= i < |ordered| && ordered[i].entry == e {
        var i :| 0 <= i < n && ordered[..n][i].entry == e;
        assert ordered[i].entry == e;
      }
    }
  }

  lemma {:induction false} NotYetFitting(ordered: seq<Persisted>, i: nat, l: Limits)
    requires i < |ordered| && forall j, k :: 0 <= j < k < |ordered| ==> ordered[j].entry.key != ordered[k].entry.key
    ensures ordered[i].entry !in Fitting(ordered[..i], l)
  {
    FittingMeans(ordered[..i], l);
  }

  /** The admissions of recoverEntries: what is not admitted is removed, and what is evicted for
      a newer file is handed to removal. */
  method AdmitAll(cache: Cache, ordered: seq<Persisted>) returns (removed: seq<Persisted>)
    requires cache.Now() == Empty && cache.limits.maxCost >= 0
    requires forall i :: 0 <= i < |ordered| ==>
      ordered[i].entry.cost == EntryCost(ordered[i].entry.size, cache.limits.maxCost)
    requires forall i, j :: 0 <= i < j < |ordered| ==> ordered[i].entry.key != ordered[j].entry.key
    modifies cache
    ensures Sound(cache.Now(), cache.limits) && cache.open == multiset{} && !cache.drained
    ensures cache.refs.Keys == Fitting(ordered, cache.limits) && removed == Misfits(ordered, cache.limits)
    ensures Ordered(cache.lru, AgeRank(ordered))
  {
    removed := [];
    EmptySound(cache.limits);
    assert ordered[..0] == [];
    for i := 0 to |ordered|
      invariant Admitted(cache, ordered, i) && removed == Misfits(ordered[..i], cache.limits)
    {
      assert ordered[..i + 1][..i] == ordered[..i];
      var admitted := AdmitNext(cache, ordered, i);
      if !admitted {
        removed := removed + [ordered[i]];
      }
    }
    assert ordered[..|ordered|] == ordered;
  }

  /** The first files were admitted, in the order of age. */
  ghost predicate Admitted(cache: Cache, ordered: seq<Persisted>, i: nat)
    requires i <= |ordered|
    reads cache
  {
    && Sound(cache.Now(), cache.limits) && cache.open == multiset{} && !cache.closing && !cache.drained
    && cache.refs.Keys == Fitting(ordered[..i], cache.limits)
    && Ordered(cache.lru, AgeRank(ordered)) && forall x :: x in cache.lru ==> AgePlace(ordered, x) < i
  }

  method AdmitNext(cache: Cache, ordered: seq<Persisted>, i: nat) returns (admitted: bool)
    requires i < |ordered| && Admitted(cache, ordered, i)
    requires ordered[i].entry.cost == EntryCost(ordered[i].entry.size, cache.limits.maxCost)
    requires forall i, j :: 0 <= i < j < |ordered| ==> ordered[i].entry.key != ordered[j].entry.key
    modifies cache
    ensures Admitted(cache, ordered, i + 1) && admitted == Fits(ordered[i].entry, cache.limits)
  {
    assert ordered[..i + 1][..i] == ordered[..i];
    NotYetFitting(ordered, i, cache.limits);
    AgePlaceIs(ordered, i);
    admitted := AdmitOne(cache, ordered[i].entry, AgeRank(ordered));
  }

  /** The place of an entry in the order of age. */
  ghost function AgePlace(ordered: seq<Persisted>, e: DiskEntry): int {
    if ordered == [] then -1
    else if ordered[|ordered| - 1].entry == e then |ordered| - 1
    else AgePlace(ordered[..|ordered| - 1], e)
  }

  ghost function AgeRank(ordered: seq<Persisted>): Rank {
    e => AgePlace(ordered, e)
  }

  lemma {:induction false} AgePlaceIs(ordered: seq<Persisted>, i: nat)
    requires i < |ordered| && forall j, k :: 0 <= j < k < |ordered| ==> ordered[j].entry.key != ordered[k].entry.key
    ensures AgePlace(ordered, ordered[i].entry) == i
  {
    if i < |ordered| - 1 { AgePlaceIs(ordered[..|ordered| - 1], i); }
  }

  method AdmitOne(cache: Cache, e: DiskEntry, ghost rank: Rank) returns (admitted: bool)
    requires Sound(cache.Now(), cache.limits) && cache.open == multiset{} && !cache.closing && !cache.drained
    requires e !in cache.refs && e.cost == EntryCost(e.size, cache.limits.maxCost)
    requires Ordered(cache.lru, rank) && forall x :: x in cache.lru ==> rank(x) < rank(e)
    modifies cache
    ensures Ordered(cache.lru, rank) && forall x :: x in cache.lru ==> x == e || x in old(cache.lru)
    ensures Sound(cache.Now(), cache.limits) && cache.open == multiset{} && !cache.closing && !cache.drained
    ensures admitted == Fits(e, cache.limits)
    ensures cache.refs == if admitted then old(cache.refs)[e := 0] else old(cache.refs)
  {
    AdmitFrame(cache.Now(), e, cache.limits);
    SoundIsReady(cache.Now(), cache.limits);
    AdmitOrdered(cache.Now(), e, cache.limits, rank);
    var cleanup;
    ghost var gone;
    admitted, cleanup, gone := cache.AdmitEntry(e);
  }

  lemma AdmitOrdered(s: State, e: DiskEntry, l: Limits, rank: Rank)
    requires Ordered(s.lru, rank) && forall x :: x in s.lru ==> rank(x) < rank(e)
    ensures Ordered(Admit(s, e, l).lru, rank) && forall x :: x in Admit(s, e, l).lru ==> x == e || x in s.lru
  {
    if !s.closing && Fits(e, l) {
      MakeRoomOrdered(s, e, l, rank);
      FirstOrdered(e, MakeRoom(s, e, l).lru, rank);
    }
  }

  lemma EmptySound(l: Limits)
    requires l.maxCost >= 0
    ensures Sound(Empty, l)
  {
  }

  /** recoverEntries: whatever files are found, the cache starts sound, and every file found is
      either in the index, under its key's greatest generation, or gone from the disk. */
  method Recover(cache: Cache, walk: seq<Persisted>) returns (removed: seq<Persisted>)
    requires cache.Now() == Empty && cache.limits.maxCost >= 0 && DistinctFiles(walk)
    requires forall f :: f in walk ==> f.entry.cost == EntryCost(f.entry.size, cache.limits.maxCost)
    modifies cache
    ensures Sound(cache.Now(), cache.limits) && PathsDistinct(cache.refs.Keys)
    ensures forall e :: e in Members(cache.lru) ==> exists f :: Top(walk, f) && f.entry == e
    ensures forall f :: f in walk ==> f.entry in Members(cache.lru) || f in removed || cache.handed[f.entry] == 1
    ensures forall f :: f in removed ==> f.entry !in Members(cache.lru) && cache.handed[f.entry] == 0
    // the list starts with the file that was written last, by its time and then by its generation
    ensures forall p, q, f, g ::
      0 <= p < q < |cache.lru| && f in walk && g in walk && f.entry == cache.lru[p] && g.entry == cache.lru[q] ==>
        g.modTime < f.modTime || (g.modTime == f.modTime && g.entry.generation <= f.entry.generation)
  {
    var winners, losers := ChooseWinners(walk);
    forall k | k in winners ensures Top(walk, winners[k]) { WinnersAreTop(walk, k); }
    var ordered := OrderByAge(winners);
    var rejected := AdmitAll(cache, ordered);
    removed := losers + rejected;
    FittingMeans(ordered, cache.limits);
    AllSettled(cache.Now(), cache.limits);
    RecoveredFiles(walk, winners, losers, ordered, rejected, cache.Now(), cache.limits);
    RecoveredPaths(walk, winners, ordered, cache.refs.Keys, cache.limits);
    forall p, q, f, g | 0 <= p < q < |cache.lru| && f in walk && g in walk && f.entry == cache.lru[p]
                        && g.entry == cache.lru[q]
      ensures g.modTime < f.modTime || (g.modTime == f.modTime && g.entry.generation <= f.entry.generation)
    {
      RecoveredOrder(walk, winners, ordered, cache.Now(), cache.limits, p, q, f, g);
    }
  }

  lemma RecoveredOrder(walk: seq<Persisted>, winners: Winners, ordered: seq<Persisted>, s: State, l: Limits, p: nat,
                       q: nat, f: Persisted, g: Persisted)
    requires DistinctFiles(walk) && OrderedWinners(winners, winners.Keys, ordered) && Sound(s, l)
    requires (forall k :: k in winners ==> Top(walk, winners[k])) && s.refs.Keys == Fitting(ordered, l)
    requires Ordered(s.lru, AgeRank(ordered)) && p < q < |s.lru|
    requires f in walk && g in walk && f.entry == s.lru[p] && g.entry == s.lru[q]
    ensures g.modTime < f.modTime || (g.modTime == f.modTime && g.entry.generation <= f.entry.generation)
  {
    var i := PlaceOf(walk, winners, ordered, s, l, p, f);
    var j := PlaceOf(walk, winners, ordered, s, l, q, g);
    AgePlaceIs(ordered, i);
    AgePlaceIs(ordered, j);
    assert AgeRank(ordered)(s.lru[p]) > AgeRank(ordered)(s.lru[q]);
    assert Older(ordered[j], ordered[i]);
  }

  lemma PlaceOf(walk: seq<Persisted>, winners: Winners, ordered: seq<Persisted>, s: State, l: Limits, p: nat,
                f: Persisted) returns (i: nat)
    requires DistinctFiles(walk) && OrderedWinners(winners, winners.Keys, ordered) && Sound(s, l)
    requires (forall k :: k in winners ==> Top(walk, winners[k])) && s.refs.Keys == Fitting(ordered, l)
    requires p < |s.lru| && f in walk && f.entry == s.lru[p]
    ensures i < |ordered| && ordered[i] == f
  {
    ByKeyFinds(s.lru, s.lru[p]);
    FittingMeans(ordered, l);
    i :| 0 <= i < |ordered| && ordered[i].entry == s.lru[p];
    assert Top(walk, winners[ordered[i].entry.key]);
    SameEntrySameFile(walk, f, ordered[i]);
  }

  lemma RecoveredPaths(walk: seq<Persisted>, winners: Winners, ordered: seq<Persisted>, es: set<DiskEntry>, l: Limits)
    requires DistinctFiles(walk) && OrderedWinners(winners, winners.Keys, ordered) && es == Fitting(ordered, l)
    requires forall k :: k in winners ==> Top(walk, winners[k])
    ensures PathsDistinct(es)
  {
    FittingMeans(ordered, l);
    forall e, f | e in es && f in es && e.path == f.path ensures e == f {
      var i :| 0 <= i < |ordered| && ordered[i].entry == e;
      var j :| 0 <= j < |ordered| && ordered[j].entry == f;
      var m :| 0 <= m < |walk| && walk[m] == ordered[i];
      var n :| 0 <= n < |walk| && walk[n] == ordered[j];
    }
  }

  lemma RecoveredFiles(walk: seq<Persisted>, winners: Winners, losers: seq<Persisted>, ordered: seq<Persisted>,
                       rejected: seq<Persisted>, s: State, l: Limits)
    requires DistinctFiles(walk) && Sifted(walk, winners, losers) && OrderedWinners(winners, winners.Keys, ordered)
    requires forall k :: k in winners ==> Top(walk, winners[k])
    requires s.refs.Keys == Fitting(ordered, l) && rejected == Misfits(ordered, l)
    requires (forall e :: e in s.refs ==> Settled(s, e)) && Sound(s, l)
    ensures forall e :: e in Members(s.lru) ==> exists f :: Top(walk, f) && f.entry == e
    ensures forall f :: f in walk ==> f.entry in Members(s.lru) || f in losers + rejected || s.handed[f.entry] == 1
    ensures forall f :: f in losers + rejected ==> f.entry !in Members(s.lru) && s.handed[f.entry] == 0
  {
    FittingMeans(ordered, l);
    forall i, f | 0 <= i < |ordered| && f in walk && ordered[i].entry == f.entry ensures ordered[i] == f {
      SameEntrySameFile(walk, f, ordered[i]);
    }
    forall e | e in Members(s.lru) ensures exists f :: Top(walk, f) && f.entry == e {
      var i :| 0 <= i < |ordered| && ordered[i].entry == e;
      assert Top(walk, ordered[i]);
    }
  }

  lemma SameEntrySameFile(walk: seq<Persisted>, f: Persisted, g: Persisted)
    requires DistinctFiles(walk) && f in walk && g in walk && f.entry == g.entry
    ensures f == g
  {
    var i :| 0 <= i < |walk| && walk[i] == f;
    var j :| 0 <= j < |walk| && walk[j] == g;
  }
}
