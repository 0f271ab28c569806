/** Enumerating subtrees, and the change journal. */
module DirectoryWalk {
  import opened DirectoryTree

  // ---------------------------------------------------------------------------
  // Subtrees as lists of paths
  // ---------------------------------------------------------------------------

  predicate Distinct<T(==)>(xs: seq<T>) {
    forall i, j :: 0 <= i < j < |xs| ==> xs[i] != xs[j]
  }

  /** `paths` lists each existing path at or below `p` once. */
  ghost predicate Enumerates(t: Rows, p: Path, paths: seq<Path>) {
    && Distinct(paths)
    && (forall i :: 0 <= i < |paths| ==> IsPrefix(p, paths[i]) && Resolve(t, paths[i]).Some?)
    && (forall x :: IsPrefix(p, x) && Resolve(t, x).Some? ==> x in paths)
  }

  /** `x` lies at or below one of the named children of `p`. */
  ghost predicate BelowChild(p: Path, names: seq<string>, x: Path) {
    |p| < |x| && x[..|p|] == p && x[|p|] in names
  }

  /** The same for the named children of `p` only. */
  ghost predicate EnumeratesBelow(t: Rows, p: Path, names: seq<string>, paths: seq<Path>) {
    && Distinct(paths)
    && (forall i :: 0 <= i < |paths| ==> BelowChild(p, names, paths[i]) && Resolve(t, paths[i]).Some?)
    && (forall x :: BelowChild(p, names, x) && Resolve(t, x).Some? ==> x in paths)
  }

  lemma ChildPrefix(p: Path, name: string, x: Path)
    ensures IsPrefix(p + [name], x) <==> |p| < |x| && x[..|p|] == p && x[|p|] == name
  {
    if |p| < |x| { assert x[..|p| + 1] == x[..|p|] + [x[|p|]]; }
    if IsPrefix(p + [name], x) {
      assert x[..|p| + 1][..|p|] == x[..|p|] && (p + [name])[..|p|] == p;
      assert x[..|p| + 1][|p|] == name;
    }
  }

  lemma DistinctConcat<T>(a: seq<T>, b: seq<T>)
    requires Distinct(a) && Distinct(b) && forall x :: x in a ==> x !in b
    ensures Distinct(a + b)
  {
    forall i, j | 0 <= i < j < |a + b| ensures (a + b)[i] != (a + b)[j] {
      if i < |a| <= j { assert a[i] in a; }
    }
  }

  lemma EnumerateNext(t: Rows, p: Path, names: seq<string>, paths: seq<Path>, name: string, sub: seq<Path>)
    requires EnumeratesBelow(t, p, names, paths) && Enumerates(t, p + [name], sub) && name !in names
    ensures EnumeratesBelow(t, p, names + [name], paths + sub)
  {
    forall x | x in paths ensures x !in sub {
      ChildPrefix(p, name, x);
    }
    DistinctConcat(paths, sub);
    var all := paths + sub;
    forall i | 0 <= i < |all| ensures BelowChild(p, names + [name], all[i]) && Resolve(t, all[i]).Some? {
      if i >= |paths| {
        assert all[i] == sub[i - |paths|];
        ChildPrefix(p, name, all[i]);
      }
    }
    forall x | BelowChild(p, names + [name], x) && Resolve(t, x).Some? ensures x in all {
      ChildPrefix(p, name, x);
    }
  }

  /** The same step along a fixed list of names. */
  lemma EnumerateStep(t: Rows, p: Path, names: seq<string>, i: nat, paths: seq<Path>, sub: seq<Path>)
    requires i < |names| && Distinct(names)
    requires EnumeratesBelow(t, p, names[..i], paths) && Enumerates(t, p + [names[i]], sub)
    ensures EnumeratesBelow(t, p, names[..i + 1], paths + sub)
  {
    assert names[..i + 1] == names[..i] + [names[i]];
    EnumerateNext(t, p, names[..i], paths, names[i], sub);
  }

  /** `entries` are the entries at `paths`. */
  ghost predicate Lists(t: Rows, paths: seq<Path>, entries: seq<Entry>) {
    |paths| == |entries| && forall i :: 0 <= i < |paths| ==> Resolve(t, paths[i]) == Some(entries[i])
  }

  lemma ListsConcat(t: Rows, a: seq<Path>, as': seq<Entry>, b: seq<Path>, bs: seq<Entry>)
    requires Lists(t, a, as') && Lists(t, b, bs)
    ensures Lists(t, a + b, as' + bs)
  {
  }

  /** `names` are the names of all children of `p`. */
  ghost predicate NamesAll(t: Rows, p: Path, names: seq<string>) {
    forall name :: Resolve(t, p + [name]).Some? ==> name in names
  }

  lemma BelowIsBelowChild(t: Rows, p: Path, names: seq<string>, x: Path)
    requires NamesAll(t, p, names) && IsPrefix(p, x) && x != p && Resolve(t, x).Some?
    ensures BelowChild(p, names, x)
  {
    ChildPrefix(p, x[|p|], x);
    ResolvePrefix(t, p + [x[|p|]], x);
  }

  lemma EnumerateDone(t: Rows, p: Path, names: seq<string>, paths: seq<Path>)
    requires EnumeratesBelow(t, p, names, paths) && NamesAll(t, p, names) && Resolve(t, p).Some?
    ensures Enumerates(t, p, paths + [p]) && Enumerates(t, p, [p] + paths)
  {
    assert p !in paths;
    DistinctConcat(paths, [p]);
    DistinctConcat([p], paths);
    forall x | IsPrefix(p, x) && Resolve(t, x).Some? ensures x in paths + [p] && x in [p] + paths {
      if x != p { BelowIsBelowChild(t, p, names, x); }
    }
    assert (paths + [p])[|paths|] == p;
  }

  /** A path is shorter than the table is large. */
  lemma DepthBound(t: Rows, p: Path)
    requires IdsSound(t) && Resolve(t, p).Some?
    ensures |p| < |t|
  {
    var slots := SlotsAlong(t, p, |p|);
    assert slots <= t.Keys;
    SubsetSize(slots, t.Keys);
  }

  /** The slots of the first `n + 1` prefixes of `p`. */
  lemma {:induction false} SlotsAlong(t: Rows, p: Path, n: nat) returns (slots: set<Slot>)
    requires IdsSound(t) && Resolve(t, p).Some? && n <= |p|
    ensures |slots| == n + 1 && slots <= t.Keys
    ensures forall s :: s in slots ==> exists m: nat :: m <= n && Resolve(t, p[..m]) == Some(t[s])
  {
    ResolvePrefix(t, p[..n], p);
    ResolveIsRow(t, p[..n]);
    var s := SlotOf(t, p[..n]);
    if n == 0 {
      slots := {s};
      assert Resolve(t, p[..n]) == Some(t[s]);
    } else {
      var before := SlotsAlong(t, p, n - 1);
      if s in before {
        var m: nat :| m <= n - 1 && Resolve(t, p[..m]) == Some(t[s]);
        PathUnique(t, p[..m], p[..n]);
      }
      slots := before + {s};
    }
  }

  lemma SubsetSize<T>(a: set<T>, b: set<T>)
    requires a <= b
    ensures |a| <= |b|
  {
    assert b == a + (b - a);
  }

  // ---------------------------------------------------------------------------
  // The journal
  // ---------------------------------------------------------------------------

  datatype ChangeKind = Created | Updated | Deleted
  datatype Change = Change(path: Path, kind: ChangeKind)

  /** The kind of the last change recorded for `x`. */
  ghost function Latest(journal: seq<Change>, x: Path): Option<ChangeKind> {
    if journal == [] then None
    else
      var last := journal[|journal| - 1];
      if last.path == x then Some(last.kind) else Latest(journal[..|journal| - 1], x)
  }

  ghost function Changes(paths: seq<Path>, kind: ChangeKind): (cs: seq<Change>)
    ensures |cs| == |paths| && forall i :: 0 <= i < |paths| ==> cs[i] == Change(paths[i], kind)
  {
    seq(|paths|, i requires 0 <= i < |paths| => Change(paths[i], kind))
  }

  lemma LatestOne(journal: seq<Change>, c: Change, x: Path)
    ensures Latest(journal + [c], x) == if c.path == x then Some(c.kind) else Latest(journal, x)
  {
    assert (journal + [c])[..|journal|] == journal;
  }

  lemma {:induction false} LatestAppend(journal: seq<Change>, paths: seq<Path>, kind: ChangeKind, x: Path)
    ensures Latest(journal + Changes(paths, kind), x) == if x in paths then Some(kind) else Latest(journal, x)
    decreases |paths|
  {
    if paths == [] {
      assert journal + Changes(paths, kind) == journal;
    } else {
      var n := |paths| - 1;
      var shorter := journal + Changes(paths[..n], kind);
      LatestAppend(journal, paths[..n], kind, x);
      assert journal + Changes(paths, kind) == shorter + [Change(paths[n], kind)];
      LatestOne(shorter, Change(paths[n], kind), x);
      assert paths == paths[..n] + [paths[n]];
    }
  }

  lemma ChangesConcat(a: seq<Path>, b: seq<Path>, kind: ChangeKind)
    ensures Changes(a + b, kind) == Changes(a, kind) + Changes(b, kind)
  {
  }

  /** Whether the journal says that `x` exists: by its latest change, or else by what was there
      when the journal was started. */
  ghost predicate Existing(base: iset<Path>, journal: seq<Change>, x: Path) {
    if Latest(journal, x).Some? then Latest(journal, x) != Some(Deleted) else x in base
  }

  /** The table holds the paths other than the root that the journal says exist. */
  ghost predicate JournalTrue(base: iset<Path>, t: Rows, journal: seq<Change>) {
    forall x :: x != [] ==> (Resolve(t, x).Some? <==> Existing(base, journal, x))
  }
}
