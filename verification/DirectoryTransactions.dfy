/** The operations a directory transaction offers (directory/db_directory.go), each run as one
    committed transaction: a failing one leaves the table and the journal as they were. */
module DirectoryTransactions {
  import opened DirectoryTree
  import opened DirectoryWalk
  import opened Directory

  // ---------------------------------------------------------------------------
  // What the operations promise, said on paths
  // ---------------------------------------------------------------------------

  function Parent(p: Path): Path
    requires p != []
  {
    p[..|p| - 1]
  }

  /** Why a lookup of `p` fails. */
  ghost function LookupFailure(t: Rows, p: Path): Failure
    requires p != []
  {
    if Barred(t, Parent(p)) then NotDirectory else NotExist
  }

  /** What the lookup of a destination in an existing directory found. */
  ghost predicate Locates(t: Rows, p: Path, found: Lookup) {
    && p != [] && (found.Found? <==> Resolve(t, p).Some?)
    && match found
       case Found(slot, entry) =>
         Resolve(t, Parent(p)).Some? && slot == SlotOf(t, p) && Some(entry) == Resolve(t, p)
       case Absent(parent) => IsDirWithId(t, Parent(p), parent)
       case _ => false
  }

  ghost function MoveVerdict(t: Rows, src: Path, dst: Path, overwrite: bool): Failure {
    if src == dst then Done
    else if !Apart(src, dst) then DestinationInsideSource
    else if Barred(t, Parent(dst)) then NotDirectory
    else if Resolve(t, src).None? then LookupFailure(t, src)
    else if !IsDirectory(t, Parent(dst)) then NotExist
    else if Resolve(t, dst).Some? && !overwrite then DestinationExists
    else Done
  }

  ghost function CopyVerdict(t: Rows, src: Path, dst: Path, overwrite: bool): Failure {
    if src == dst then Done
    else if !Apart(src, dst) then DestinationInsideSource
    else if Barred(t, Parent(dst)) then NotDirectory
    else if Resolve(t, src).None? then
      if IsDirectory(t, Parent(src)) then SourceNotFound else LookupFailure(t, src)
    else if !IsDirectory(t, Parent(dst)) then NotExist
    else if Resolve(t, dst).Some? && !overwrite then DestinationExists
    else Done
  }

  ghost function CreateVerdict(t: Rows, p: Path): Failure {
    if p == [] then EntryMustNotBeRoot
    else if Barred(t, Parent(p)) then NotDirectory
    else if Resolve(t, p).Some? then AlreadyExists
    else Done
  }

  ghost function MkdirVerdict(t: Rows, p: Path): Failure {
    if p == [] then EntryMustNotBeRoot
    else if Barred(t, Parent(p)) then NotDirectory
    else if !IsDirectory(t, Parent(p)) then ParentNotFound
    else if Resolve(t, p).Some? then AlreadyExists
    else Done
  }

  /** `entries` is the subtree that stood at `p`, each entry once, or nothing. */
  ghost predicate ListsTree(t: Rows, p: Path, paths: seq<Path>, entries: seq<Entry>) {
    if Resolve(t, p).None? then entries == [] && paths == []
    else Enumerates(t, p, paths) && Lists(t, paths, entries)
  }

  /** `u` is `t` with `dir` and the missing directories above it made. */
  ghost predicate MakesPath(t: Rows, u: Rows, dir: Path, firstNew: nat) {
    && Tree(u)
    && (forall x :: Resolve(t, x).Some? || !IsPrefix(x, dir) ==> Resolve(u, x) == Resolve(t, x))
    && (forall x :: Resolve(t, x).None? && IsPrefix(x, dir) ==> FreshDirectory(Resolve(u, x), firstNew))
  }

  ghost predicate FreshDirectory(e: Option<Entry>, firstNew: nat) {
    e.Some? && e.value.kind.Dir? && e.value.ref == "" && e.value.size == 0 && e.value.id >= firstNew
  }

  /** `u` is `t` with `e` placed at `p` and the missing directories above `p` made. */
  ghost predicate CreatesEntry(t: Rows, u: Rows, p: Path, e: Entry, firstNew: nat) {
    && p != [] && Tree(u) && Resolve(u, p) == Some(e)
    && (forall x :: x != p && (Resolve(t, x).Some? || !IsPrefix(x, p)) ==> Resolve(u, x) == Resolve(t, x))
    && (forall x :: x != p && Resolve(t, x).None? && IsPrefix(x, p) ==> FreshDirectory(Resolve(u, x), firstNew))
  }

  /** `made` are the paths from the root down to `dir` that did not exist. */
  ghost predicate MissingAlong(t: Rows, dir: Path, made: seq<Path>) {
    forall x :: x in made <==> IsPrefix(x, dir) && Resolve(t, x).None?
  }

  /** Each source entry beside its copy. */
  ghost predicate PairsAt(t: Rows, u: Rows, src: Path, dst: Path, paths: seq<Path>, pairs: seq<Pair>) {
    |paths| == |pairs| && forall i :: 0 <= i < |paths| ==>
      && IsPrefix(src, paths[i])
      && Resolve(t, paths[i]) == Some(pairs[i].source)
      && Resolve(u, dst + paths[i][|src|..]) == Some(pairs[i].target)
  }

  // ---------------------------------------------------------------------------
  // The journal after each kind of change
  // ---------------------------------------------------------------------------

  /** Recording every path whose existence changes, with the kind that says what it became, keeps
      the journal true. */
  lemma JournalKept(base: iset<Path>, t: Rows, u: Rows, journal: seq<Change>, paths: seq<Path>, kind: ChangeKind)
    requires JournalTrue(base, t, journal)
    requires forall x :: x != [] && x !in paths ==> (Resolve(u, x).Some? <==> Resolve(t, x).Some?)
    requires forall x :: x != [] && x in paths ==> (Resolve(u, x).Some? <==> kind != Deleted)
    ensures JournalTrue(base, u, journal + Changes(paths, kind))
  {
    forall x | x != [] ensures Resolve(u, x).Some? <==> Existing(base, journal + Changes(paths, kind), x) {
      LatestAppend(journal, paths, kind, x);
    }
  }

  lemma JournalKeptByRemoval(base: iset<Path>, t: Rows, u: Rows, p: Path, journal: seq<Change>, paths: seq<Path>)
    requires JournalTrue(base, t, journal) && RemovesTree(t, u, p) && Enumerates(t, p, paths)
    ensures JournalTrue(base, u, journal + Changes(paths, Deleted))
  {
    forall x | x in paths ensures Resolve(u, x).None? {
      var i :| 0 <= i < |paths| && paths[i] == x;
    }
    JournalKept(base, t, u, journal, paths, Deleted);
  }

  /** What lies below the destination of a copy is what the copy journaled. */
  lemma RebasedEnumerates(t: Rows, u: Rows, src: Path, dst: Path, recursive: bool, first: nat, paths: seq<Path>,
                          x: Path)
    requires CopiesTree(t, u, src, dst, recursive, first) && Resolve(t, src).Some?
    requires if recursive then Enumerates(t, src, paths) else paths == [src]
    ensures x in Rebase(paths, src, dst) <==> IsPrefix(dst, x) && Resolve(u, x).Some?
  {
    var r := Rebase(paths, src, dst);
    if x in r {
      var i :| 0 <= i < |r| && r[i] == x;
      var rest := paths[i][|src|..];
      assert paths[i] == src + rest;
      assert x == dst + rest && x[|dst|..] == rest && IsPrefix(dst, x);
      assert !recursive ==> x == dst;
    }
    if IsPrefix(dst, x) && Resolve(u, x).Some? {
      var y := src + x[|dst|..];
      assert IsPrefix(src, y);
      assert !recursive ==> x == dst && y == src;
      assert y in paths;
      var i :| 0 <= i < |paths| && paths[i] == y;
      assert r[i] == dst + y[|src|..] == x;
    }
  }

  lemma JournalKeptByCopy(base: iset<Path>, t: Rows, u: Rows, src: Path, dst: Path, recursive: bool, first: nat,
                          journal: seq<Change>, paths: seq<Path>)
    requires JournalTrue(base, t, journal) && Resolve(t, src).Some? && Resolve(t, dst).None?
    requires CopiesTree(t, u, src, dst, recursive, first)
    requires if recursive then Enumerates(t, src, paths) else paths == [src]
    ensures JournalTrue(base, u, journal + Changes(Rebase(paths, src, dst), Created))
  {
    forall x | x != []
      ensures x !in Rebase(paths, src, dst) ==> (Resolve(u, x).Some? <==> Resolve(t, x).Some?)
      ensures x in Rebase(paths, src, dst) ==> Resolve(u, x).Some?
    {
      RebasedEnumerates(t, u, src, dst, recursive, first, paths, x);
      if IsPrefix(dst, x) && Resolve(t, x).Some? { ResolvePrefix(t, dst, x); }
    }
    JournalKept(base, t, u, journal, Rebase(paths, src, dst), Created);
  }

  /** A move journals the source as deleted, then what it overwrites, then the destination as
      created. */
  lemma JournalKeptByMove(base: iset<Path>, t: Rows, u: Rows, src: Path, dst: Path, journal: seq<Change>,
                          gone: seq<Path>, over: seq<Path>, made: seq<Path>)
    requires JournalTrue(base, t, journal) && MovesTree(t, u, src, dst) && Apart(src, dst)
    requires Enumerates(t, src, gone) && Enumerates(u, dst, made)
    requires if Resolve(t, dst).None? then over == [] else Enumerates(t, dst, over)
    ensures JournalTrue(base, u, journal + Changes(gone, Deleted) + Changes(over, Deleted) + Changes(made, Created))
  {
    var j1 := journal + Changes(gone, Deleted);
    var j2 := j1 + Changes(over, Deleted);
    forall x | x != [] ensures Resolve(u, x).Some? <==> Existing(base, j2 + Changes(made, Created), x) {
      LatestAppend(journal, gone, Deleted, x);
      LatestAppend(j1, over, Deleted, x);
      LatestAppend(j2, made, Created, x);
      ApartBelow(src, dst, x);
      if IsPrefix(dst, x) && Resolve(t, x).Some? { ResolvePrefix(t, dst, x); }
    }
  }

  // ---------------------------------------------------------------------------
  // Replacing a destination
  // ---------------------------------------------------------------------------

  /** What clearing the destination leaves untouched. */
  lemma Cleared(t: Rows, u: Rows, src: Path, dst: Path)
    requires RemovesTree(t, u, dst) && Apart(src, dst)
    ensures forall x :: IsPrefix(src, x) ==> Resolve(u, x) == Resolve(t, x)
    ensures Resolve(u, Parent(src)) == Resolve(t, Parent(src)) && Resolve(u, Parent(dst)) == Resolve(t, Parent(dst))
  {
    forall x | IsPrefix(src, x) ensures Resolve(u, x) == Resolve(t, x) {
      ApartBelow(src, dst, x);
    }
    PrefixOfParent(dst, src);
  }

  lemma MoveAfterClearing(t: Rows, u: Rows, v: Rows, src: Path, dst: Path)
    requires RemovesTree(t, u, dst) && MovesTree(u, v, src, dst) && Apart(src, dst)
    ensures MovesTree(t, v, src, dst)
  {
    Cleared(t, u, src, dst);
    forall x ensures Resolve(v, x) == Moved(t, src, dst, x) {
      if IsPrefix(dst, x) {
        assert IsPrefix(src, src + x[|dst|..]);
      }
    }
  }

  lemma CopyAfterClearing(t: Rows, u: Rows, v: Rows, src: Path, dst: Path, recursive: bool, first: nat)
    requires RemovesTree(t, u, dst) && CopiesTree(u, v, src, dst, recursive, first) && Apart(src, dst)
    ensures CopiesTree(t, v, src, dst, recursive, first)
  {
    Cleared(t, u, src, dst);
    forall x | IsPrefix(dst, x)
      ensures CopyOf(if recursive || x == dst then Resolve(t, src + x[|dst|..]) else None, Resolve(v, x), first)
    {
      assert IsPrefix(src, src + x[|dst|..]);
    }
  }

  /** The row can be given the destination's slot. */
  lemma ReadyToMove(t: Rows, src: Path, parent: Path, name: string)
    requires IdsSound(t) && src != [] && Resolve(t, src).Some? && Resolve(t, Parent(src)).Some?
    requires IsDirectory(t, parent) && Resolve(t, parent + [name]).None? && !IsPrefix(src, parent)
    ensures CanMove(t, src, parent, name)
  {
    ResolveChild(t, parent, name);
  }

  lemma PrefixOfParent(p: Path, q: Path)
    requires q != []
    ensures IsPrefix(p, Parent(q)) ==> IsPrefix(p, q)
  {
    if IsPrefix(p, Parent(q)) {
      assert q[..|p|] == Parent(q)[..|p|];
    }
  }

  lemma SplitLast(p: Path)
    requires p != []
    ensures p == Parent(p) + [p[|p| - 1]]
  {
  }

  lemma MovesRow(t: Rows, src: Path, parent: Path, name: string, n: nat)
    requires Tree(t) && IdsBelow(t, n) && src != [] && Resolve(t, src).Some? && Resolve(t, Parent(src)).Some?
    requires IsDirectory(t, parent) && Resolve(t, parent + [name]).None? && !IsPrefix(src, parent)
    ensures var u := (t - {SlotOf(t, src)})[Slot(Resolve(t, parent).value.id, name) := Resolve(t, src).value];
      MovesTree(t, u, src, parent + [name]) && IdsBelow(u, n)
  {
    ReadyToMove(t, src, parent, name);
    forall x { MoveResolve(t, src, parent, name, x); }
    MoveTree(t, src, parent, name);
    MovedIdsBelow(t, src, parent, name, n);
  }

  lemma MovesTo(t: Rows, src: Path, slot: Slot, e: Entry, dst: Path, parent: nat, n: nat)
    requires Tree(t) && IdsBelow(t, n) && Apart(src, dst) && Resolve(t, src) == Some(e) && Resolve(t, dst).None?
    requires Resolve(t, Parent(src)).Some? && slot == SlotOf(t, src) && IsDirWithId(t, Parent(dst), parent)
    ensures dst != []
    ensures var u := (t - {slot})[Slot(parent, dst[|dst| - 1]) := e];
      MovesTree(t, u, src, dst) && IdsBelow(u, n) && Tree(u)
  {
    SplitLast(dst);
    PrefixOfParent(src, dst);
    MovesRow(t, src, Parent(dst), dst[|dst| - 1], n);
  }

  lemma MovedIdsBelow(t: Rows, src: Path, parent: Path, name: string, n: nat)
    requires IdsBelow(t, n) && CanMove(t, src, parent, name)
    ensures IdsBelow(MoveRow(t, src, parent, name), n)
  {
    ResolveIsRow(t, src);
    ResolveIsRow(t, parent);
  }

  // ---------------------------------------------------------------------------
  // The operations
  // ---------------------------------------------------------------------------

  class Transaction {
    const d: Directory

    constructor (directory: Directory)
      ensures d == directory
    {
      d := directory;
    }

    /** Move: the whole subtree at `src` goes to `dst`, whose previous subtree is returned. */
    method Move(src: Path, dst: Path, overwrite: bool)
      returns (failure: Failure, overwritten: seq<Entry>, ghost over: seq<Path>)
      requires d.Valid()
      modifies d
      ensures d.Valid() && failure == MoveVerdict(old(d.rows), src, dst, overwrite)
      ensures failure != Done || src == dst ==>
        d.rows == old(d.rows) && d.journal == old(d.journal) && overwritten == []
      ensures failure == Done && src != dst ==> MovesTree(old(d.rows), d.rows, src, dst)
      ensures failure == Done && src != dst ==> ListsTree(old(d.rows), dst, over, overwritten)
    {
      overwritten, over := [], [];
      if src == dst {
        return Done, [], [];
      }
      if !Apart(src, dst) {
        return DestinationInsideSource, [], [];
      }
      ghost var t := d.rows;
      var journal := d.journal;
      var target := d.GetEntry(dst);
      if target.Obstructed? {
        return NotDirectory, [], [];
      }
      if target.Found? {
        overwritten, over := d.CollectEntries(dst, target.entry);
      }
      var source := d.GetEntry(src);
      if !source.Found? {
        return if source.Obstructed? then NotDirectory else NotExist, [], [];
      }
      ghost var gone := d.RecordTree(src, source.entry, Deleted);
      if target.NoParent? {
        d.journal := journal;
        return NotExist, [], [];
      }
      if target.Found? {
        ResolveLast(t, dst);
        if !overwrite {
          d.journal := journal;
          return DestinationExists, [], [];
        }
      }
      MoveOver(src, source.slot, source.entry, dst, target, journal, gone);
      failure := Done;
    }

    /** txDoMove once its checks have passed, and the journal rows of the destination. */
    method MoveOver(src: Path, slot: Slot, e: Entry, dst: Path, target: Lookup, ghost before: seq<Change>,
                    ghost gone: seq<Path>)
      requires d.Sound() && JournalTrue(d.base, d.rows, before) && Apart(src, dst)
      requires Resolve(d.rows, src) == Some(e) && Resolve(d.rows, Parent(src)).Some? && slot == SlotOf(d.rows, src)
      requires Enumerates(d.rows, src, gone) && d.journal == before + Changes(gone, Deleted)
      requires Locates(d.rows, dst, target)
      modifies d
      ensures d.Valid() && MovesTree(old(d.rows), d.rows, src, dst)
    {
      ghost var t := d.rows;
      ghost var removed := ReplaceByMove(src, slot, e, dst, target);
      RecordMoved(src, dst, t, before, gone, removed);
    }

    /** The journal rows of what now lies at the destination. */
    method RecordMoved(src: Path, dst: Path, ghost t: Rows, ghost before: seq<Change>, ghost gone: seq<Path>,
                       ghost over: seq<Path>)
      requires d.Sound() && JournalTrue(d.base, t, before) && Apart(src, dst) && MovesTree(t, d.rows, src, dst)
      requires Enumerates(t, src, gone) && Resolve(d.rows, dst).Some?
      requires if Resolve(t, dst).None? then over == [] else Enumerates(t, dst, over)
      requires d.journal == before + Changes(gone, Deleted) + Changes(over, Deleted)
      modifies d`journal
      ensures d.Valid()
    {
      var moved := d.GetEntry(dst);
      ghost var made := d.RecordTree(dst, moved.entry, Created);
      JournalKeptByMove(d.base, t, d.rows, src, dst, before, gone, over, made);
    }

    /** The rows of txDoMove: the destination is cleared and the source takes its place. */
    method ReplaceByMove(src: Path, slot: Slot, e: Entry, dst: Path, target: Lookup) returns (ghost removed: seq<Path>)
      requires d.Sound() && Apart(src, dst)
      requires Resolve(d.rows, src) == Some(e) && Resolve(d.rows, Parent(src)).Some? && slot == SlotOf(d.rows, src)
      requires Locates(d.rows, dst, target)
      modifies d`rows, d`journal
      ensures d.Sound() && MovesTree(old(d.rows), d.rows, src, dst) && Resolve(d.rows, dst) == Some(e)
      ensures d.journal == old(d.journal) + Changes(removed, Deleted)
      ensures if target.Absent? then removed == [] else Enumerates(old(d.rows), dst, removed)
    {
      ghost var t := d.rows;
      var parent;
      parent, removed := ClearDestination(dst, target);
      ghost var u := d.rows;
      Cleared(t, u, src, dst);
      ChangeParent(slot, e, parent, src, dst);
      MoveAfterClearing(t, u, d.rows, src, dst);
      MovedThere(t, d.rows, src, dst);
    }

    /** The removal before a move or copy, and the id of the directory that holds `dst`. */
    method ClearDestination(dst: Path, target: Lookup) returns (parent: nat, ghost removed: seq<Path>)
      requires d.Sound() && Locates(d.rows, dst, target)
      modifies d`rows, d`journal
      ensures d.Sound() && RemovesTree(old(d.rows), d.rows, dst) && IsDirWithId(d.rows, Parent(dst), parent)
      ensures d.journal == old(d.journal) + Changes(removed, Deleted)
      ensures if target.Absent? then removed == [] else Enumerates(old(d.rows), dst, removed)
    {
      if target.Absent? {
        NothingToClear(d.rows, dst);
        parent, removed := target.parent, [];
        assert d.journal + [] == d.journal;
      } else {
        ResolveLast(d.rows, dst);
        parent := target.slot.parent;
        var entries;
        entries, removed := d.CollectAndRemove(dst, target.slot, target.entry);
        assert !IsPrefix(dst, Parent(dst));
      }
    }

    /** txChangeParent. */
    method ChangeParent(slot: Slot, e: Entry, parent: nat, src: Path, dst: Path)
      requires d.Sound() && Apart(src, dst) && Resolve(d.rows, src) == Some(e) && Resolve(d.rows, dst).None?
      requires Resolve(d.rows, Parent(src)).Some? && slot == SlotOf(d.rows, src)
      requires IsDirWithId(d.rows, Parent(dst), parent)
      modifies d`rows
      ensures d.Sound() && MovesTree(old(d.rows), d.rows, src, dst)
    {
      MovesTo(d.rows, src, slot, e, dst, parent, d.nextId);
      d.rows := (d.rows - {slot})[Slot(parent, dst[|dst| - 1]) := e];
    }

    /** CopyDepth: a copy of the subtree at `src`, or of its root alone, at `dst`. */
    method CopyDepth(src: Path, dst: Path, overwrite: bool, recursive: bool)
      returns (failure: Failure, pairs: seq<Pair>, overwritten: seq<Entry>,
               ghost over: seq<Path>, ghost paths: seq<Path>)
      requires d.Valid()
      modifies d
      ensures d.Valid() && failure == CopyVerdict(old(d.rows), src, dst, overwrite)
      ensures failure != Done || src == dst ==>
        d.rows == old(d.rows) && d.journal == old(d.journal) && overwritten == [] && pairs == []
      ensures failure == Done && src != dst ==> CopiesTree(old(d.rows), d.rows, src, dst, recursive, old(d.nextId))
      ensures failure == Done && src != dst ==> ListsTree(old(d.rows), dst, over, overwritten)
      ensures failure == Done && src != dst ==> PairsAt(old(d.rows), d.rows, src, dst, paths, pairs)
      ensures failure == Done && src != dst ==>
        if recursive then Enumerates(old(d.rows), src, paths) else paths == [src]
    {
      pairs, overwritten, over, paths := [], [], [], [];
      if src == dst {
        return Done, [], [], [], [];
      }
      if !Apart(src, dst) {
        return DestinationInsideSource, [], [], [], [];
      }
      var target := d.GetEntry(dst);
      if target.Obstructed? {
        return NotDirectory, [], [], [], [];
      }
      if target.Found? {
        overwritten, over := d.CollectEntries(dst, target.entry);
      }
      var source := d.GetEntry(src);
      if source.Absent? {
        return SourceNotFound, [], [], [], [];
      }
      if !source.Found? {
        return if source.Obstructed? then NotDirectory else NotExist, [], [], [], [];
      }
      if target.NoParent? {
        return NotExist, [], [], [], [];
      }
      if target.Found? {
        ResolveLast(d.rows, dst);
        if !overwrite {
          return DestinationExists, [], [], [], [];
        }
      }
      CopyOver(src, source.entry, dst, target, recursive);
      CopySides(old(d.rows), d.rows, src, dst, recursive, old(d.nextId));
      var copied := d.GetEntry(dst);
      pairs, paths := CollectCopyPairs(src, source.entry, dst, copied.entry, recursive);
      PairsBefore(old(d.rows), d.rows, src, dst, recursive, old(d.nextId), paths, pairs);
      failure := Done;
    }

    /** txDoCopyDepth once its checks have passed. */
    method CopyOver(src: Path, e: Entry, dst: Path, target: Lookup, recursive: bool)
      requires d.Valid() && Apart(src, dst) && Resolve(d.rows, src) == Some(e)
      requires Locates(d.rows, dst, target)
      modifies d
      ensures d.Valid() && CopiesTree(old(d.rows), d.rows, src, dst, recursive, old(d.nextId))
    {
      ghost var t, first := d.rows, d.nextId;
      ghost var j := d.journal;
      var parent;
      ghost var removed;
      parent, removed := ClearDestination(dst, target);
      ghost var u, k := d.rows, d.journal;
      ClearedJournal(d.base, t, u, dst, j, removed);
      Cleared(t, u, src, dst);
      SplitLast(dst);
      AllDepths(u, src);
      ghost var paths := d.IterAndCopy(src, e, parent, Parent(dst), dst[|dst| - 1], recursive, |u|);
      JournalKeptByCopy(d.base, u, d.rows, src, dst, recursive, first, k, paths);
      CopyAfterClearing(t, u, d.rows, src, dst, recursive, first);
    }

    /** collectCopyPairs: every copied entry beside its source, parents first. */
    method CollectCopyPairs(src: Path, e: Entry, dst: Path, c: Entry, recursive: bool)
      returns (pairs: seq<Pair>, ghost paths: seq<Path>)
      requires Tree(d.rows) && Resolve(d.rows, src) == Some(e) && Resolve(d.rows, dst) == Some(c)
      requires recursive ==> Mirrors(d.rows, src, dst)
      ensures PairsAt(d.rows, d.rows, src, dst, paths, pairs)
      ensures if recursive then Enumerates(d.rows, src, paths) else paths == [src]
      decreases |d.rows| - |src|
    {
      PairsStart(d.rows, src, e, dst, c);
      pairs, paths := [Pair(e, c)], [src];
      if e.kind.File? || !recursive {
        if recursive {
          d.NoChildren(d.rows, src, e);
          EnumerateDone(d.rows, src, [], []);
          assert [src] + [] == [src];
        }
        return;
      }
      MirrorRoot(d.rows, src, dst);
      var children, names := d.ListChildren(src, e);
      ghost var below: seq<Path> := [];
      for i := 0 to |children|
        invariant EnumeratesBelow(d.rows, src, names[..i], below)
        invariant PairsAt(d.rows, d.rows, src, dst, [src] + below, pairs)
      {
        assert ChildAt(d.rows, src, e, children[i], names[i]);
        var name := children[i].name;
        PairReady(d.rows, src, dst, name);
        var sub, subpaths := CollectCopyPairs(src + [name], d.rows[children[i]], dst + [name],
                                              d.rows[Slot(c.id, name)], true);
        PairStep(d.rows, src, dst, names, i, below, pairs, subpaths, sub);
        pairs, below := pairs + sub, below + subpaths;
      }
      assert names[..|children|] == names;
      EnumerateDone(d.rows, src, names, below);
      paths := [src] + below;
    }

    /** Create: a file at `p`, with the directories above it made where missing. */
    method Create(p: Path, size: int, ref: string) returns (failure: Failure, created: Entry)
      requires d.Valid()
      modifies d
      ensures d.Valid() && failure == CreateVerdict(old(d.rows), p)
      ensures failure != Done ==> d.rows == old(d.rows) && d.journal == old(d.journal)
      ensures failure == Done ==> created == Entry(created.id, File, ref, size) && created.id >= old(d.nextId)
      ensures failure == Done ==> CreatesEntry(old(d.rows), d.rows, p, created, old(d.nextId))
    {
      created := Entry(0, File, ref, size);
      if p == [] {
        return EntryMustNotBeRoot, created;
      }
      failure, created := CreateBelow(p, File, size, ref);
    }

    /** dbDirectory.Mkdir: `p` and what is missing above it; an existing entry is left alone. */
    method MkdirAll(p: Path) returns (failure: Failure)
      requires d.Valid()
      modifies d
      ensures d.Valid()
      ensures failure == if p != [] && Barred(old(d.rows), Parent(p)) then NotDirectory else Done
      ensures failure != Done || Resolve(old(d.rows), p).Some? ==> d.rows == old(d.rows) && d.journal == old(d.journal)
      ensures failure == Done && Resolve(old(d.rows), p).None? ==> MakesPath(old(d.rows), d.rows, p, old(d.nextId))
    {
      ghost var t, first := d.rows, d.nextId;
      if p == [] {
        EnsureRoot();
        RootMade(t, d.rows, first);
        return Done;
      }
      var created;
      failure, created := CreateBelow(p, Dir, 0, "");
      if failure == Done {
        DirectoryCreated(t, d.rows, p, created, first);
      } else if failure == AlreadyExists {
        failure := Done;
      }
    }

    /** What Create and dbDirectory.Mkdir share: make the parent, then the entry. */
    method CreateBelow(p: Path, kind: Kind, size: int, ref: string) returns (failure: Failure, created: Entry)
      requires d.Valid() && p != []
      modifies d
      ensures d.Valid() && failure == CreateVerdict(old(d.rows), p)
      ensures failure != Done ==> d.rows == old(d.rows) && d.journal == old(d.journal)
      ensures failure == Done ==> created == Entry(created.id, kind, ref, size) && created.id >= old(d.nextId)
      ensures failure == Done ==> CreatesEntry(old(d.rows), d.rows, p, created, old(d.nextId))
    {
      var rows, journal := d.rows, d.journal;
      ghost var first := d.nextId;
      created := Entry(0, kind, ref, size);
      var dir, made := SelectDirCreating(Parent(p));
      if dir.Blocked? {
        return NotDirectory, created;
      }
      var name := p[|p| - 1];
      SplitLast(p);
      ghost var u := d.rows;
      ResolveChild(u, Parent(p), name);
      ParentMade(rows, u, p, first);
      if Slot(dir.id, name) in d.rows {
        d.rows, d.journal := rows, journal;
        IdsBelowMore(rows, first, d.nextId);
        return AlreadyExists, created;
      }
      var id := d.CreateEntry(dir.id, name, kind, ref, size, Parent(p));
      created := Entry(id, kind, ref, size);
      d.journal := d.journal + [Change(p, Created)];
      d.OneMoreChange(journal, made, p, Created);
      EntryMade(rows, u, d.rows, p, created, first);
      JournalKeptByCreate(d.base, rows, d.rows, p, created, first, journal, made);
      failure := Done;
    }

    /** txOnSelectDir with creation: every missing component is made and journaled. */
    method SelectDirCreating(dir: Path) returns (r: Selection, ghost made: seq<Path>)
      requires d.Sound()
      modifies d
      ensures d.Sound() && d.nextId >= old(d.nextId) && !r.Missing?
      ensures r.Blocked? <==> Barred(old(d.rows), dir)
      ensures r.Blocked? ==> d.rows == old(d.rows) && d.journal == old(d.journal)
      ensures r.Selected? ==> IsDirWithId(d.rows, dir, r.id) && MakesPath(old(d.rows), d.rows, dir, old(d.nextId))
      ensures r.Selected? ==>
        MissingAlong(old(d.rows), dir, made) && d.journal == old(d.journal) + Changes(made, Created)
    {
      ghost var t, first := d.rows, d.nextId;
      var root;
      root, made := SelectRoot();
      r, made := SelectDown(root.id, dir, t, made, first, old(d.journal));
      if r.Selected? {
        NotBarred(t, d.rows, dir, first);
      }
    }

    /** The loop of txOnSelectDir over the components. */
    method SelectDown(root: nat, dir: Path, ghost t: Rows, ghost begun: seq<Path>, ghost first: nat,
                      ghost before: seq<Change>)
      returns (r: Selection, ghost made: seq<Path>)
      requires d.Sound() && d.nextId >= first && Selecting(t, d.rows, [], root, begun, first)
      requires d.journal == before + Changes(begun, Created)
      modifies d
      ensures d.Sound() && d.nextId >= first && !r.Missing?
      ensures r.Blocked? ==> Barred(t, dir) && d.rows == t && d.journal == before
      ensures r.Selected? ==>
        Selecting(t, d.rows, dir, r.id, made, first) && d.journal == before + Changes(made, Created)
    {
      var parent := root;
      made := begun;
      assert dir[..0] == [];
      for i := 0 to |dir|
        invariant d.Sound() && d.nextId >= first && Selecting(t, d.rows, dir[..i], parent, made, first)
        invariant d.journal == before + Changes(made, Created)
      {
        NextPrefix(dir, i);
        var entry;
        entry, made := SelectComponent(parent, dir[i], dir[..i], t, made, first, before);
        if entry.kind.File? {
          BarredAt(t, dir, i + 1);
          return Blocked, [];
        }
        parent := entry.id;
      }
      assert dir[..|dir|] == dir;
      r := Selected(parent);
    }

    /** The first component, which is the root. */
    method SelectRoot() returns (root: Entry, ghost made: seq<Path>)
      requires d.Sound()
      modifies d
      ensures d.Sound() && d.nextId >= old(d.nextId)
      ensures Selecting(old(d.rows), d.rows, [], root.id, made, old(d.nextId))
      ensures d.journal == old(d.journal) + Changes(made, Created)
    {
      ghost var t, first := d.rows, d.nextId;
      var absent := RootSlot !in d.rows;
      EnsureRoot();
      RootMade(t, d.rows, first);
      made := [];
      if absent {
        d.OneMoreChange(d.journal, [], [], Created);
        d.journal := d.journal + [Change([], Created)];
        made := [[]];
      }
      root := d.rows[RootSlot];
    }

    /** txSelectDirComponent. */
    method SelectComponent(parent: nat, name: string, q: Path, ghost t: Rows, ghost made: seq<Path>, ghost first: nat,
                           ghost before: seq<Change>)
      returns (entry: Entry, ghost more: seq<Path>)
      requires d.Sound() && d.nextId >= first && Selecting(t, d.rows, q, parent, made, first)
      requires d.journal == before + Changes(made, Created)
      modifies d
      ensures d.Sound() && d.nextId >= first && d.journal == before + Changes(more, Created)
      ensures entry.kind.Dir? ==> Selecting(t, d.rows, q + [name], entry.id, more, first)
      ensures entry.kind.File? ==> IsFile(t, q + [name]) && d.rows == t && d.journal == before
    {
      ghost var u := d.rows;
      NextComponent(t, u, q, name, parent, made, first);
      var slot := Slot(parent, name);
      if slot in d.rows {
        assert made == [] && before + Changes(made, Created) == before;
        return d.rows[slot], made;
      }
      d.OneMoreChange(before, made, q + [name], Created);
      var id := d.CreateEntry(parent, name, Dir, "", 0, q);
      d.journal := d.journal + [Change(q + [name], Created)];
      ComponentMade(t, u, d.rows, q, name, made, first, id);
      entry, more := Entry(id, Dir, "", 0), made + [q + [name]];
    }

    /** txCreateRoot: the root entry, unjournaled. */
    method EnsureRoot()
      requires d.Sound()
      modifies d`rows, d`nextId
      ensures d.Sound() && d.nextId >= old(d.nextId) && RootSlot in d.rows
      ensures RootSlot in old(d.rows) ==> d.rows == old(d.rows)
      ensures RootSlot !in old(d.rows) ==> Inserts(old(d.rows), d.rows, [], Entry(old(d.nextId), Dir, "", 0))
      ensures RootSlot !in old(d.rows) ==> forall s :: s in d.rows ==> s == RootSlot
    {
      if RootSlot !in d.rows {
        NoRootNoRows(d.rows);
        RootResolves(Entry(d.nextId, Dir, "", 0));
        d.rows := map[RootSlot := Entry(d.nextId, Dir, "", 0)];
        d.nextId := d.nextId + 1;
      }
    }

    /** Mkdir: one directory in an existing one. */
    method Mkdir(p: Path) returns (failure: Failure, created: Entry)
      requires d.Valid()
      modifies d
      ensures d.Valid() && failure == MkdirVerdict(old(d.rows), p)
      ensures failure != Done ==> d.rows == old(d.rows) && d.journal == old(d.journal)
      ensures failure == Done ==>
        created == Entry(old(d.nextId), Dir, "", 0) && Inserts(old(d.rows), d.rows, p, created)
    {
      created := Entry(0, Dir, "", 0);
      if p == [] {
        return EntryMustNotBeRoot, created;
      }
      var dir := d.SelectDir(Parent(p));
      match dir {
        case Missing => failure := ParentNotFound;
        case Blocked => failure := NotDirectory;
        case Selected(parent) =>
          var name := p[|p| - 1];
          SplitLast(p);
          ResolveChild(d.rows, Parent(p), name);
          if Slot(parent, name) in d.rows {
            failure := AlreadyExists;
          } else {
            var id := d.CreateEntry(parent, name, Dir, "", 0, Parent(p));
            created := Entry(id, Dir, "", 0);
            OneChange(d.base, old(d.rows), d.rows, d.journal, p, Created);
            d.journal := d.journal + [Change(p, Created)];
            failure := Done;
          }
      }
    }

    /** Replace: new contents for a file; the entry it replaces is returned. */
    method Replace(p: Path, size: int, ref: string) returns (failure: Failure, previous: Option<Entry>)
      requires d.Valid()
      modifies d
      ensures d.Valid() && previous == (if failure == Done then Resolve(old(d.rows), p) else None)
      ensures failure == Done <==> IsFile(old(d.rows), p)
      ensures failure == NotFile <==> IsDirectory(old(d.rows), p)
      ensures Resolve(old(d.rows), p).None? && p != [] ==> failure == LookupFailure(old(d.rows), p)
      ensures failure != Done ==> d.rows == old(d.rows) && d.journal == old(d.journal)
      ensures failure == Done ==> Inserts(old(d.rows), d.rows, p, previous.value.(ref := ref, size := size))
    {
      previous := None;
      var found := d.GetEntry(p);
      match found {
        case Obstructed => failure := NotDirectory;
        case NoParent => failure := NotExist;
        case Absent(_) => failure := NotExist;
        case Found(slot, entry) =>
          if entry.kind.Dir? {
            failure := NotFile;
          } else {
            EntryUpdated(d.rows, p, entry.(ref := ref, size := size), d.nextId);
            d.rows := d.rows[slot := entry.(ref := ref, size := size)];
            OneChange(d.base, old(d.rows), d.rows, d.journal, p, Updated);
            d.journal := d.journal + [Change(p, Updated)];
            failure, previous := Done, Some(entry);
          }
      }
    }

    /** Touch: a new modification time, which only the journal shows here. */
    method Touch(p: Path) returns (failure: Failure)
      requires d.Valid()
      modifies d`journal
      ensures d.Valid() && (failure == Done <==> Resolve(d.rows, p).Some?)
      ensures Resolve(d.rows, p).None? && p != [] ==> failure == LookupFailure(d.rows, p)
      ensures d.journal == if failure == Done then old(d.journal) + [Change(p, Updated)] else old(d.journal)
    {
      var found := d.GetEntry(p);
      if !found.Found? {
        return if found.Obstructed? then NotDirectory else NotExist;
      }
      OneChange(d.base, d.rows, d.rows, d.journal, p, Updated);
      d.journal := d.journal + [Change(p, Updated)];
      failure := Done;
    }

    /** Remove: the subtree at `p`, which is returned; a missing entry is no failure. */
    method Remove(p: Path) returns (failure: Failure, removed: seq<Entry>, ghost paths: seq<Path>)
      requires d.Valid()
      modifies d
      ensures d.Valid()
      ensures failure == (if p != [] && !IsDirectory(old(d.rows), Parent(p)) then LookupFailure(old(d.rows), p)
                          else Done)
      ensures RemovesTree(old(d.rows), d.rows, p) && ListsTree(old(d.rows), p, paths, removed)
      ensures removed == [] ==> d.rows == old(d.rows) && d.journal == old(d.journal)
    {
      removed, paths := [], [];
      var found := d.GetEntry(p);
      if found.Found? {
        ResolveIsRow(d.rows, p);
        if p != [] { ResolveLast(d.rows, p); }
        removed, paths := d.CollectAndRemove(p, found.slot, found.entry);
        JournalKeptByRemoval(d.base, old(d.rows), d.rows, p, old(d.journal), paths);
        assert p in paths;
        return Done, removed, paths;
      }
      NothingToClear(d.rows, p);
      failure := if found.Absent? then Done else if found.Obstructed? then NotDirectory else NotExist;
    }
  }

  lemma NoRootNoRows(t: Rows)
    requires Tree(t) && RootSlot !in t
    ensures t == map[]
  {
    forall p ensures Resolve(t, p).None? {
    }
    assert forall s :: s !in t;
  }

  lemma RootResolves(e: Entry)
    requires e.kind.Dir? && e.id != 0
    ensures Inserts(map[], map[RootSlot := e], [], e)
  {
    var u := map[RootSlot := e];
    forall x ensures Resolve(u, x) == if x == [] then Some(e) else None {
      if x != [] { assert Slot(e.id, x[0]) !in u; }
    }
    assert Resolve(u, []) == Some(u[RootSlot]);
  }

  lemma RootMade(t: Rows, u: Rows, first: nat)
    requires Tree(t)
    requires RootSlot in t ==> u == t
    requires RootSlot !in t ==> Inserts(t, u, [], Entry(first, Dir, "", 0))
    ensures MakesPath(t, u, [], first)
    ensures RootSlot in t <==> Resolve(t, []).Some?
  {
  }

  /** The directories down to `dir` exist, the missing ones having been made on the way. */
  ghost predicate Selecting(t: Rows, u: Rows, dir: Path, id: nat, made: seq<Path>, first: nat) {
    && IsDirWithId(u, dir, id) && MakesPath(t, u, dir, first) && MissingAlong(t, dir, made)
    && (made == [] ==> u == t)
    && (made != [] ==> forall name :: Slot(id, name) !in u)
  }

  lemma ComponentPrefixes(dir: Path, name: string)
    ensures forall x :: IsPrefix(x, dir + [name]) <==> IsPrefix(x, dir) || x == dir + [name]
  {
    forall x ensures IsPrefix(x, dir + [name]) <==> IsPrefix(x, dir) || x == dir + [name] {
      PrefixSnoc(x, dir, name);
    }
  }

  /** An existing component was there from the start. */
  lemma NextComponent(t: Rows, u: Rows, dir: Path, name: string, id: nat, made: seq<Path>, first: nat)
    requires Selecting(t, u, dir, id, made, first)
    ensures Slot(id, name) !in u ==> Resolve(u, dir + [name]).None?
    ensures Slot(id, name) in u ==> u == t && made == [] && Resolve(t, dir + [name]) == Some(t[Slot(id, name)])
    ensures IsDirectory(u, dir + [name]) ==>
      Slot(id, name) in u && Selecting(t, u, dir + [name], u[Slot(id, name)].id, made, first)
  {
    ResolveChild(u, dir, name);
    ComponentPrefixes(dir, name);
  }

  lemma ComponentMade(t: Rows, u: Rows, v: Rows, dir: Path, name: string, made: seq<Path>, first: nat, id: nat)
    requires MakesPath(t, u, dir, first) && MissingAlong(t, dir, made) && Resolve(u, dir + [name]).None?
    requires Inserts(u, v, dir + [name], Entry(id, Dir, "", 0)) && id >= first
    requires forall s :: s in v ==> s.parent != id
    ensures Selecting(t, v, dir + [name], id, made + [dir + [name]], first)
  {
    ComponentPrefixes(dir, name);
    assert !IsPrefix(dir + [name], dir);
  }

  lemma NextPrefix(dir: Path, i: nat)
    requires i < |dir|
    ensures dir[..i + 1] == dir[..i] + [dir[i]]
  {
  }

  lemma BarredAt(t: Rows, dir: Path, n: nat)
    requires n <= |dir| && IsFile(t, dir[..n])
    ensures Barred(t, dir)
  {
  }

  lemma NotBarred(t: Rows, u: Rows, dir: Path, first: nat)
    requires MakesPath(t, u, dir, first) && IsDirectory(u, dir)
    ensures !Barred(t, dir)
  {
    forall n: nat | n <= |dir| ensures !IsFile(t, dir[..n]) {
      ResolvePrefix(u, dir[..n], dir);
    }
  }

  lemma ParentMade(t: Rows, u: Rows, p: Path, first: nat)
    requires p != [] && MakesPath(t, u, Parent(p), first)
    ensures Resolve(u, p) == Resolve(t, p)
  {
    assert !IsPrefix(p, Parent(p));
  }

  lemma EntryMade(t: Rows, u: Rows, v: Rows, p: Path, e: Entry, first: nat)
    requires p != [] && MakesPath(t, u, Parent(p), first) && Inserts(u, v, p, e)
    ensures CreatesEntry(t, v, p, e, first)
  {
    SplitLast(p);
    ComponentPrefixes(Parent(p), p[|p| - 1]);
  }

  lemma DirectoryCreated(t: Rows, u: Rows, p: Path, e: Entry, first: nat)
    requires CreatesEntry(t, u, p, e, first) && e == Entry(e.id, Dir, "", 0) && e.id >= first && Resolve(t, p).None?
    ensures MakesPath(t, u, p, first)
  {
  }

  lemma JournalKeptByCreate(base: iset<Path>, t: Rows, u: Rows, p: Path, e: Entry, first: nat, journal: seq<Change>,
                            made: seq<Path>)
    requires JournalTrue(base, t, journal) && CreatesEntry(t, u, p, e, first) && MissingAlong(t, Parent(p), made)
    ensures JournalTrue(base, u, journal + Changes(made + [p], Created))
  {
    SplitLast(p);
    ComponentPrefixes(Parent(p), p[|p| - 1]);
    JournalKept(base, t, u, journal, made + [p], Created);
  }

  lemma OneChange(base: iset<Path>, t: Rows, u: Rows, journal: seq<Change>, p: Path, kind: ChangeKind)
    requires JournalTrue(base, t, journal) && kind != Deleted && Resolve(u, p).Some?
    requires forall x :: x != p ==> Resolve(u, x) == Resolve(t, x)
    ensures JournalTrue(base, u, journal + [Change(p, kind)])
  {
    JournalKept(base, t, u, journal, [p], kind);
    assert Changes([p], kind) == [Change(p, kind)];
  }

  lemma EntryUpdated(t: Rows, p: Path, e: Entry, n: nat)
    requires Tree(t) && IdsBelow(t, n) && Resolve(t, p).Some? && (p != [] ==> Resolve(t, Parent(p)).Some?)
    requires e.id == Resolve(t, p).value.id && e.kind == Resolve(t, p).value.kind
    ensures Inserts(t, t[SlotOf(t, p) := e], p, e) && IdsBelow(t[SlotOf(t, p) := e], n)
  {
    ResolveIsRow(t, p);
    forall x { UpdateResolve(t, p, e, x); }
    UpdateTree(t, p, e);
  }

  lemma IdsBelowMore(t: Rows, n: nat, m: nat)
    requires IdsBelow(t, n) && n <= m
    ensures IdsBelow(t, m)
  {
  }

  /** Whatever lies below `src` has a counterpart of the same kind below `dst`. */
  ghost predicate Mirrors(t: Rows, src: Path, dst: Path) {
    forall r :: Resolve(t, src + r).Some? ==>
      Resolve(t, dst + r).Some? && Resolve(t, dst + r).value.kind == Resolve(t, src + r).value.kind
  }

  lemma MirrorRoot(t: Rows, src: Path, dst: Path)
    requires Mirrors(t, src, dst) && Resolve(t, src).Some?
    ensures Resolve(t, dst).Some? && Resolve(t, dst).value.kind == Resolve(t, src).value.kind
  {
    assert src + [] == src && dst + [] == dst;
  }

  lemma MirrorChild(t: Rows, src: Path, dst: Path, name: string)
    requires Mirrors(t, src, dst)
    ensures Mirrors(t, src + [name], dst + [name])
    ensures Resolve(t, src + [name]).Some? ==> Resolve(t, dst + [name]).Some?
  {
    forall r | Resolve(t, src + [name] + r).Some?
      ensures Resolve(t, dst + [name] + r).Some?
      ensures Resolve(t, dst + [name] + r).value.kind == Resolve(t, src + [name] + r).value.kind
    {
      assert src + [name] + r == src + ([name] + r) && dst + [name] + r == dst + ([name] + r);
    }
  }

  lemma PairsStart(t: Rows, src: Path, e: Entry, dst: Path, c: Entry)
    requires Resolve(t, src) == Some(e) && Resolve(t, dst) == Some(c)
    ensures PairsAt(t, t, src, dst, [src], [Pair(e, c)])
  {
    assert dst + src[|src|..] == dst;
  }

  lemma PairsJoin(t: Rows, src: Path, dst: Path, paths: seq<Path>, pairs: seq<Pair>, name: string, sub: seq<Path>,
                  more: seq<Pair>)
    requires PairsAt(t, t, src, dst, paths, pairs) && PairsAt(t, t, src + [name], dst + [name], sub, more)
    ensures PairsAt(t, t, src, dst, paths + sub, pairs + more)
  {
    forall i | 0 <= i < |sub|
      ensures IsPrefix(src, sub[i]) && Resolve(t, dst + sub[i][|src|..]) == Some(more[i].target)
    {
      ChildPrefix(src, name, sub[i]);
      assert dst + sub[i][|src|..] == dst + [name] + sub[i][|src + [name]|..];
    }
  }

  lemma PairReady(t: Rows, src: Path, dst: Path, name: string)
    requires Tree(t) && Mirrors(t, src, dst) && IsDirectory(t, dst) && Resolve(t, src + [name]).Some?
    ensures Mirrors(t, src + [name], dst + [name]) && |src| + 1 < |t|
    ensures var slot := Slot(Resolve(t, dst).value.id, name); slot in t && Resolve(t, dst + [name]) == Some(t[slot])
  {
    MirrorChild(t, src, dst, name);
    ResolveChild(t, dst, name);
    DepthBound(t, src + [name]);
  }

  lemma PairStep(t: Rows, src: Path, dst: Path, names: seq<string>, i: nat, below: seq<Path>, pairs: seq<Pair>,
                 sub: seq<Path>, more: seq<Pair>)
    requires i < |names| && Distinct(names)
    requires EnumeratesBelow(t, src, names[..i], below) && PairsAt(t, t, src, dst, [src] + below, pairs)
    requires Enumerates(t, src + [names[i]], sub) && PairsAt(t, t, src + [names[i]], dst + [names[i]], sub, more)
    ensures EnumeratesBelow(t, src, names[..i + 1], below + sub)
    ensures PairsAt(t, t, src, dst, [src] + (below + sub), pairs + more)
  {
    EnumerateStep(t, src, names, i, below, sub);
    PairsJoinBelow(t, src, dst, below, pairs, names[i], sub, more);
  }

  lemma PairsJoinBelow(t: Rows, src: Path, dst: Path, below: seq<Path>, pairs: seq<Pair>, name: string, sub: seq<Path>,
                       more: seq<Pair>)
    requires PairsAt(t, t, src, dst, [src] + below, pairs) && PairsAt(t, t, src + [name], dst + [name], sub, more)
    ensures PairsAt(t, t, src, dst, [src] + (below + sub), pairs + more)
  {
    PairsJoin(t, src, dst, [src] + below, pairs, name, sub, more);
    assert [src] + (below + sub) == [src] + below + sub;
  }

  /** After a copy the source is as it was and the destination mirrors it. */
  lemma CopySides(t: Rows, u: Rows, src: Path, dst: Path, recursive: bool, first: nat)
    requires CopiesTree(t, u, src, dst, recursive, first) && Apart(src, dst) && Resolve(t, src).Some?
    ensures forall x :: IsPrefix(src, x) ==> Resolve(u, x) == Resolve(t, x)
    ensures Resolve(u, dst).Some? && (recursive ==> Mirrors(u, src, dst))
  {
    forall x | IsPrefix(src, x) ensures Resolve(u, x) == Resolve(t, x) {
      ApartBelow(src, dst, x);
    }
    assert src + dst[|dst|..] == src;
    forall r | recursive && Resolve(u, src + r).Some?
      ensures Resolve(u, dst + r).Some? && Resolve(u, dst + r).value.kind == Resolve(u, src + r).value.kind
    {
      assert IsPrefix(src, src + r) && IsPrefix(dst, dst + r) && (dst + r)[|dst|..] == r;
    }
  }

  /** The pairs read after a copy show the sources as they were before it. */
  lemma PairsBefore(t: Rows, u: Rows, src: Path, dst: Path, recursive: bool, first: nat, paths: seq<Path>,
                    pairs: seq<Pair>)
    requires CopiesTree(t, u, src, dst, recursive, first) && Apart(src, dst) && Resolve(t, src).Some?
    requires PairsAt(u, u, src, dst, paths, pairs)
    requires if recursive then Enumerates(u, src, paths) else paths == [src]
    ensures PairsAt(t, u, src, dst, paths, pairs)
    ensures if recursive then Enumerates(t, src, paths) else paths == [src]
  {
    CopySides(t, u, src, dst, recursive, first);
  }

  lemma ClearedJournal(base: iset<Path>, t: Rows, u: Rows, dst: Path, journal: seq<Change>, removed: seq<Path>)
    requires JournalTrue(base, t, journal) && RemovesTree(t, u, dst)
    requires if Resolve(t, dst).None? then removed == [] else Enumerates(t, dst, removed)
    ensures JournalTrue(base, u, journal + Changes(removed, Deleted))
  {
    if Resolve(t, dst).None? {
      forall x ensures Resolve(u, x) == Resolve(t, x) {
        if IsPrefix(dst, x) && Resolve(t, x).Some? { ResolvePrefix(t, dst, x); }
      }
      assert journal + Changes(removed, Deleted) == journal;
    } else {
      JournalKeptByRemoval(base, t, u, dst, journal, removed);
    }
  }

  lemma AllDepths(t: Rows, p: Path)
    requires Tree(t)
    ensures DepthBelow(t, p, |t|)
  {
    forall x | IsPrefix(p, x) && Resolve(t, x).Some? ensures |x| < |t| {
      DepthBound(t, x);
    }
  }

  lemma NothingToClear(t: Rows, dst: Path)
    requires Tree(t) && Resolve(t, dst).None?
    ensures RemovesTree(t, t, dst)
  {
    forall x | IsPrefix(dst, x) ensures Resolve(t, x).None? {
      if Resolve(t, x).Some? { ResolvePrefix(t, dst, x); }
    }
  }

  lemma MovedThere(t: Rows, u: Rows, src: Path, dst: Path)
    requires MovesTree(t, u, src, dst)
    ensures Resolve(u, dst) == Resolve(t, src)
  {
    assert src + dst[|dst|..] == src;
  }
}
