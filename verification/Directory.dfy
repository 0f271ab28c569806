/** The transactions of the database directory as the code runs them: recursive walks over the
    mapping rows that insert, update and delete rows and append to the change journal
    (directory/db_directory.go).  Times and modes are not modelled. */
module Directory {
  import opened DirectoryTree
  import opened DirectoryWalk

  datatype Failure =
    | Done
    | EntryMustNotBeRoot
    | AlreadyExists
    | NotExist
    | NotDirectory
    | ParentNotFound
    | NotFile
    | DestinationInsideSource
    | DestinationExists
    | SourceNotFound

  /** How a path of directories was selected. */
  datatype Selection = Selected(id: nat) | Missing | Blocked

  /** What a lookup finds: the entry, nothing in an existing directory, no such directory, or a
      file in place of a directory. */
  datatype Lookup = Found(slot: Slot, entry: Entry) | Absent(parent: nat) | NoParent | Obstructed

  datatype Pair = Pair(source: Entry, target: Entry)

  ghost predicate IdsBelow(t: Rows, n: nat) {
    n > 0 && forall s :: s in t ==> t[s].id < n && s.parent < n
  }

  ghost predicate IsDirectory(t: Rows, p: Path) {
    Resolve(t, p).Some? && Resolve(t, p).value.kind.Dir?
  }

  ghost predicate IsDirWithId(t: Rows, p: Path, id: nat) {
    Resolve(t, p).Some? && Resolve(t, p).value.kind.Dir? && Resolve(t, p).value.id == id
  }

  ghost predicate IsFile(t: Rows, p: Path) {
    Resolve(t, p).Some? && Resolve(t, p).value.kind.File?
  }

  /** A file stands at or above `dir`, so `dir` is no directory and cannot be made one. */
  ghost predicate Barred(t: Rows, dir: Path) {
    exists n: nat :: n <= |dir| && IsFile(t, dir[..n])
  }

  /** `c` is the row of the child `name` of the directory `e` at `p`. */
  ghost predicate ChildAt(t: Rows, p: Path, e: Entry, c: Slot, name: string) {
    c == Slot(e.id, name) && c in t && Resolve(t, p + [name]) == Some(t[c])
  }

  // ---------------------------------------------------------------------------
  // What the transactions do to paths
  // ---------------------------------------------------------------------------

  ghost predicate RemovesTree(t: Rows, u: Rows, p: Path) {
    Tree(u) && forall x :: Resolve(u, x) == if IsPrefix(p, x) then None else Resolve(t, x)
  }

  /** `b` is a copy of `a` with an id not used before, or both are missing. */
  ghost predicate CopyOf(a: Option<Entry>, b: Option<Entry>, firstNew: nat) {
    if a.None? then b.None? else b.Some? && b.value == a.value.(id := b.value.id) && b.value.id >= firstNew
  }

  /** `u` is `t` with a copy of what lies at `src` placed at `dst`. */
  ghost predicate CopiesTree(t: Rows, u: Rows, src: Path, dst: Path, recursive: bool, firstNew: nat) {
    && Tree(u)
    && (forall x :: !IsPrefix(dst, x) ==> Resolve(u, x) == Resolve(t, x))
    && (forall x :: IsPrefix(dst, x) ==>
         CopyOf(if recursive || x == dst then Resolve(t, src + x[|dst|..]) else None, Resolve(u, x), firstNew))
  }

  ghost predicate MovesTree(t: Rows, u: Rows, src: Path, dst: Path) {
    Tree(u) && forall x :: Resolve(u, x) == Moved(t, src, dst, x)
  }

  class Directory {
    var rows: Rows
    var journal: seq<Change>
    var nextId: nat
    ghost const base: iset<Path>

    ghost predicate Sound()
      reads this
    {
      Tree(rows) && IdsBelow(rows, nextId)
    }

    ghost predicate Valid()
      reads this
    {
      Sound() && JournalTrue(base, rows, journal)
    }

    /** A directory over the rows found when the journal was started. */
    constructor (found: Rows, next: nat)
      requires Tree(found) && IdsBelow(found, next)
      ensures Valid() && rows == found && journal == [] && nextId == next
      ensures base == iset x | Resolve(found, x).Some?
    {
      rows := found;
      journal := [];
      nextId := next;
      base := iset x | Resolve(found, x).Some?;
    }

    // -------------------------------------------------------------------------
    // Reading
    // -------------------------------------------------------------------------

    /** txListAllDir: the rows below a directory in id order. */
    method ListAll(id: nat) returns (children: seq<Slot>)
      requires IdsSound(rows)
      ensures forall s :: s in children <==> s in rows && s.parent == id
      ensures Distinct(children)
      ensures forall i, j :: 0 <= i < j < |children| ==>
        children[i] in rows && children[j] in rows && rows[children[i]].id < rows[children[j]].id
    {
      var rest := set s | s in rows && s.parent == id;
      children := [];
      while rest != {}
        invariant Listed(rows, id, children, rest)
        decreases rest
      {
        LeastExists(rows, rest);
        var least :| least in rest && forall s :: s in rest ==> rows[least].id <= rows[s].id;
        ListedStep(rows, id, children, rest, least);
        children := children + [least];
        rest := rest - {least};
      }
    }

    /** `children` are the first rows below a directory, `rest` the others. */
    ghost predicate Listed(t: Rows, id: nat, children: seq<Slot>, rest: set<Slot>) {
      && (forall s :: s in rest ==> s in t && s.parent == id && s !in children)
      && (forall s :: s in t && s.parent == id ==> s in rest || s in children)
      && (forall s :: s in children ==> s in t && s.parent == id)
      && (forall i, j :: 0 <= i < j < |children| ==> t[children[i]].id < t[children[j]].id)
      && (forall i, s :: 0 <= i < |children| && s in rest ==> t[children[i]].id < t[s].id)
    }

    lemma ListedStep(t: Rows, id: nat, children: seq<Slot>, rest: set<Slot>, least: Slot)
      requires IdsSound(t) && Listed(t, id, children, rest)
      requires least in rest && forall s :: s in rest ==> t[least].id <= t[s].id
      ensures Listed(t, id, children + [least], rest - {least})
    {
      var more, fewer := children + [least], rest - {least};
      forall i, s | 0 <= i < |more| && s in fewer ensures t[more[i]].id < t[s].id {
        if i == |children| { assert t[least].id != t[s].id; }
      }
      forall i, j | 0 <= i < j < |more| ensures t[more[i]].id < t[more[j]].id {
        if j < |children| { assert t[children[i]].id < t[children[j]].id; }
      }
    }

    lemma {:induction false} LeastExists(t: Rows, rest: set<Slot>)
      requires rest != {} && forall s :: s in rest ==> s in t
      ensures exists least :: least in rest && forall s :: s in rest ==> t[least].id <= t[s].id
    {
      var s :| s in rest;
      if rest != {s} {
        LeastExists(t, rest - {s});
        var l :| l in rest - {s} && forall u :: u in rest - {s} ==> t[l].id <= t[u].id;
        var least := if t[l].id <= t[s].id then l else s;
        assert forall u :: u in rest ==> t[least].id <= t[u].id;
      } else {
        assert forall u :: u in rest ==> t[s].id <= t[u].id;
      }
    }

    /** txOnSelectDir without creation. */
    method SelectDir(dir: Path) returns (r: Selection)
      ensures r.Selected? <==> Resolve(rows, dir).Some? && Resolve(rows, dir).value.kind.Dir?
      ensures r.Selected? ==> r.id == Resolve(rows, dir).value.id
      ensures r.Blocked? <==> Barred(rows, dir)
    {
      var items := ["/"] + dir;
      var parent := 0;
      for i := 0 to |items|
        invariant i == 0 ==> parent == 0
        invariant i > 0 ==> IsDirWithId(rows, dir[..i - 1], parent)
        invariant forall n :: 0 <= n < i ==> !IsFile(rows, dir[..n])
      {
        if i > 0 {
          assert dir[..i] == dir[..i - 1] + [dir[i - 1]];
          ResolveChild(rows, dir[..i - 1], dir[i - 1]);
          assert Slot(parent, items[i]) in rows <==> Resolve(rows, dir[..i]).Some?;
        }
        if Slot(parent, items[i]) !in rows {
          NoFileBelow(rows, dir, i);
          return Missing;
        }
        var entry := rows[Slot(parent, items[i])];
        assert Resolve(rows, dir[..i]) == Some(entry);
        if entry.kind.File? {
          assert IsFile(rows, dir[..i]);
          assert i == |dir| ==> dir[..i] == dir;
          if i < |dir| { FileHasNothingBelow(rows, dir[..i], dir); }
          return Blocked;
        }
        parent := entry.id;
      }
      assert dir[..|dir|] == dir;
      r := Selected(parent);
    }

    lemma NoFileBelow(t: Rows, dir: Path, i: nat)
      requires i <= |dir| && Resolve(t, dir[..i]).None? && forall n :: 0 <= n < i ==> !IsFile(t, dir[..n])
      ensures !Barred(t, dir) && Resolve(t, dir).None?
    {
      forall n: nat | i <= n <= |dir| ensures Resolve(t, dir[..n]).None? {
        assert dir[..n][..i] == dir[..i];
        if Resolve(t, dir[..n]).Some? { ResolvePrefix(t, dir[..i], dir[..n]); }
      }
      assert dir[..|dir|] == dir;
    }

    lemma FileHasNothingBelow(t: Rows, p: Path, x: Path)
      requires IsPrefix(p, x) && p != x && Resolve(t, p).Some? && Resolve(t, p).value.kind.File?
      ensures Resolve(t, x).None?
    {
      if Resolve(t, x).Some? { ResolvePrefix(t, p, x); }
    }

    /** txGetEntryInfo. */
    method GetEntry(p: Path) returns (r: Lookup)
      ensures r.Found? <==> Resolve(rows, p).Some?
      ensures r.Found? ==> p != [] ==> Resolve(rows, p[..|p| - 1]).Some?
      ensures r.Found? ==> r.entry == Resolve(rows, p).value && r.slot == SlotOf(rows, p)
      ensures p != [] && r.Absent? ==> IsDirWithId(rows, p[..|p| - 1], r.parent)
      ensures p != [] && (r.NoParent? || r.Obstructed?) ==> !IsDirectory(rows, p[..|p| - 1])
      ensures r.Obstructed? <==> p != [] && Barred(rows, p[..|p| - 1])
      ensures p == [] ==> r.Found? || r.Absent?
    {
      if p == [] {
        if RootSlot in rows {
          return Found(RootSlot, rows[RootSlot]);
        }
        return Absent(0);
      }
      var n := |p| - 1;
      assert p == p[..n] + [p[n]];
      ResolveChild(rows, p[..n], p[n]);
      var dir := SelectDir(p[..n]);
      match dir {
        case Missing => r := NoParent;
        case Blocked => r := Obstructed;
        case Selected(id) =>
          var slot := Slot(id, p[n]);
          r := if slot in rows then Found(slot, rows[slot]) else Absent(id);
      }
    }

    // -------------------------------------------------------------------------
    // Walking a subtree
    // -------------------------------------------------------------------------

    lemma ChildrenNamed(t: Rows, p: Path, e: Entry, children: seq<Slot>)
      requires Resolve(t, p) == Some(e) && e.kind.Dir?
      requires forall s :: s in children <==> s in t && s.parent == e.id
      ensures NamesAll(t, p, Names(children))
      ensures forall i :: 0 <= i < |children| ==> Resolve(t, p + [children[i].name]) == Some(t[children[i]])
      ensures Distinct(children) ==> Distinct(Names(children))
    {
      forall name | Resolve(t, p + [name]).Some? ensures name in Names(children) {
        ResolveChild(t, p, name);
        var i :| 0 <= i < |children| && children[i] == Slot(e.id, name);
        assert Names(children)[i] == name;
      }
      forall i | 0 <= i < |children| ensures Resolve(t, p + [children[i].name]) == Some(t[children[i]]) {
        assert children[i] in children;
        ResolveChild(t, p, children[i].name);
      }
      forall i, j | Distinct(children) && 0 <= i < j < |children| ensures Names(children)[i] != Names(children)[j] {
        assert children[i] in children && children[j] in children;
      }
    }

    /** The children of the directory at `p`, with their names. */
    method ListChildren(p: Path, e: Entry) returns (children: seq<Slot>, ghost names: seq<string>)
      requires IdsSound(rows) && Resolve(rows, p) == Some(e) && e.kind.Dir?
      ensures |names| == |children| && Distinct(names) && NamesAll(rows, p, names)
      ensures forall i :: 0 <= i < |children| ==> ChildAt(rows, p, e, children[i], names[i])
    {
      children := ListAll(e.id);
      names := Names(children);
      ChildrenNamed(rows, p, e, children);
      assert forall i :: 0 <= i < |children| ==> children[i] in children;
    }

    lemma NoChildren(t: Rows, p: Path, e: Entry)
      requires Resolve(t, p) == Some(e) && e.kind.File?
      ensures NamesAll(t, p, [])
    {
      forall name ensures Resolve(t, p + [name]).None? {
        ResolveChild(t, p, name);
      }
    }

    /** collectEntries: the subtree at `p`, children before parents. */
    method CollectEntries(p: Path, e: Entry) returns (entries: seq<Entry>, ghost paths: seq<Path>)
      requires Tree(rows) && Resolve(rows, p) == Some(e)
      ensures Enumerates(rows, p, paths) && Lists(rows, paths, entries)
      decreases |rows| - |p|
    {
      entries, paths := [], [];
      ghost var names: seq<string> := [];
      if e.kind.Dir? {
        var children;
        children, names := ListChildren(p, e);
        for i := 0 to |children|
          invariant EnumeratesBelow(rows, p, names[..i], paths) && Lists(rows, paths, entries)
        {
          assert ChildAt(rows, p, e, children[i], names[i]);
          DepthBound(rows, p + [names[i]]);
          var sub, subpaths := CollectEntries(p + [children[i].name], rows[children[i]]);
          EnumerateStep(rows, p, names, i, paths, subpaths);
          ListsConcat(rows, paths, entries, subpaths, sub);
          entries, paths := entries + sub, paths + subpaths;
        }
        assert names[..|children|] == names;
      } else {
        NoChildren(rows, p, e);
      }
      EnumerateDone(rows, p, names, paths);
      ListsConcat(rows, paths, entries, [p], [e]);
      entries, paths := entries + [e], paths + [p];
    }

    /** recordTreeChanges: one journal row for each path of the subtree, parents first. */
    method RecordTree(p: Path, e: Entry, kind: ChangeKind) returns (ghost paths: seq<Path>)
      requires Tree(rows) && Resolve(rows, p) == Some(e)
      modifies this`journal
      ensures Enumerates(rows, p, paths) && journal == old(journal) + Changes(paths, kind)
      decreases |rows| - |p|
    {
      journal := journal + [Change(p, kind)];
      paths := [];
      ghost var names: seq<string> := [];
      if e.kind.Dir? {
        var children;
        children, names := ListChildren(p, e);
        for i := 0 to |children|
          invariant EnumeratesBelow(rows, p, names[..i], paths)
          invariant journal == old(journal) + Changes([p] + paths, kind)
        {
          assert ChildAt(rows, p, e, children[i], names[i]);
          DepthBound(rows, p + [names[i]]);
          var subpaths := RecordTree(p + [children[i].name], rows[children[i]], kind);
          EnumerateStep(rows, p, names, i, paths, subpaths);
          MoreChanges(old(journal), [p], paths, subpaths, kind);
          paths := paths + subpaths;
        }
        assert names[..|children|] == names;
      } else {
        NoChildren(rows, p, e);
      }
      EnumerateDone(rows, p, names, paths);
      paths := [p] + paths;
    }

    lemma MoreChanges(journal: seq<Change>, first: seq<Path>, paths: seq<Path>, more: seq<Path>, kind: ChangeKind)
      ensures journal + Changes(first + paths, kind) + Changes(more, kind)
           == journal + Changes(first + (paths + more), kind)
    {
      assert first + (paths + more) == first + paths + more;
      ChangesConcat(first + paths, more, kind);
    }

    // -------------------------------------------------------------------------
    // Removing a subtree
    // -------------------------------------------------------------------------

    /** The children of `p` named in `names` are gone with all below them. */
    ghost predicate ChildrenGone(t: Rows, u: Rows, p: Path, names: seq<string>) {
      Tree(u) && forall x :: Resolve(u, x) == if BelowChild(p, names, x) then None else Resolve(t, x)
    }

    lemma ChildrenGoneStep(t: Rows, u: Rows, v: Rows, p: Path, names: seq<string>, i: nat, sub: seq<Path>)
      requires i < |names| && Distinct(names) && ChildrenGone(t, u, p, names[..i])
      requires RemovesTree(u, v, p + [names[i]]) && Enumerates(u, p + [names[i]], sub)
      ensures ChildrenGone(t, v, p, names[..i + 1]) && Enumerates(t, p + [names[i]], sub)
    {
      forall x ensures Resolve(v, x) == if BelowChild(p, names[..i + 1], x) then None else Resolve(t, x) {
        ChildrenGoneAt(t, u, v, p, names, i, x);
      }
      StillEnumerated(t, u, p, names, i, sub);
    }

    lemma ChildrenGoneAt(t: Rows, u: Rows, v: Rows, p: Path, names: seq<string>, i: nat, x: Path)
      requires i < |names| && ChildrenGone(t, u, p, names[..i]) && RemovesTree(u, v, p + [names[i]])
      ensures Resolve(v, x) == if BelowChild(p, names[..i + 1], x) then None else Resolve(t, x)
    {
      ChildPrefix(p, names[i], x);
      assert names[..i + 1] == names[..i] + [names[i]];
    }

    /** A child that is still there has all that was below it. */
    lemma StillEnumerated(t: Rows, u: Rows, p: Path, names: seq<string>, i: nat, sub: seq<Path>)
      requires i < |names| && Distinct(names) && ChildrenGone(t, u, p, names[..i]) && Enumerates(u, p + [names[i]], sub)
      ensures Enumerates(t, p + [names[i]], sub)
    {
      forall x | IsPrefix(p + [names[i]], x) ensures Resolve(u, x) == Resolve(t, x) {
        ChildPrefix(p, names[i], x);
      }
    }

    /** With all children gone the entry itself can go. */
    lemma LastRowGone(t: Rows, u: Rows, p: Path, names: seq<string>)
      requires Tree(t) && ChildrenGone(t, u, p, names) && NamesAll(t, p, names) && Resolve(t, p).Some?
      ensures (p != [] ==> Resolve(u, p[..|p| - 1]).Some? && Resolve(t, p[..|p| - 1]).Some?)
      ensures SlotOf(u, p) == SlotOf(t, p)
      ensures Resolve(u, p) == Resolve(t, p)
      ensures RemovesTree(t, u - {SlotOf(u, p)}, p)
    {
      if p != [] {
        ResolvePrefix(t, p[..|p| - 1], p);
      }
      forall name ensures Resolve(u, p + [name]).None? {
        assert BelowChild(p, names, p + [name]) <==> name in names;
      }
      RemoveTree(u, p);
      var v := u - {SlotOf(u, p)};
      forall x ensures Resolve(v, x) == if IsPrefix(p, x) then None else Resolve(t, x) {
        RemoveResolve(u, p, x);
        if IsPrefix(p, x) && x != p && Resolve(t, x).Some? {
          BelowIsBelowChild(t, p, names, x);
        }
      }
    }

    lemma CollectedAll(t: Rows, p: Path, e: Entry, names: seq<string>, paths: seq<Path>, removed: seq<Entry>)
      requires Resolve(t, p) == Some(e) && NamesAll(t, p, names)
      requires EnumeratesBelow(t, p, names, paths) && Lists(t, paths, removed)
      ensures Enumerates(t, p, paths + [p]) && Lists(t, paths + [p], removed + [e])
    {
      EnumerateDone(t, p, names, paths);
      ListsConcat(t, paths, removed, [p], [e]);
    }

    /** collectAndRemove: children first, each row journaled as deleted and removed. */
    method CollectAndRemove(p: Path, slot: Slot, e: Entry) returns (removed: seq<Entry>, ghost paths: seq<Path>)
      requires Sound() && Resolve(rows, p) == Some(e) && (p != [] ==> Resolve(rows, p[..|p| - 1]).Some?)
      requires slot == SlotOf(rows, p)
      modifies this`rows, this`journal
      ensures Sound() && RemovesTree(old(rows), rows, p) && |rows| <= |old(rows)|
      ensures Enumerates(old(rows), p, paths) && Lists(old(rows), paths, removed)
      ensures journal == old(journal) + Changes(paths, Deleted)
      decreases |rows| - |p|, 1
    {
      ghost var t := rows;
      ghost var names: seq<string>;
      removed, paths, names := RemoveChildren(p, e);
      CollectedAll(t, p, e, names, paths, removed);
      LastRowGone(t, rows, p, names);
      RemovedIdsBelow(rows, slot, nextId);
      RemoveRow(p, slot);
      OneMoreChange(old(journal), paths, p, Deleted);
      removed, paths := removed + [e], paths + [p];
    }

    /** A row is journaled as deleted and removed. */
    method RemoveRow(p: Path, slot: Slot)
      modifies this`rows, this`journal
      ensures rows == old(rows) - {slot} && journal == old(journal) + [Change(p, Deleted)]
    {
      journal := journal + [Change(p, Deleted)];
      rows := rows - {slot};
    }

    /** The loop of collectAndRemove over the children of a directory. */
    method RemoveChildren(p: Path, e: Entry)
      returns (removed: seq<Entry>, ghost paths: seq<Path>, ghost names: seq<string>)
      requires Sound() && Resolve(rows, p) == Some(e)
      modifies this`rows, this`journal
      ensures Sound() && ChildrenGone(old(rows), rows, p, names) && |rows| <= |old(rows)|
      ensures NamesAll(old(rows), p, names)
      ensures EnumeratesBelow(old(rows), p, names, paths) && Lists(old(rows), paths, removed)
      ensures journal == old(journal) + Changes(paths, Deleted)
      decreases |rows| - |p|, 0
    {
      ghost var t := rows;
      removed, paths, names := [], [], [];
      if e.kind.File? {
        NoChildren(t, p, e);
        return;
      }
      var children;
      children, names := ListChildren(p, e);
      for i := 0 to |children|
        invariant Sound() && ChildrenGone(t, rows, p, names[..i]) && |rows| <= |t|
        invariant EnumeratesBelow(t, p, names[..i], paths) && Lists(t, paths, removed)
        invariant journal == old(journal) + Changes(paths, Deleted)
      {
        assert ChildAt(t, p, e, children[i], names[i]);
        removed, paths := RemoveChild(p, e, children[i], t, names, i, removed, paths, old(journal));
      }
      assert names[..|children|] == names;
    }

    method RemoveChild(p: Path, e: Entry, c: Slot, ghost t: Rows, ghost names: seq<string>, ghost i: nat,
                       removed: seq<Entry>, ghost paths: seq<Path>, ghost before: seq<Change>)
      returns (more: seq<Entry>, ghost morePaths: seq<Path>)
      requires Sound() && |rows| <= |t| && i < |names| && Distinct(names) && e.kind.Dir? && Resolve(t, p) == Some(e)
      requires ChildAt(t, p, e, c, names[i]) && ChildrenGone(t, rows, p, names[..i])
      requires EnumeratesBelow(t, p, names[..i], paths) && Lists(t, paths, removed)
      requires journal == before + Changes(paths, Deleted)
      modifies this`rows, this`journal
      ensures Sound() && ChildrenGone(t, rows, p, names[..i + 1]) && |rows| <= |t|
      ensures EnumeratesBelow(t, p, names[..i + 1], morePaths) && Lists(t, morePaths, more)
      ensures journal == before + Changes(morePaths, Deleted)
      decreases |t| - |p|, 0, 0
    {
      ghost var u := rows;
      ChildStillThere(t, rows, p, e, c, names, i);
      DepthBound(rows, p + [names[i]]);
      var sub, subpaths := CollectAndRemove(p + [c.name], c, rows[c]);
      RemoveStep(t, u, rows, p, names, i, removed, paths, sub, subpaths, before);
      more, morePaths := removed + sub, paths + subpaths;
    }

    lemma RemoveStep(t: Rows, u: Rows, v: Rows, p: Path, names: seq<string>, i: nat, removed: seq<Entry>,
                     paths: seq<Path>, sub: seq<Entry>, subpaths: seq<Path>, before: seq<Change>)
      requires i < |names| && Distinct(names) && ChildrenGone(t, u, p, names[..i])
      requires EnumeratesBelow(t, p, names[..i], paths) && Lists(t, paths, removed)
      requires forall y :: IsPrefix(p + [names[i]], y) ==> Resolve(u, y) == Resolve(t, y)
      requires RemovesTree(u, v, p + [names[i]]) && Enumerates(u, p + [names[i]], subpaths) && Lists(u, subpaths, sub)
      ensures ChildrenGone(t, v, p, names[..i + 1])
      ensures EnumeratesBelow(t, p, names[..i + 1], paths + subpaths) && Lists(t, paths + subpaths, removed + sub)
      ensures before + Changes(paths, Deleted) + Changes(subpaths, Deleted)
           == before + Changes(paths + subpaths, Deleted)
    {
      ChildrenGoneStep(t, u, v, p, names, i, subpaths);
      ListsFrom(t, u, p + [names[i]], subpaths, sub);
      EnumerateStep(t, p, names, i, paths, subpaths);
      ListsConcat(t, paths, removed, subpaths, sub);
      ChangesAppend(before, paths, subpaths, Deleted);
    }

    /** Removing some children leaves the next one in place. */
    lemma ChildStillThere(t: Rows, u: Rows, p: Path, e: Entry, c: Slot, names: seq<string>, i: nat)
      requires Resolve(t, p) == Some(e) && e.kind.Dir? && i < |names| && Distinct(names)
      requires ChildAt(t, p, e, c, names[i]) && ChildrenGone(t, u, p, names[..i])
      ensures c in t && c in u && t[c] == u[c]
      ensures var x := p + [c.name];
        && x[..|x| - 1] == p && Resolve(u, p) == Some(e)
        && Resolve(u, x) == Resolve(t, x) == Some(u[c]) && SlotOf(u, x) == c
      ensures forall y :: IsPrefix(p + [names[i]], y) ==> Resolve(u, y) == Resolve(t, y)
    {
      var x := p + [c.name];
      assert x[..|x| - 1] == p && x[|x| - 1] == c.name;
      ResolveChild(t, p, c.name);
      ResolveChild(u, p, c.name);
      assert names[i] !in names[..i];
      assert !BelowChild(p, names[..i], x);
      forall y | IsPrefix(x, y) ensures Resolve(u, y) == Resolve(t, y) {
        ChildPrefix(p, c.name, y);
      }
    }

    lemma OneMoreChange(journal: seq<Change>, paths: seq<Path>, p: Path, kind: ChangeKind)
      ensures journal + Changes(paths, kind) + [Change(p, kind)] == journal + Changes(paths + [p], kind)
    {
      ChangesAppend(journal, paths, [p], kind);
      assert Changes([p], kind) == [Change(p, kind)];
    }

    lemma RemovedIdsBelow(t: Rows, slot: Slot, n: nat)
      requires IdsBelow(t, n)
      ensures IdsBelow(t - {slot}, n) && |t - {slot}| <= |t|
    {
      assert (t - {slot}).Keys <= t.Keys;
      SubsetSize((t - {slot}).Keys, t.Keys);
    }

    lemma ListsFrom(t: Rows, u: Rows, p: Path, paths: seq<Path>, entries: seq<Entry>)
      requires Enumerates(u, p, paths) && Enumerates(t, p, paths) && Lists(u, paths, entries)
      requires forall x :: IsPrefix(p, x) ==> Resolve(u, x) == Resolve(t, x)
      ensures Lists(t, paths, entries)
    {
    }

    // -------------------------------------------------------------------------
    // Inserting and copying
    // -------------------------------------------------------------------------

    /** txCreateEntry in a directory that has no entry of that name. */
    method CreateEntry(parent: nat, name: string, kind: Kind, ref: string, size: int, ghost q: Path) returns (id: nat)
      requires Sound() && IsDirWithId(rows, q, parent) && Slot(parent, name) !in rows
      modifies this`rows, this`nextId
      ensures Sound() && id == old(nextId) && nextId == id + 1
      ensures Inserts(old(rows), rows, q + [name], Entry(id, kind, ref, size))
      ensures forall s :: s in rows ==> s.parent < id
    {
      id := nextId;
      nextId := nextId + 1;
      var e := Entry(id, kind, ref, size);
      ResolveIsRow(rows, q);
      forall x { InsertResolve(rows, q, name, e, x); }
      InsertTree(rows, q, name, e);
      rows := rows[Slot(parent, name) := e];
    }

    /** The copy of a file is all there is to copy. */
    lemma CopiedFile(t: Rows, u: Rows, src: Path, e: Entry, dst: Path, first: nat)
      requires Tree(t) && Resolve(t, src) == Some(e) && e.kind.File? && CopiedSome(t, u, src, dst, [], first)
      ensures CopiesTree(t, u, src, dst, true, first) && Enumerates(t, src, [src])
    {
      NoChildren(t, src, e);
      EnumerateDone(t, src, [], []);
      assert [src] + [] == [src];
      CopiedAll(t, u, src, dst, [], first);
    }

    /** txDoIterAndCopy: a new row for the source entry, journaled as created, then its children. */
    method IterAndCopy(src: Path, e: Entry, parent: nat, q: Path, name: string, recursive: bool, ghost bound: nat)
      returns (ghost paths: seq<Path>)
      requires Sound() && CanCopy(rows, src, e, q, name) && IsDirWithId(rows, q, parent)
      requires DepthBelow(rows, src, bound)
      modifies this
      ensures Sound() && nextId > old(nextId)
      ensures CopiesTree(old(rows), rows, src, q + [name], recursive, old(nextId))
      ensures if recursive then Enumerates(old(rows), src, paths) else paths == [src]
      ensures journal == old(journal) + Changes(Rebase(paths, src, q + [name]), Created)
      decreases bound - |src|, 1
    {
      var dst := q + [name];
      ghost var t, first := rows, nextId;
      ResolveChild(rows, q, name);
      var id := CreateEntry(parent, name, e.kind, e.ref, e.size, q);
      journal := journal + [Change(dst, Created)];
      paths := [src];
      CopiedRoot(t, rows, src, e, dst, first);
      assert Changes(Rebase([src], src, dst), Created) == [Change(dst, Created)] by { RebaseOne(src, dst); }
      if e.kind.File? || !recursive {
        if recursive {
          CopiedFile(t, rows, src, e, dst, first);
        }
        return;
      }
      ghost var below, names := CopyChildren(src, e, id, dst, t, first, bound);
      CopiedAll(t, rows, src, dst, names, first);
      EnumerateDone(t, src, names, below);
      RebaseConcat([src], below, src, dst);
      ChangesAppend(old(journal), Rebase([src], src, dst), Rebase(below, src, dst), Created);
      paths := [src] + below;
    }

    /** The loop of txDoIterAndCopy over the children of the source. */
    method CopyChildren(src: Path, e: Entry, id: nat, dst: Path, ghost t: Rows, ghost first: nat, ghost bound: nat)
      returns (ghost paths: seq<Path>, ghost names: seq<string>)
      requires Sound() && nextId > first && e.kind.Dir?
      requires Tree(t) && Resolve(t, src) == Some(e) && Apart(src, dst)
      requires CopiedSome(t, rows, src, dst, [], first) && IsDirWithId(rows, dst, id)
      requires DepthBelow(t, src, bound)
      modifies this
      ensures Sound() && nextId >= old(nextId)
      ensures CopiedSome(t, rows, src, dst, names, first) && NamesAll(t, src, names)
      ensures EnumeratesBelow(t, src, names, paths)
      ensures journal == old(journal) + Changes(Rebase(paths, src, dst), Created)
      decreases bound - |src|, 0
    {
      paths := [];
      SourceKept(t, rows, src, dst, [], first);
      var children;
      children, names := ListChildren(src, e);
      SourceNames(t, rows, src, names);
      SourceChildren(t, rows, src, e, children, names);
      for i := 0 to |children|
        invariant Sound() && nextId > first && nextId >= old(nextId)
        invariant CopiedSome(t, rows, src, dst, names[..i], first) && IsDirWithId(rows, dst, id)
        invariant EnumeratesBelow(t, src, names[..i], paths)
        invariant journal == old(journal) + Changes(Rebase(paths, src, dst), Created)
      {
        assert ChildAt(t, src, e, children[i], names[i]);
        paths := CopyChild(src, e, id, dst, children[i], t, first, bound, names, i, paths, old(journal));
      }
      assert names[..|children|] == names;
    }

    method CopyChild(src: Path, e: Entry, id: nat, dst: Path, c: Slot, ghost t: Rows, ghost first: nat,
                     ghost bound: nat, ghost names: seq<string>, ghost i: nat, ghost paths: seq<Path>,
                     ghost before: seq<Change>)
      returns (ghost more: seq<Path>)
      requires Sound() && nextId > first && e.kind.Dir?
      requires Tree(t) && Resolve(t, src) == Some(e) && Apart(src, dst) && DepthBelow(t, src, bound)
      requires i < |names| && Distinct(names) && ChildAt(t, src, e, c, names[i])
      requires CopiedSome(t, rows, src, dst, names[..i], first) && IsDirWithId(rows, dst, id)
      requires EnumeratesBelow(t, src, names[..i], paths)
      requires journal == before + Changes(Rebase(paths, src, dst), Created)
      modifies this
      ensures Sound() && nextId > old(nextId)
      ensures CopiedSome(t, rows, src, dst, names[..i + 1], first) && IsDirWithId(rows, dst, id)
      ensures EnumeratesBelow(t, src, names[..i + 1], more)
      ensures journal == before + Changes(Rebase(more, src, dst), Created)
      decreases bound - |src|, 0, 0
    {
      ghost var u, next := rows, nextId;
      CopyNextReady(t, rows, src, dst, names, i, first, bound);
      SourceKept(t, rows, src, dst, names[..i], first);
      ResolveChild(rows, src, names[i]);
      var sub := IterAndCopy(src + [c.name], rows[c], id, dst, c.name, true, bound);
      CopyStep(t, u, rows, src, dst, names, i, first, next, paths, sub, before);
      more := paths + sub;
    }
  }

  lemma SourceChildren(t: Rows, u: Rows, src: Path, e: Entry, children: seq<Slot>, names: seq<string>)
    requires forall x :: IsPrefix(src, x) ==> Resolve(u, x) == Resolve(t, x)
    requires Resolve(t, src) == Some(e) && e.kind.Dir? && |names| == |children|
    requires forall i :: 0 <= i < |children| ==> ChildAt(u, src, e, children[i], names[i])
    ensures forall i :: 0 <= i < |children| ==> ChildAt(t, src, e, children[i], names[i])
  {
    forall i | 0 <= i < |children| ensures ChildAt(t, src, e, children[i], names[i]) {
      assert IsPrefix(src, src + [names[i]]);
      ResolveChild(t, src, names[i]);
    }
  }

  lemma ChangesAppend(journal: seq<Change>, paths: seq<Path>, more: seq<Path>, kind: ChangeKind)
    ensures journal + Changes(paths, kind) + Changes(more, kind) == journal + Changes(paths + more, kind)
  {
    ChangesConcat(paths, more, kind);
  }

  /** One round of the copying loop, for the table, the enumeration and the journal. */
  lemma CopyStep(t: Rows, u: Rows, v: Rows, src: Path, dst: Path, names: seq<string>, i: nat, first: nat, next: nat,
                 paths: seq<Path>, sub: seq<Path>, journal: seq<Change>)
    requires i < |names| && Distinct(names) && Apart(src, dst) && CopiedSome(t, u, src, dst, names[..i], first)
    requires CopiesTree(u, v, src + [names[i]], dst + [names[i]], true, next) && first <= next
    requires EnumeratesBelow(t, src, names[..i], paths) && Enumerates(u, src + [names[i]], sub)
    ensures CopiedSome(t, v, src, dst, names[..i + 1], first)
    ensures EnumeratesBelow(t, src, names[..i + 1], paths + sub)
    ensures journal + Changes(Rebase(paths, src, dst), Created)
                    + Changes(Rebase(sub, src + [names[i]], dst + [names[i]]), Created)
         == journal + Changes(Rebase(paths + sub, src, dst), Created)
    ensures forall id :: IsDirWithId(u, dst, id) ==> IsDirWithId(v, dst, id)
  {
    SourceKept(t, u, src, dst, names[..i], first);
    CopiedNext(t, u, v, src, dst, names, i, first, next);
    SubEnumeration(t, u, src, names[i], sub);
    EnumerateStep(t, src, names, i, paths, sub);
    RebaseChild(sub, src, dst, names[i]);
    RebaseConcat(paths, sub, src, dst);
    ChangesAppend(journal, Rebase(paths, src, dst), Rebase(sub, src, dst), Created);
    ChildPrefix(dst, names[i], dst);
  }

  // ---------------------------------------------------------------------------
  // Facts about copying
  // ---------------------------------------------------------------------------

  ghost predicate Inserts(t: Rows, u: Rows, p: Path, e: Entry) {
    Tree(u) && forall x :: Resolve(u, x) == if x == p then Some(e) else Resolve(t, x)
  }

  /** Neither path lies at or below the other. */
  predicate Apart(p: Path, q: Path) {
    !IsPrefix(p, q) && !IsPrefix(q, p)
  }

  ghost predicate CanCopy(t: Rows, src: Path, e: Entry, q: Path, name: string) {
    Resolve(t, src) == Some(e) && Resolve(t, q + [name]).None? && Apart(src, q + [name])
  }

  lemma PrefixesCompare(p: Path, q: Path, x: Path)
    requires IsPrefix(p, x) && IsPrefix(q, x)
    ensures IsPrefix(p, q) || IsPrefix(q, p)
  {
    if |p| <= |q| {
      assert q[..|p|] == x[..|q|][..|p|] == x[..|p|];
    } else {
      assert p[..|q|] == x[..|p|][..|q|] == x[..|q|];
    }
  }

  lemma ApartBelow(src: Path, dst: Path, x: Path)
    requires Apart(src, dst)
    ensures !IsPrefix(src, x) || !IsPrefix(dst, x)
  {
    if IsPrefix(src, x) && IsPrefix(dst, x) { PrefixesCompare(src, dst, x); }
  }

  lemma PrefixWithoutLast(p: Path, q: Path, name: string)
    ensures IsPrefix(p + [name], q + [name]) ==> IsPrefix(p, q)
  {
    if IsPrefix(p + [name], q + [name]) {
      assert (q + [name])[..|p|] == (q + [name])[..|p| + 1][..|p|] == (p + [name])[..|p|] == p;
      assert (q + [name])[..|p|] == q[..|p|];
    }
  }

  lemma ApartChild(src: Path, dst: Path, name: string)
    requires Apart(src, dst)
    ensures Apart(src + [name], dst + [name])
  {
    PrefixWithoutLast(src, dst, name);
    PrefixWithoutLast(dst, src, name);
  }

  ghost predicate DepthBelow(t: Rows, p: Path, bound: nat) {
    forall x :: IsPrefix(p, x) && Resolve(t, x).Some? ==> |x| < bound
  }

  /** The paths below `src` carried over to `dst`. */
  ghost function Rebase(paths: seq<Path>, src: Path, dst: Path): (r: seq<Path>)
    ensures |r| == |paths|
    ensures forall i :: 0 <= i < |paths| && |src| <= |paths[i]| ==> r[i] == dst + paths[i][|src|..]
  {
    seq(|paths|, i requires 0 <= i < |paths| => if |src| <= |paths[i]| then dst + paths[i][|src|..] else dst)
  }

  lemma RebaseOne(src: Path, dst: Path)
    ensures Rebase([src], src, dst) == [dst]
  {
    assert dst + src[|src|..] == dst;
  }

  lemma RebaseConcat(a: seq<Path>, b: seq<Path>, src: Path, dst: Path)
    ensures Rebase(a + b, src, dst) == Rebase(a, src, dst) + Rebase(b, src, dst)
  {
  }

  lemma RebaseChild(paths: seq<Path>, src: Path, dst: Path, name: string)
    requires forall i :: 0 <= i < |paths| ==> IsPrefix(src + [name], paths[i])
    ensures Rebase(paths, src + [name], dst + [name]) == Rebase(paths, src, dst)
  {
    forall i | 0 <= i < |paths| ensures Rebase(paths, src + [name], dst + [name])[i] == Rebase(paths, src, dst)[i] {
      RebaseChildAt(src, dst, name, paths[i]);
    }
  }

  lemma RebaseChildAt(src: Path, dst: Path, name: string, x: Path)
    requires IsPrefix(src + [name], x)
    ensures |src| < |x| && dst + [name] + x[|src| + 1..] == dst + x[|src|..]
  {
    ChildPrefix(src, name, x);
    assert x[|src|..] == [name] + x[|src| + 1..];
  }

  /** The copy of `src` at `dst` is complete for the children named in `names`. */
  ghost predicate CopiedSome(t: Rows, u: Rows, src: Path, dst: Path, names: seq<string>, first: nat) {
    && Tree(u)
    && (forall x :: !IsPrefix(dst, x) ==> Resolve(u, x) == Resolve(t, x))
    && CopyOf(Resolve(t, src), Resolve(u, dst), first)
    && (forall x :: IsPrefix(dst, x) && x != dst ==>
         CopyOf(if BelowChild(dst, names, x) then Resolve(t, src + x[|dst|..]) else None, Resolve(u, x), first))
  }

  lemma CopiedRoot(t: Rows, u: Rows, src: Path, e: Entry, dst: Path, first: nat)
    requires Resolve(t, src) == Some(e) && Resolve(t, dst).None? && Inserts(t, u, dst, e.(id := first))
    ensures CopiedSome(t, u, src, dst, [], first)
    ensures CopiesTree(t, u, src, dst, false, first)
  {
    forall x | IsPrefix(dst, x) && x != dst ensures Resolve(u, x).None? {
      if Resolve(t, x).Some? { ResolvePrefix(t, dst, x); }
    }
    assert src + dst[|dst|..] == src;
  }

  /** Nothing at or below the source is touched by the copy. */
  lemma SourceKept(t: Rows, u: Rows, src: Path, dst: Path, names: seq<string>, first: nat)
    requires CopiedSome(t, u, src, dst, names, first) && Apart(src, dst)
    ensures forall x :: IsPrefix(src, x) ==> Resolve(u, x) == Resolve(t, x)
  {
    forall x | IsPrefix(src, x) ensures Resolve(u, x) == Resolve(t, x) {
      ApartBelow(src, dst, x);
    }
  }

  lemma SourceNames(t: Rows, u: Rows, src: Path, names: seq<string>)
    requires NamesAll(u, src, names) && forall x :: IsPrefix(src, x) ==> Resolve(u, x) == Resolve(t, x)
    ensures NamesAll(t, src, names)
  {
    forall name | Resolve(t, src + [name]).Some? ensures name in names {
      assert IsPrefix(src, src + [name]);
    }
  }

  /** The next child can be copied. */
  lemma CopyNextReady(t: Rows, u: Rows, src: Path, dst: Path, names: seq<string>, i: nat, first: nat, bound: nat)
    requires i < |names| && Distinct(names) && Resolve(t, src + [names[i]]).Some?
    requires CopiedSome(t, u, src, dst, names[..i], first) && Apart(src, dst) && DepthBelow(t, src, bound)
    ensures CanCopy(u, src + [names[i]], Resolve(t, src + [names[i]]).value, dst, names[i])
    ensures DepthBelow(u, src + [names[i]], bound) && |src| + 1 < bound
  {
    SourceKept(t, u, src, dst, names[..i], first);
    ApartChild(src, dst, names[i]);
    var x := dst + [names[i]];
    assert IsPrefix(dst, x) && !BelowChild(dst, names[..i], x);
    assert IsPrefix(src, src + [names[i]]);
    forall y | IsPrefix(src + [names[i]], y) ensures IsPrefix(src, y) {
      ChildPrefix(src, names[i], y);
    }
  }

  lemma SubEnumeration(t: Rows, u: Rows, src: Path, name: string, sub: seq<Path>)
    requires Enumerates(u, src + [name], sub) && forall x :: IsPrefix(src, x) ==> Resolve(u, x) == Resolve(t, x)
    ensures Enumerates(t, src + [name], sub)
  {
    forall y | IsPrefix(src + [name], y) ensures Resolve(u, y) == Resolve(t, y) {
      ChildPrefix(src, name, y);
    }
  }

  /** Below the new child lies its copy; everything else is as before. */
  lemma CopiedNextAt(t: Rows, u: Rows, v: Rows, src: Path, dst: Path, names: seq<string>, n: string, first: nat,
                     next: nat, x: Path)
    requires CopiedSome(t, u, src, dst, names, first)
    requires forall y :: IsPrefix(src, y) ==> Resolve(u, y) == Resolve(t, y)
    requires CopiesTree(u, v, src + [n], dst + [n], true, next) && first <= next
    requires IsPrefix(dst, x) && x != dst
    ensures CopyOf(if BelowChild(dst, names + [n], x) then Resolve(t, src + x[|dst|..]) else None, Resolve(v, x), first)
  {
    ChildPrefix(dst, n, x);
    if IsPrefix(dst + [n], x) {
      var r := x[|dst| + 1..];
      assert x[|dst + [n]|..] == r;
      assert src + [n] + r == src + x[|dst|..];
      assert IsPrefix(src, src + x[|dst|..]);
      assert CopyOf(Resolve(u, src + [n] + r), Resolve(v, x), next);
    } else {
      assert BelowChild(dst, names + [n], x) == BelowChild(dst, names, x);
    }
  }

  lemma CopiedElsewhere(t: Rows, u: Rows, v: Rows, src: Path, dst: Path, names: seq<string>, n: string, first: nat,
                        next: nat)
    requires CopiedSome(t, u, src, dst, names, first) && CopiesTree(u, v, src + [n], dst + [n], true, next)
    ensures Resolve(v, dst) == Resolve(u, dst) && forall x :: !IsPrefix(dst, x) ==> Resolve(v, x) == Resolve(t, x)
  {
    forall x | !IsPrefix(dst, x) ensures Resolve(v, x) == Resolve(t, x) {
      ChildPrefix(dst, n, x);
    }
    ChildPrefix(dst, n, dst);
  }

  /** A child's copy joins the copies of its elder siblings. */
  lemma CopiedNext(t: Rows, u: Rows, v: Rows, src: Path, dst: Path, names: seq<string>, i: nat, first: nat, next: nat)
    requires i < |names| && Distinct(names) && Apart(src, dst) && CopiedSome(t, u, src, dst, names[..i], first)
    requires CopiesTree(u, v, src + [names[i]], dst + [names[i]], true, next) && first <= next
    ensures CopiedSome(t, v, src, dst, names[..i + 1], first)
  {
    var n := names[i];
    assert names[..i + 1] == names[..i] + [n];
    SourceKept(t, u, src, dst, names[..i], first);
    CopiedElsewhere(t, u, v, src, dst, names[..i], n, first, next);
    forall x | IsPrefix(dst, x) && x != dst
      ensures CopyOf(if BelowChild(dst, names[..i + 1], x) then Resolve(t, src + x[|dst|..]) else None,
                     Resolve(v, x), first)
    {
      CopiedNextAt(t, u, v, src, dst, names[..i], n, first, next, x);
    }
  }

  lemma CopiedAll(t: Rows, u: Rows, src: Path, dst: Path, names: seq<string>, first: nat)
    requires CopiedSome(t, u, src, dst, names, first) && NamesAll(t, src, names)
    ensures CopiesTree(t, u, src, dst, true, first)
  {
    forall x | IsPrefix(dst, x) ensures CopyOf(Resolve(t, src + x[|dst|..]), Resolve(u, x), first) {
      CopiedAllAt(t, u, src, dst, names, first, x);
    }
  }

  lemma CopiedAllAt(t: Rows, u: Rows, src: Path, dst: Path, names: seq<string>, first: nat, x: Path)
    requires CopiedSome(t, u, src, dst, names, first) && NamesAll(t, src, names) && IsPrefix(dst, x)
    ensures CopyOf(Resolve(t, src + x[|dst|..]), Resolve(u, x), first)
  {
    if x == dst {
      assert src + x[|dst|..] == src;
    } else if !BelowChild(dst, names, x) {
      NoSuchChild(t, src, names, x[|dst|], x[|dst| + 1..]);
      assert x[|dst|..] == [x[|dst|]] + x[|dst| + 1..];
    }
  }

  lemma NoSuchChild(t: Rows, src: Path, names: seq<string>, name: string, r: Path)
    requires NamesAll(t, src, names) && name !in names
    ensures Resolve(t, src + ([name] + r)).None?
  {
    assert Resolve(t, src + [name]).None?;
    ResolveConcat(t, src + [name], r);
    assert src + ([name] + r) == src + [name] + r;
  }

  ghost function Names(children: seq<Slot>): (names: seq<string>)
    ensures |names| == |children| && forall i :: 0 <= i < |children| ==> names[i] == children[i].name
  {
    seq(|children|, i requires 0 <= i < |children| => children[i].name)
  }
}
