/** The directory table as a tree of paths (directory/db_directory.go).  Rows are keyed by their
    unique (parent, name) pair; a path is the sequence of its components, the root being []. */
module DirectoryTree {

  datatype Option<T> = None | Some(value: T)

  type Path = seq<string>

  datatype Kind = Dir | File
  datatype Entry = Entry(id: nat, kind: Kind, ref: string, size: int)
  datatype Slot = Slot(parent: nat, name: string)
  type Rows = map<Slot, Entry>

  const RootSlot := Slot(0, "/")

  predicate IsPrefix(p: Path, q: Path) {
    |p| <= |q| && q[..|p|] == p
  }

  // ---------------------------------------------------------------------------
  // Resolving paths
  // ---------------------------------------------------------------------------

  /** The entry that the components `r` lead to from entry `e`. */
  function Find(t: Rows, e: Entry, r: Path): Option<Entry>
    decreases r
  {
    if r == [] then Some(e)
    else if e.kind.Dir? && Slot(e.id, r[0]) in t then Find(t, t[Slot(e.id, r[0])], r[1..])
    else None
  }

  function Resolve(t: Rows, p: Path): Option<Entry> {
    if RootSlot in t then Find(t, t[RootSlot], p) else None
  }

  lemma {:induction false} FindConcat(t: Rows, e: Entry, p: Path, q: Path)
    ensures Find(t, e, p + q) == (if Find(t, e, p).Some? then Find(t, Find(t, e, p).value, q) else None)
    decreases p
  {
    if p == [] {
      assert p + q == q;
    } else {
      assert (p + q)[0] == p[0] && (p + q)[1..] == p[1..] + q;
      if e.kind.Dir? && Slot(e.id, p[0]) in t {
        FindConcat(t, t[Slot(e.id, p[0])], p[1..], q);
      }
    }
  }

  lemma ResolveConcat(t: Rows, p: Path, q: Path)
    ensures Resolve(t, p + q) == (if Resolve(t, p).Some? then Find(t, Resolve(t, p).value, q) else None)
  {
    if RootSlot in t { FindConcat(t, t[RootSlot], p, q); }
  }

  /** One more component. */
  lemma ResolveChild(t: Rows, p: Path, name: string)
    ensures Resolve(t, p + [name]) == (
      if Resolve(t, p).Some? && Resolve(t, p).value.kind.Dir? && Slot(Resolve(t, p).value.id, name) in t
      then Some(t[Slot(Resolve(t, p).value.id, name)]) else None)
  {
    ResolveConcat(t, p, [name]);
    if Resolve(t, p).Some? {
      var e := Resolve(t, p).value;
      if e.kind.Dir? && Slot(e.id, name) in t {
        assert Find(t, e, [name]) == Find(t, t[Slot(e.id, name)], [name][1..]);
      }
    }
  }

  /** What lies above an existing path exists and is a directory. */
  lemma ResolvePrefix(t: Rows, p: Path, q: Path)
    requires IsPrefix(p, q) && Resolve(t, q).Some?
    ensures Resolve(t, p).Some? && (p != q ==> Resolve(t, p).value.kind.Dir?)
  {
    assert q == p + q[|p|..];
    ResolveConcat(t, p, q[|p|..]);
  }

  // ---------------------------------------------------------------------------
  // The table is a tree
  // ---------------------------------------------------------------------------

  ghost predicate IdsSound(t: Rows) {
    && (forall s :: s in t ==> t[s].id != 0)
    && (forall s, u :: s in t && u in t && t[s].id == t[u].id ==> s == u)
    && (forall s :: s in t && s.parent == 0 ==> s == RootSlot)
    && (RootSlot in t ==> t[RootSlot].kind.Dir?)
  }

  /** The slot of the entry at `p`. */
  function SlotOf(t: Rows, p: Path): Slot
    requires p != [] ==> Resolve(t, p[..|p| - 1]).Some?
  {
    if p == [] then RootSlot else Slot(Resolve(t, p[..|p| - 1]).value.id, p[|p| - 1])
  }

  /** The row in slot `s` can be reached from the root. */
  ghost predicate HasPath(t: Rows, s: Slot)
    requires s in t
  {
    exists p :: Resolve(t, p) == Some(t[s])
  }

  ghost predicate Tree(t: Rows) {
    IdsSound(t) && forall s :: s in t ==> HasPath(t, s)
  }

  lemma ResolveLast(t: Rows, p: Path)
    requires p != [] && Resolve(t, p).Some?
    ensures var parent := p[..|p| - 1];
      && Resolve(t, parent).Some? && Resolve(t, parent).value.kind.Dir?
      && SlotOf(t, p) in t && Resolve(t, p) == Some(t[SlotOf(t, p)])
  {
    assert p == p[..|p| - 1] + [p[|p| - 1]];
    ResolveChild(t, p[..|p| - 1], p[|p| - 1]);
  }

  lemma ResolveIsRow(t: Rows, p: Path)
    requires Resolve(t, p).Some?
    ensures (p != [] ==> Resolve(t, p[..|p| - 1]).Some?) && SlotOf(t, p) in t && Resolve(t, p).value == t[SlotOf(t, p)]
  {
    if p != [] { ResolveLast(t, p); }
  }

  /** An entry has one path: the table has no cycles and no sharing. */
  lemma {:induction false} PathUnique(t: Rows, p: Path, q: Path)
    requires IdsSound(t) && Resolve(t, p).Some? && Resolve(t, q).Some?
    requires Resolve(t, p).value.id == Resolve(t, q).value.id
    ensures p == q
    decreases |p|
  {
    ResolveIsRow(t, p);
    ResolveIsRow(t, q);
    assert SlotOf(t, p) == SlotOf(t, q);
    if p != [] && q != [] {
      ResolveLast(t, p);
      ResolveLast(t, q);
      PathUnique(t, p[..|p| - 1], q[..|q| - 1]);
      assert p == p[..|p| - 1] + [p[|p| - 1]] && q == q[..|q| - 1] + [q[|q| - 1]];
    } else if p != [] {
      ResolveLast(t, p);
      ResolveIsRow(t, p[..|p| - 1]);
    } else if q != [] {
      ResolveLast(t, q);
      ResolveIsRow(t, q[..|q| - 1]);
    }
  }

  // ---------------------------------------------------------------------------
  // The four ways the table changes
  // ---------------------------------------------------------------------------

  /** A new row with a new id under the directory at `p`. */
  lemma InsertResolve(t: Rows, p: Path, name: string, e: Entry, x: Path)
    requires IdsSound(t) && Resolve(t, p).Some? && Resolve(t, p).value.kind.Dir?
    requires Slot(Resolve(t, p).value.id, name) !in t && forall s :: s in t ==> s.parent != e.id
    requires e.id != Resolve(t, p).value.id
    ensures var u := t[Slot(Resolve(t, p).value.id, name) := e];
      Resolve(u, x) == if x == p + [name] then Some(e) else Resolve(t, x)
    decreases |x|
  {
    var d := Resolve(t, p).value;
    var slot := Slot(d.id, name);
    var u := t[slot := e];
    ResolveIsRow(t, p);
    assert slot != RootSlot by {
      assert t[SlotOf(t, p)].id != 0;
    }
    if x == [] {
    } else {
      var m := |x| - 1;
      assert x == x[..m] + [x[m]];
      InsertResolve(t, p, name, e, x[..m]);
      ResolveChild(t, x[..m], x[m]);
      ResolveChild(u, x[..m], x[m]);
      if x[..m] == p + [name] {
        ResolveChild(t, p, name);
        assert Slot(e.id, x[m]) !in u;
      } else if Resolve(t, x[..m]).Some? && Resolve(t, x[..m]).value.id == d.id {
        PathUnique(t, x[..m], p);
      }
    }
  }

  /** The row at `p` is replaced by one with the same id and kind. */
  lemma UpdateResolve(t: Rows, p: Path, e: Entry, x: Path)
    requires IdsSound(t) && Resolve(t, p).Some?
    requires e.id == Resolve(t, p).value.id && e.kind == Resolve(t, p).value.kind
    requires p != [] ==> Resolve(t, p[..|p| - 1]).Some?
    ensures var u := t[SlotOf(t, p) := e];
      Resolve(u, x) == if x == p then Some(e) else Resolve(t, x)
    decreases |x|
  {
    ResolveIsRow(t, p);
    var u := t[SlotOf(t, p) := e];
    if x == [] {
      if p != [] {
        ResolveLast(t, p);
        ResolveIsRow(t, p[..|p| - 1]);
      }
    } else {
      var m := |x| - 1;
      assert x == x[..m] + [x[m]];
      UpdateResolve(t, p, e, x[..m]);
      ResolveChild(t, x[..m], x[m]);
      ResolveChild(u, x[..m], x[m]);
      if Resolve(t, x).Some? {
        ResolveLast(t, x);
        if SlotOf(t, x) == SlotOf(t, p) { PathUnique(t, x, p); }
      }
    }
  }

  /** The row at `p`, which has nothing below it, is removed. */
  lemma RemoveResolve(t: Rows, p: Path, x: Path)
    requires IdsSound(t) && Resolve(t, p).Some?
    requires p != [] ==> Resolve(t, p[..|p| - 1]).Some?
    requires forall name :: Resolve(t, p + [name]).None?
    ensures var u := t - {SlotOf(t, p)};
      Resolve(u, x) == if x == p then None else Resolve(t, x)
    decreases |x|
  {
    ResolveIsRow(t, p);
    var u := t - {SlotOf(t, p)};
    if x == [] {
      if p != [] {
        ResolveLast(t, p);
        ResolveIsRow(t, p[..|p| - 1]);
      }
    } else {
      var m := |x| - 1;
      assert x == x[..m] + [x[m]];
      RemoveResolve(t, p, x[..m]);
      ResolveChild(t, x[..m], x[m]);
      ResolveChild(u, x[..m], x[m]);
      if x[..m] == p {
        assert Resolve(t, p + [x[m]]).None?;
      } else if Resolve(t, x).Some? {
        ResolveLast(t, x);
        if SlotOf(t, x) == SlotOf(t, p) { PathUnique(t, x, p); }
      }
    }
  }

  /** What a move makes of path `x`: below the destination lies what lay below the source. */
  ghost function Moved(t: Rows, src: Path, dst: Path, x: Path): Option<Entry> {
    if IsPrefix(dst, x) then Resolve(t, src + x[|dst|..])
    else if IsPrefix(src, x) then None
    else Resolve(t, x)
  }

  /** The row at `src` is given a free slot elsewhere, outside its own tree. */
  ghost predicate CanMove(t: Rows, src: Path, parent: Path, name: string) {
    && IdsSound(t) && src != [] && Resolve(t, src).Some?
    && Resolve(t, src[..|src| - 1]).Some?
    && Resolve(t, parent).Some? && Resolve(t, parent).value.kind.Dir?
    && Slot(Resolve(t, parent).value.id, name) !in t
    && !IsPrefix(src, parent)
  }

  ghost function MoveRow(t: Rows, src: Path, parent: Path, name: string): Rows
    requires CanMove(t, src, parent, name)
  {
    (t - {SlotOf(t, src)})[Slot(Resolve(t, parent).value.id, name) := Resolve(t, src).value]
  }

  lemma PrefixSnoc(p: Path, y: Path, c: string)
    ensures IsPrefix(p, y + [c]) <==> IsPrefix(p, y) || p == y + [c]
    ensures IsPrefix(p, y) ==> (y + [c])[|p|..] == y[|p|..] + [c]
  {
    if |p| <= |y| { assert (y + [c])[..|p|] == y[..|p|]; }
    if |p| == |y| + 1 { assert (y + [c])[..|p|] == y + [c]; }
  }

  /** Below the destination: the slots used are the same in both tables. */
  lemma MoveBelow(t: Rows, src: Path, parent: Path, name: string, r: Path, c: string)
    requires CanMove(t, src, parent, name)
    requires Resolve(MoveRow(t, src, parent, name), parent + [name] + r) == Resolve(t, src + r)
    ensures Resolve(MoveRow(t, src, parent, name), parent + [name] + r + [c]) == Resolve(t, src + r + [c])
  {
    var u := MoveRow(t, src, parent, name);
    ResolveChild(t, src + r, c);
    ResolveChild(u, parent + [name] + r, c);
    if Resolve(t, src + r).Some? && Resolve(t, src + r).value.kind.Dir? {
      var d := Resolve(t, src + r).value;
      if d.id == Resolve(t, parent).value.id {
        PathUnique(t, src + r, parent);
      }
      ResolveLast(t, src);
      if Slot(d.id, c) == SlotOf(t, src) {
        PathUnique(t, src + r + [c], src);
      }
    }
  }

  lemma MoveResolve(t: Rows, src: Path, parent: Path, name: string, x: Path)
    requires CanMove(t, src, parent, name)
    ensures Resolve(MoveRow(t, src, parent, name), x) == Moved(t, src, parent + [name], x)
    decreases |x|
  {
    var u := MoveRow(t, src, parent, name);
    var dst := parent + [name];
    ResolveLast(t, src);
    ResolveIsRow(t, src[..|src| - 1]);
    ResolveIsRow(t, parent);
    if x != [] {
      var m := |x| - 1;
      var y, c := x[..m], x[m];
      assert x == y + [c];
      MoveResolve(t, src, parent, name, y);
      PrefixSnoc(dst, y, c);
      PrefixSnoc(src, y, c);
      if IsPrefix(dst, y) {
        var r := y[|dst|..];
        assert y == dst + r && src + x[|dst|..] == src + r + [c];
        MoveBelow(t, src, parent, name, r, c);
      } else {
        MoveElsewhere(t, src, parent, name, y, c);
      }
    }
  }

  /** Outside the destination: the slot of the source is gone and the new slot is there. */
  lemma MoveElsewhere(t: Rows, src: Path, parent: Path, name: string, y: Path, c: string)
    requires CanMove(t, src, parent, name) && !IsPrefix(parent + [name], y)
    requires Resolve(MoveRow(t, src, parent, name), y) == Moved(t, src, parent + [name], y)
    ensures Resolve(MoveRow(t, src, parent, name), y + [c]) == Moved(t, src, parent + [name], y + [c])
  {
    var u := MoveRow(t, src, parent, name);
    var dst := parent + [name];
    var x := y + [c];
    PrefixSnoc(dst, y, c);
    PrefixSnoc(src, y, c);
    ResolveChild(t, y, c);
    ResolveChild(u, y, c);
    ResolveLast(t, src);
    if x == dst {
      assert x[..|y|] == y && dst[..|parent|] == parent && x[|y|] == c;
      assert src + x[|dst|..] == src;
    } else if !IsPrefix(src, y) {
      if Resolve(t, y).Some? && Resolve(t, y).value.kind.Dir? {
        var d := Resolve(t, y).value;
        if d.id == Resolve(t, parent).value.id {
          PathUnique(t, y, parent);
        }
        if Slot(d.id, c) == SlotOf(t, src) {
          PathUnique(t, x, src);
        }
      }
    }
  }

  // ---------------------------------------------------------------------------
  // Each change keeps the tree
  // ---------------------------------------------------------------------------

  lemma InsertTree(t: Rows, p: Path, name: string, e: Entry)
    requires Tree(t) && Resolve(t, p).Some? && Resolve(t, p).value.kind.Dir?
    requires Slot(Resolve(t, p).value.id, name) !in t
    requires e.id != 0 && (forall s :: s in t ==> t[s].id != e.id && s.parent != e.id)
    ensures Tree(t[Slot(Resolve(t, p).value.id, name) := e])
  {
    var slot := Slot(Resolve(t, p).value.id, name);
    var u := t[slot := e];
    ResolveIsRow(t, p);
    forall s | s in u ensures HasPath(u, s) {
      if s == slot {
        InsertResolve(t, p, name, e, p + [name]);
      } else {
        var q :| Resolve(t, q) == Some(t[s]);
        InsertResolve(t, p, name, e, q);
        ResolveChild(t, p, name);
      }
    }
  }

  lemma UpdatedIds(t: Rows, slot: Slot, e: Entry)
    requires IdsSound(t) && slot in t && e.id == t[slot].id && e.kind == t[slot].kind
    ensures IdsSound(t[slot := e])
  {
  }

  lemma UpdateTree(t: Rows, p: Path, e: Entry)
    requires Tree(t) && Resolve(t, p).Some? && (p != [] ==> Resolve(t, p[..|p| - 1]).Some?)
    requires e.id == Resolve(t, p).value.id && e.kind == Resolve(t, p).value.kind
    ensures Tree(t[SlotOf(t, p) := e])
  {
    ResolveIsRow(t, p);
    UpdatedIds(t, SlotOf(t, p), e);
    forall s | s in t ensures HasPath(t[SlotOf(t, p) := e], s) {
      UpdatedPath(t, p, e, s);
    }
  }

  lemma UpdatedPath(t: Rows, p: Path, e: Entry, s: Slot)
    requires Tree(t) && Resolve(t, p).Some? && (p != [] ==> Resolve(t, p[..|p| - 1]).Some?)
    requires e.id == Resolve(t, p).value.id && e.kind == Resolve(t, p).value.kind && s in t
    ensures HasPath(t[SlotOf(t, p) := e], s)
  {
    ResolveIsRow(t, p);
    if s == SlotOf(t, p) {
      UpdateResolve(t, p, e, p);
    } else {
      var q :| Resolve(t, q) == Some(t[s]);
      UpdateResolve(t, p, e, q);
    }
  }

  lemma RemoveTree(t: Rows, p: Path)
    requires Tree(t) && Resolve(t, p).Some? && (p != [] ==> Resolve(t, p[..|p| - 1]).Some?)
    requires forall name :: Resolve(t, p + [name]).None?
    ensures Tree(t - {SlotOf(t, p)})
  {
    var u := t - {SlotOf(t, p)};
    ResolveIsRow(t, p);
    forall s | s in u ensures HasPath(u, s) {
      var q :| Resolve(t, q) == Some(t[s]);
      RemoveResolve(t, p, q);
    }
  }

  /** Every row has a path after a move. */
  lemma MovedPath(t: Rows, src: Path, parent: Path, name: string, q: Path) returns (x: Path)
    requires CanMove(t, src, parent, name) && Resolve(t, q).Some?
    ensures Resolve(MoveRow(t, src, parent, name), x) == Resolve(t, q)
  {
    var dst := parent + [name];
    if IsPrefix(src, q) {
      var r := q[|src|..];
      x := dst + r;
      assert q == src + r && x[|dst|..] == r && IsPrefix(dst, x);
    } else {
      x := q;
      if IsPrefix(dst, q) {
        ResolvePrefix(t, dst, q);
        ResolveChild(t, parent, name);
      }
    }
    MoveResolve(t, src, parent, name, x);
  }

  lemma MoveTree(t: Rows, src: Path, parent: Path, name: string)
    requires Tree(t) && CanMove(t, src, parent, name)
    ensures Tree(MoveRow(t, src, parent, name))
  {
    var u := MoveRow(t, src, parent, name);
    ResolveLast(t, src);
    ResolveIsRow(t, parent);
    forall s | s in u ensures HasPath(u, s) {
      var q: Path;
      if s == Slot(Resolve(t, parent).value.id, name) {
        q := src;
      } else {
        q :| Resolve(t, q) == Some(t[s]);
      }
      var x := MovedPath(t, src, parent, name, q);
    }
  }
}
