/** The query of a synchronisation takes letters for equal in both cases, and is cut off before its rows are
    tested: a collection whose name differs from another's in case only can make a client miss a change. */
module SyncMisses {
  import opened DirectoryTree
  import opened DirectoryWalk
  import opened SyncScope
  import opened Sync

  /** Of every changed path that lies below the root up to case, the case is the root's. */
  ghost predicate OneCase(journal: seq<Change>, root: Path) {
    forall i :: 0 <= i < |journal| && IsPrefix(FoldPath(root), FoldPath(journal[i].path)) ==>
      IsPrefix(root, journal[i].path)
  }

  /** Then a synchronisation of a root without characters of several bytes misses nothing. */
  lemma OneCaseMissesNothing(journal: seq<Change>, root: Path, since: int, infinite: bool, limit: nat, current: nat,
                             rows: seq<Row>)
    requires Clean(root) && CleanJournal(journal) && Ascii(Text(root)) && OneCase(journal, root)
    requires IsFetch(journal, Filtering(root, infinite), since, limit + 1, rows)
    ensures !Misses(journal, root, since, infinite, limit, current, rows)
  {
    forall i | 0 <= i < |journal| && Filtering(root, infinite)(journal[i].path)
      ensures InScope(root, journal[i].path, infinite)
    {
      SelectsExactly(root, journal[i].path, infinite);
    }
    NothingForeign(journal, root, since, infinite, limit, current, rows);
  }

  const Journal := [Change(["A", "x"], Created), Change(["A", "y"], Created), Change(["a", "z"], Created)]
  const Rows := [Row(1, ["A", "x"], Created), Row(2, ["A", "y"], Created)]

  lemma LowerText()
    ensures Text(["a"]) == "/a" && Ascii("/a")
  {
    assert ["a"][..0] == [];
    assert Below(["a"]) == Below([]) + "/" + "a";
    assert "/a"[..1] == "/" && "/"[..0] == "";
    assert Utf8Length("/") == 1;
  }

  lemma BelowUpperFolds(name: string)
    ensures IsPrefix(FoldPath(["a"]), FoldPath(["A", name])) && !IsPrefix(["a"], ["A", name])
  {
    assert Fold("A") == "a" && Fold("a") == "a";
    var root, x := FoldPath(["a"]), FoldPath(["A", name]);
    assert root[0] == x[0] && x[..1] == root;
    assert "A" != "a";
    assert ["A", name][..1][0] == "A";
  }

  lemma BelowUpper(name: string)
    requires name == "x" || name == "y"
    ensures Clean(["A", name]) && Filtering(["a"], true)(["A", name]) && !InScope(["a"], ["A", name], true)
  {
    LowerText();
    BelowUpperFolds(name);
    SelectsExactly(["a"], ["A", name], true);
  }

  /** The first two changes are rows of the query. */
  lemma UpperRow(r: nat)
    requires r == 1 || r == 2
    ensures IsFetched(Journal, Filtering(["a"], true), 0, r) && Clean(Journal[r - 1].path)
    ensures Rows[r - 1] == RowAt(Journal, r)
  {
    BelowUpper(if r == 1 then "x" else "y");
  }

  /** A filter that takes the first two changes fetches just these if it is to fetch two. */
  lemma FirstTwo(selects: Filter)
    requires IsFetched(Journal, selects, 0, 1) && IsFetched(Journal, selects, 0, 2)
    ensures IsFetch(Journal, selects, 0, 2, Rows)
  {
    assert Rows[0] == RowAt(Journal, 1) && Rows[1] == RowAt(Journal, 2);
    assert FetchedOf(Journal, selects, 0, Rows);
    forall r | r <= 2 && IsFetched(Journal, selects, 0, r) ensures RowAt(Journal, r) in Rows {
      assert r == 1 || r == 2;
    }
  }

  lemma UpperFetched()
    ensures CleanJournal(Journal) && IsFetch(Journal, Filtering(["a"], true), 0, 2, Rows)
  {
    UpperRow(1);
    UpperRow(2);
    FirstTwo(Filtering(["a"], true));
  }

  lemma UpperNotKept()
    ensures !InScope(["a"], Rows[0].path, true) && Kept(Rows, ["a"], true) == []
  {
    BelowUpper("x");
    BelowUpper("y");
    assert Rows[..1][..0] == [];
    assert Kept(Rows[..1], ["a"], true) == [];
  }

  /** Two changes below /A fill the query for one change of /a, and the change below /a is in no page. */
  lemma CanMiss()
    ensures CleanJournal(Journal) && IsFetch(Journal, Filtering(["a"], true), 0, 2, Rows)
    ensures Misses(Journal, ["a"], 0, true, 1, 3, Rows)
    ensures PageOf(Rows, ["a"], true, 1, 3) == Page([], false, 3)
  {
    UpperFetched();
    UpperNotKept();
    assert InScope(["a"], ["a", "z"], true) by { assert ["a", "z"][..1] == ["a"]; }
    assert IsRow(Journal, ["a"], 0, true, 3);
  }
}
