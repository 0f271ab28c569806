/** Reading the change journal in pages, and the client that follows the pages
    (filemgr/webdav_protocol.go, sections 3.5 and 3.6 of RFC 6578).  Revision r is the r-th row of
    the journal, counted from one. */
module Sync {
  import opened DirectoryTree
  import opened DirectoryWalk
  import opened SyncScope

  datatype Row = Row(revision: nat, path: Path, kind: ChangeKind)
  datatype Page = Page(changes: seq<Row>, more: bool, revision: nat)
  datatype Result = Ok(page: Page) | InvalidToken

  const DEFAULT_LIMIT := 1000

  // ---------------------------------------------------------------------------
  // Revisions
  // ---------------------------------------------------------------------------

  /** The revision of the last change of `x`, or 0. */
  ghost function LatestRevision(journal: seq<Change>, x: Path): nat {
    if journal == [] then 0
    else if journal[|journal| - 1].path == x then |journal|
    else LatestRevision(journal[..|journal| - 1], x)
  }

  ghost predicate IsLatest(journal: seq<Change>, r: int) {
    0 < r <= |journal| && forall i :: r <= i < |journal| ==> journal[i].path != journal[r - 1].path
  }

  lemma {:induction false} RevisionMeans(journal: seq<Change>, x: Path)
    ensures LatestRevision(journal, x) <= |journal|
    ensures LatestRevision(journal, x) > 0 ==> journal[LatestRevision(journal, x) - 1].path == x
    ensures forall i :: LatestRevision(journal, x) <= i < |journal| ==> journal[i].path != x
    ensures Latest(journal, x) ==
      if LatestRevision(journal, x) == 0 then None else Some(journal[LatestRevision(journal, x) - 1].kind)
    decreases |journal|
  {
    if journal != [] {
      var shorter := journal[..|journal| - 1];
      RevisionMeans(shorter, x);
      if journal[|journal| - 1].path != x {
        forall i | LatestRevision(journal, x) <= i < |journal| ensures journal[i].path != x {
          if i < |shorter| { assert journal[i] == shorter[i]; }
        }
      }
    }
  }

  lemma LatestIsRevision(journal: seq<Change>, r: nat)
    requires IsLatest(journal, r)
    ensures LatestRevision(journal, journal[r - 1].path) == r
  {
    RevisionMeans(journal, journal[r - 1].path);
  }

  /** What was last changed in `j` and not since is as the longer journal says. */
  lemma {:induction false} SameSince(j: seq<Change>, k: seq<Change>, x: Path)
    requires j <= k && LatestRevision(k, x) <= |j|
    ensures LatestRevision(j, x) == LatestRevision(k, x) && Latest(j, x) == Latest(k, x)
    decreases |k|
  {
    if |j| == |k| {
      assert j == k;
    } else {
      RevisionMeans(k[..|k| - 1], x);
      SameSince(j, k[..|k| - 1], x);
    }
  }

  // ---------------------------------------------------------------------------
  // The page
  // ---------------------------------------------------------------------------

  /** What the query selects. */
  type Filter = Path -> bool

  function Filtering(root: Path, infinite: bool): Filter {
    x => Selects(Text(root), Text(x), infinite)
  }

  /** A row that a page is about: the latest change of a path in scope, after `since`. */
  ghost predicate IsRow(journal: seq<Change>, root: Path, since: int, infinite: bool, r: int) {
    since < r && IsLatest(journal, r) && InScope(root, journal[r - 1].path, infinite)
  }

  function RowAt(journal: seq<Change>, r: nat): Row
    requires 0 < r <= |journal|
  {
    Row(r, journal[r - 1].path, journal[r - 1].kind)
  }

  ghost predicate Ascending(rows: seq<Row>) {
    forall i, j :: 0 <= i < j < |rows| ==> rows[i].revision < rows[j].revision
  }

  ghost predicate RowsOf(journal: seq<Change>, root: Path, since: int, infinite: bool, rows: seq<Row>) {
    && Ascending(rows)
    && forall i :: 0 <= i < |rows| ==>
         IsRow(journal, root, since, infinite, rows[i].revision) && rows[i] == RowAt(journal, rows[i].revision)
  }

  /** Every row up to revision `upto` is listed. */
  ghost predicate Complete(journal: seq<Change>, root: Path, since: int, infinite: bool, rows: seq<Row>, upto: int) {
    forall r :: r <= upto && IsRow(journal, root, since, infinite, r) ==> RowAt(journal, r) in rows
  }

  /** A row of the query. */
  ghost predicate IsFetched(journal: seq<Change>, selects: Filter, since: int, r: int) {
    since < r && IsLatest(journal, r) && selects(journal[r - 1].path)
  }

  ghost predicate FetchedOf(journal: seq<Change>, selects: Filter, since: int, rows: seq<Row>) {
    && Ascending(rows)
    && forall i :: 0 <= i < |rows| ==>
         IsFetched(journal, selects, since, rows[i].revision) && rows[i] == RowAt(journal, rows[i].revision)
  }

  ghost predicate AllFetched(journal: seq<Change>, selects: Filter, since: int, rows: seq<Row>, upto: int) {
    forall r :: r <= upto && IsFetched(journal, selects, since, r) ==> RowAt(journal, r) in rows
  }

  /** What the query gives: its first rows, up to a limit. */
  ghost predicate IsFetch(journal: seq<Change>, selects: Filter, since: int, limit: nat, rows: seq<Row>) {
    && FetchedOf(journal, selects, since, rows) && |rows| <= limit
    && AllFetched(journal, selects, since, rows,
                  if |rows| < limit || limit == 0 then |journal| else rows[|rows| - 1].revision)
  }

  /** The query: the latest change of each changed path that it selects in revision order, up to a limit. */
  method Query(journal: seq<Change>, selects: Filter, since: nat, limit: nat) returns (rows: seq<Row>)
    requires since <= |journal| && limit > 0
    ensures IsFetch(journal, selects, since, limit, rows)
  {
    rows := [];
    var r := since;
    while r < |journal| && |rows| < limit
      invariant since <= r <= |journal| && |rows| <= limit
      invariant FetchedOf(journal, selects, since, rows)
      invariant forall i :: 0 <= i < |rows| ==> rows[i].revision <= r
      invariant AllFetched(journal, selects, since, rows, r)
      invariant |rows| == limit ==> rows[limit - 1].revision == r
    {
      r := r + 1;
      var latest := ChangedLast(journal, r);
      if latest && selects(journal[r - 1].path) {
        rows := rows + [RowAt(journal, r)];
        assert rows[|rows| - 1] == RowAt(journal, r);
      }
    }
  }

  /** Whether revision `r` is the greatest of its path. */
  method ChangedLast(journal: seq<Change>, r: nat) returns (latest: bool)
    requires 0 < r <= |journal|
    ensures latest <==> IsLatest(journal, r)
  {
    latest := true;
    for i := r to |journal|
      invariant latest <==> forall k :: r <= k < i ==> journal[k].path != journal[r - 1].path
    {
      if journal[i].path == journal[r - 1].path {
        latest := false;
      }
    }
  }

  /** What a page promises: some first rows, and a token up to which they are complete. */
  ghost predicate IsPage(journal: seq<Change>, root: Path, since: int, infinite: bool, limit: nat, current: nat,
                         page: Page)
  {
    && limit > 0 && current <= |journal|
    && RowsOf(journal, root, since, infinite, page.changes) && |page.changes| <= limit
    && Complete(journal, root, since, infinite, page.changes, page.revision)
    && (if page.more then |page.changes| == limit && page.revision == page.changes[limit - 1].revision
        else page.revision == current)
  }

  /** The rows in scope, in order. */
  function Kept(rows: seq<Row>, root: Path, infinite: bool): (kept: seq<Row>)
    ensures |kept| <= |rows|
  {
    if rows == [] then []
    else
      var n := |rows| - 1;
      var kept := Kept(rows[..n], root, infinite);
      if InScope(root, rows[n].path, infinite) then kept + [rows[n]] else kept
  }

  /** The page that the code makes of the rows of its query. */
  function PageOf(rows: seq<Row>, root: Path, infinite: bool, limit: nat, current: nat): Page
    requires limit > 0
  {
    var kept := Kept(rows, root, infinite);
    if |kept| > limit then Page(kept[..limit], true, kept[limit - 1].revision) else Page(kept, false, current)
  }

  ghost predicate CleanRows(rows: seq<Row>) {
    forall i :: 0 <= i < |rows| ==> Clean(rows[i].path)
  }

  ghost predicate CleanJournal(journal: seq<Change>) {
    forall i :: 0 <= i < |journal| ==> Clean(journal[i].path)
  }

  /** The test of a row, on texts. */
  method TestScope(root: Path, path: Path, infinite: bool) returns (inScope: bool)
    requires Clean(root) && Clean(path)
    ensures inScope == InScope(root, path, infinite)
  {
    ScopeExactly(root, path, infinite);
    inScope := ChangeInScope(Text(root), Text(path), infinite);
  }

  /** scanWebDAVChanges. */
  method Scan(rows: seq<Row>, root: Path, infinite: bool, limit: nat, current: nat) returns (page: Page)
    requires limit > 0 && |rows| <= limit + 1 && Clean(root) && CleanRows(rows)
    ensures page == PageOf(rows, root, infinite, limit, current)
  {
    page := Page([], false, current);
    for i := 0 to |rows|
      invariant page == Page(Kept(rows[..i], root, infinite), false, current) && |page.changes| <= limit
    {
      assert rows[..i + 1][..i] == rows[..i];
      var inScope := TestScope(root, rows[i].path, infinite);
      if !inScope {
        continue;
      }
      if |page.changes| == limit {
        assert i == limit && rows[..i + 1] == rows;
        page := Page(page.changes, true, page.changes[limit - 1].revision);
        return;
      }
      page := page.(changes := page.changes + [rows[i]]);
    }
    assert rows[..|rows|] == rows;
  }

  /** The query was cut off, some of its rows are out of scope, and a change in scope comes after them: it is in
      no page, though the token passes it. */
  ghost predicate Misses(journal: seq<Change>, root: Path, since: int, infinite: bool, limit: nat, current: nat,
                         rows: seq<Row>)
  {
    && |rows| == limit + 1 && (exists i :: 0 <= i < |rows| && !InScope(root, rows[i].path, infinite))
    && exists r :: rows[limit].revision < r <= current && IsRow(journal, root, since, infinite, r)
  }

  /** WebDAVChanges: the current revision is read first, the changes from a journal that may have grown since.  The
      page is complete up to its token exactly if the query misses nothing. */
  method WebDAVChanges(before: seq<Change>, journal: seq<Change>, root: Path, since: int, infinite: bool, limit: int)
    returns (result: Result, ghost rows: seq<Row>)
    requires before <= journal && Clean(root) && CleanJournal(journal)
    ensures result.InvalidToken? <==> since > |before|
    ensures since < 0 ==> result == Ok(Page([], false, |before|))
    ensures 0 <= since <= |before| ==>
      && IsFetch(journal, Filtering(root, infinite), since, PageLimit(limit) + 1, rows)
      && result == Ok(PageOf(rows, root, infinite, PageLimit(limit), |before|))
      && (IsPage(journal, root, since, infinite, PageLimit(limit), |before|, result.page)
          <==> !Misses(journal, root, since, infinite, PageLimit(limit), |before|, rows))
  {
    var current := |before|;
    rows := [];
    if since < 0 {
      return Ok(Page([], false, current)), [];
    }
    if since > current {
      return InvalidToken, [];
    }
    var fetched := Query(journal, Filtering(root, infinite), since, PageLimit(limit) + 1);
    rows := fetched;
    var page := Scan(fetched, root, infinite, PageLimit(limit), current);
    PageExactly(journal, root, since, infinite, PageLimit(limit), current, rows);
    result := Ok(page);
  }

  function PageLimit(limit: int): (n: nat)
    ensures n > 0 && (limit > 0 ==> n == limit)
  {
    if limit <= 0 then DEFAULT_LIMIT else limit
  }

  // ---------------------------------------------------------------------------
  // When a page is complete
  // ---------------------------------------------------------------------------

  lemma {:induction false} KeptIs(rows: seq<Row>, root: Path, infinite: bool)
    ensures forall x :: x in Kept(rows, root, infinite) <==> x in rows && InScope(root, x.path, infinite)
  {
    if rows != [] {
      KeptIs(rows[..|rows| - 1], root, infinite);
      assert rows == rows[..|rows| - 1] + [rows[|rows| - 1]];
    }
  }

  lemma {:induction false} KeptEvery(rows: seq<Row>, root: Path, infinite: bool)
    requires forall i :: 0 <= i < |rows| ==> InScope(root, rows[i].path, infinite)
    ensures Kept(rows, root, infinite) == rows
  {
    if rows != [] {
      var n := |rows| - 1;
      KeptEvery(rows[..n], root, infinite);
      assert rows == rows[..n] + [rows[n]];
    }
  }

  lemma {:induction false} KeptFewer(rows: seq<Row>, root: Path, infinite: bool, i: nat)
    requires i < |rows| && !InScope(root, rows[i].path, infinite)
    ensures |Kept(rows, root, infinite)| < |rows|
  {
    var n := |rows| - 1;
    if i < n {
      KeptFewer(rows[..n], root, infinite, i);
    }
  }

  lemma KeptAll(rows: seq<Row>, root: Path, infinite: bool)
    ensures |Kept(rows, root, infinite)| == |rows| <==>
      forall i :: 0 <= i < |rows| ==> InScope(root, rows[i].path, infinite)
    ensures |Kept(rows, root, infinite)| == |rows| ==> Kept(rows, root, infinite) == rows
  {
    if i :| 0 <= i < |rows| && !InScope(root, rows[i].path, infinite) {
      KeptFewer(rows, root, infinite, i);
    } else {
      KeptEvery(rows, root, infinite);
    }
  }

  lemma {:induction false} KeptAscends(rows: seq<Row>, root: Path, infinite: bool)
    requires Ascending(rows)
    ensures Ascending(Kept(rows, root, infinite))
  {
    if rows != [] {
      var n := |rows| - 1;
      var kept := Kept(rows[..n], root, infinite);
      KeptAscends(rows[..n], root, infinite);
      KeptIs(rows[..n], root, infinite);
      forall i | 0 <= i < |kept| ensures kept[i].revision < rows[n].revision {
        assert kept[i] in kept;
        var j :| 0 <= j < n && rows[..n][j] == kept[i];
      }
    }
  }

  /** The rows of a page are rows in scope. */
  lemma KeptRows(journal: seq<Change>, root: Path, since: int, infinite: bool, rows: seq<Row>)
    requires FetchedOf(journal, Filtering(root, infinite), since, rows)
    ensures RowsOf(journal, root, since, infinite, Kept(rows, root, infinite))
  {
    KeptIs(rows, root, infinite);
    KeptAscends(rows, root, infinite);
    var kept := Kept(rows, root, infinite);
    forall i | 0 <= i < |kept|
      ensures IsRow(journal, root, since, infinite, kept[i].revision) && kept[i] == RowAt(journal, kept[i].revision)
    {
      assert kept[i] in kept;
      var j :| 0 <= j < |rows| && rows[j] == kept[i];
    }
  }

  /** A row in scope is fetched as far as the query goes. */
  lemma RowIsKept(journal: seq<Change>, root: Path, since: int, infinite: bool, rows: seq<Row>, upto: int, r: int)
    requires Clean(root) && CleanJournal(journal) && AllFetched(journal, Filtering(root, infinite), since, rows, upto)
    requires r <= upto && IsRow(journal, root, since, infinite, r)
    ensures RowAt(journal, r) in Kept(rows, root, infinite)
  {
    ScopeIsSelected(root, journal[r - 1].path, infinite);
    assert IsFetched(journal, Filtering(root, infinite), since, r);
    KeptIs(rows, root, infinite);
  }

  lemma KeptComplete(journal: seq<Change>, root: Path, since: int, infinite: bool, rows: seq<Row>, upto: int)
    requires Clean(root) && CleanJournal(journal) && AllFetched(journal, Filtering(root, infinite), since, rows, upto)
    ensures Complete(journal, root, since, infinite, Kept(rows, root, infinite), upto)
  {
    forall r | r <= upto && IsRow(journal, root, since, infinite, r)
      ensures RowAt(journal, r) in Kept(rows, root, infinite)
    {
      RowIsKept(journal, root, since, infinite, rows, upto, r);
    }
  }

  /** The first rows are complete up to the last of them. */
  lemma ShorterComplete(journal: seq<Change>, root: Path, since: int, infinite: bool, rows: seq<Row>, n: nat)
    requires 0 < n < |rows| && RowsOf(journal, root, since, infinite, rows)
    requires Complete(journal, root, since, infinite, rows, rows[|rows| - 1].revision)
    ensures RowsOf(journal, root, since, infinite, rows[..n])
    ensures Complete(journal, root, since, infinite, rows[..n], rows[n - 1].revision)
  {
    forall r | r <= rows[n - 1].revision && IsRow(journal, root, since, infinite, r)
      ensures RowAt(journal, r) in rows[..n]
    {
      var i :| 0 <= i < |rows| && rows[i] == RowAt(journal, r);
      if i < n { assert rows[..n][i] == rows[i]; }
    }
  }

  /** A page of a query that was not cut off, or cut off with all its rows in scope, is complete. */
  lemma WholePage(journal: seq<Change>, root: Path, since: int, infinite: bool, limit: nat, current: nat,
                  rows: seq<Row>)
    requires limit > 0 && current <= |journal| && Clean(root) && CleanJournal(journal)
    requires IsFetch(journal, Filtering(root, infinite), since, limit + 1, rows)
    requires |rows| <= limit || |Kept(rows, root, infinite)| == |rows|
    ensures IsPage(journal, root, since, infinite, limit, current, PageOf(rows, root, infinite, limit, current))
  {
    KeptRows(journal, root, since, infinite, rows);
    if |rows| <= limit {
      KeptComplete(journal, root, since, infinite, rows, |journal|);
    } else {
      KeptComplete(journal, root, since, infinite, rows, rows[limit].revision);
      KeptAll(rows, root, infinite);
      ShorterComplete(journal, root, since, infinite, rows, limit);
    }
  }

  /** One of a query that was cut off with a row out of scope is complete exactly if nothing in scope comes after. */
  lemma CutPage(journal: seq<Change>, root: Path, since: int, infinite: bool, limit: nat, current: nat, rows: seq<Row>)
    requires limit > 0 && current <= |journal| && Clean(root) && CleanJournal(journal)
    requires IsFetch(journal, Filtering(root, infinite), since, limit + 1, rows)
    requires |rows| == limit + 1 && |Kept(rows, root, infinite)| < |rows|
    ensures IsPage(journal, root, since, infinite, limit, current, PageOf(rows, root, infinite, limit, current))
       <==> !exists r :: rows[limit].revision < r <= current && IsRow(journal, root, since, infinite, r)
  {
    KeptRows(journal, root, since, infinite, rows);
    KeptIs(rows, root, infinite);
    var kept := Kept(rows, root, infinite);
    if exists r :: rows[limit].revision < r <= current && IsRow(journal, root, since, infinite, r) {
      var r :| rows[limit].revision < r <= current && IsRow(journal, root, since, infinite, r);
      NotFetched(journal, root, since, infinite, rows, r);
      assert RowAt(journal, r) !in kept;
    } else {
      forall r | r <= current && IsRow(journal, root, since, infinite, r) ensures RowAt(journal, r) in kept {
        RowIsKept(journal, root, since, infinite, rows, rows[limit].revision, r);
      }
    }
  }

  lemma NotFetched(journal: seq<Change>, root: Path, since: int, infinite: bool, rows: seq<Row>, r: int)
    requires FetchedOf(journal, Filtering(root, infinite), since, rows) && rows != []
    requires r > 0 && rows[|rows| - 1].revision < r <= |journal|
    ensures RowAt(journal, r) !in rows
  {
  }

  /** A page is complete up to its token exactly if the query misses nothing. */
  lemma PageExactly(journal: seq<Change>, root: Path, since: int, infinite: bool, limit: nat, current: nat,
                    rows: seq<Row>)
    requires limit > 0 && current <= |journal| && Clean(root) && CleanJournal(journal)
    requires IsFetch(journal, Filtering(root, infinite), since, limit + 1, rows)
    ensures IsPage(journal, root, since, infinite, limit, current, PageOf(rows, root, infinite, limit, current))
       <==> !Misses(journal, root, since, infinite, limit, current, rows)
  {
    KeptAll(rows, root, infinite);
    if |rows| <= limit || |Kept(rows, root, infinite)| == |rows| {
      WholePage(journal, root, since, infinite, limit, current, rows);
    } else {
      CutPage(journal, root, since, infinite, limit, current, rows);
    }
  }

  // ---------------------------------------------------------------------------
  // The client
  // ---------------------------------------------------------------------------

  datatype Report = Report(path: Path, found: bool)

  /** What the server answers for a changed path: whether it exists at some moment after the page
      was read. */
  ghost predicate SeenBetween(base: iset<Path>, journal: seq<Change>, later: seq<Change>, x: Path, found: bool) {
    exists k :: |journal| <= k <= |later| && found == Existing(base, later[..k], x)
  }

  ghost predicate Answers(base: iset<Path>, journal: seq<Change>, later: seq<Change>, rows: seq<Row>,
                          reports: seq<Report>)
  {
    |reports| == |rows| && forall i :: 0 <= i < |rows| ==>
      reports[i].path == rows[i].path && SeenBetween(base, journal, later, rows[i].path, reports[i].found)
  }

  /** The client takes each report as it comes. */
  ghost function Take(view: iset<Path>, reports: seq<Report>): iset<Path> {
    if reports == [] then view
    else
      var n := |reports| - 1;
      var known := Take(view, reports[..n]);
      if reports[n].found then known + iset{reports[n].path} else known - iset{reports[n].path}
  }

  /** The client knows the server's state of every path in scope last changed up to its token. */
  ghost predicate Holds(base: iset<Path>, journal: seq<Change>, root: Path, infinite: bool, view: iset<Path>,
                        token: nat)
  {
    token <= |journal| && forall x :: InScope(root, x, infinite) && LatestRevision(journal, x) <= token ==>
      (x in view <==> Existing(base, journal, x))
  }

  /** What the client knows of a path that is reported at most once. */
  lemma {:induction false} TakeOne(view: iset<Path>, reports: seq<Report>, x: Path)
    requires forall i, j :: 0 <= i < j < |reports| ==> reports[i].path != reports[j].path
    ensures forall i :: 0 <= i < |reports| && reports[i].path == x ==> (x in Take(view, reports) <==> reports[i].found)
    ensures (forall i :: 0 <= i < |reports| ==> reports[i].path != x) ==> (x in Take(view, reports) <==> x in view)
    decreases |reports|
  {
    if reports != [] {
      var n := |reports| - 1;
      TakeOne(view, reports[..n], x);
    }
  }

  /** No path has two rows. */
  lemma RowsDistinct(journal: seq<Change>, root: Path, since: int, infinite: bool, rows: seq<Row>)
    requires RowsOf(journal, root, since, infinite, rows)
    ensures forall i, j :: 0 <= i < j < |rows| ==> rows[i].path != rows[j].path
  {
    forall i, j | 0 <= i < j < |rows| ensures rows[i].path != rows[j].path {
      LatestIsRevision(journal, rows[i].revision);
      LatestIsRevision(journal, rows[j].revision);
    }
  }

  /** A path not changed after the page was read is reported as it is. */
  lemma SeenAsIs(base: iset<Path>, journal: seq<Change>, later: seq<Change>, x: Path, found: bool)
    requires journal <= later && LatestRevision(later, x) <= |journal| && SeenBetween(base, journal, later, x, found)
    ensures found == Existing(base, later, x)
  {
    var k :| |journal| <= k <= |later| && found == Existing(base, later[..k], x);
    SameSince(later[..k], later, x);
  }

  /** One page: whatever was committed before, while and after it was read, the client holds the
      server's state up to the new token. */
  lemma PageAdvances(base: iset<Path>, prior: seq<Change>, before: seq<Change>, journal: seq<Change>,
                     later: seq<Change>,
                     root: Path, infinite: bool, limit: nat, view: iset<Path>, since: nat, page: Page,
                     reports: seq<Report>)
    requires Holds(base, prior, root, infinite, view, since)
    requires prior <= before <= journal <= later
    requires IsPage(journal, root, since, infinite, limit, |before|, page)
    requires Answers(base, journal, later, page.changes, reports)
    ensures Holds(base, later, root, infinite, Take(view, reports), page.revision)
  {
    PageProgress(journal, root, since, infinite, limit, |before|, page);
    forall x | InScope(root, x, infinite) && LatestRevision(later, x) <= page.revision
      ensures x in Take(view, reports) <==> Existing(base, later, x)
    {
      RowsDistinct(journal, root, since, infinite, page.changes);
      TakeOne(view, reports, x);
      KnownAfterPage(base, prior, journal, later, root, infinite, view, since, page, reports, x);
    }
  }

  lemma KnownAfterPage(base: iset<Path>, prior: seq<Change>, journal: seq<Change>, later: seq<Change>, root: Path,
                       infinite: bool,
                       view: iset<Path>, since: nat, page: Page, reports: seq<Report>, x: Path)
    requires Holds(base, prior, root, infinite, view, since) && prior <= journal <= later
    requires RowsOf(journal, root, since, infinite, page.changes) && since <= |journal| && page.revision <= |journal|
    requires Complete(journal, root, since, infinite, page.changes, page.revision)
    requires Answers(base, journal, later, page.changes, reports)
    requires InScope(root, x, infinite) && LatestRevision(later, x) <= page.revision
    requires forall i :: 0 <= i < |reports| && reports[i].path == x ==> (x in Take(view, reports) <==> reports[i].found)
    requires (forall i :: 0 <= i < |reports| ==> reports[i].path != x) ==> (x in Take(view, reports) <==> x in view)
    ensures x in Take(view, reports) <==> Existing(base, later, x)
  {
    var r := LatestRevision(later, x);
    if r <= since {
      SameSince(prior, later, x);
      NoRow(journal, later, root, since, infinite, page.changes, x);
    } else {
      var i := HasRow(journal, later, root, since, infinite, page.changes, page.revision, x);
      SeenAsIs(base, journal, later, x, reports[i].found);
    }
  }

  lemma NoRow(journal: seq<Change>, later: seq<Change>, root: Path, since: nat, infinite: bool, rows: seq<Row>, x: Path)
    requires journal <= later && since <= |journal| && RowsOf(journal, root, since, infinite, rows)
    requires LatestRevision(later, x) <= since
    ensures forall i :: 0 <= i < |rows| ==> rows[i].path != x
  {
    SameSince(journal, later, x);
    forall i | 0 <= i < |rows| ensures rows[i].path != x {
      LatestIsRevision(journal, rows[i].revision);
    }
  }

  lemma HasRow(journal: seq<Change>, later: seq<Change>, root: Path, since: nat, infinite: bool, rows: seq<Row>,
               upto: nat, x: Path)
    returns (i: nat)
    requires journal <= later && upto <= |journal| && Complete(journal, root, since, infinite, rows, upto)
    requires InScope(root, x, infinite) && since < LatestRevision(later, x) <= upto
    ensures i < |rows| && rows[i].path == x
  {
    var r := LatestRevision(later, x);
    SameSince(journal, later, x);
    RevisionMeans(journal, x);
    assert IsRow(journal, root, since, infinite, r);
    i :| 0 <= i < |rows| && rows[i] == RowAt(journal, r);
  }

  /** An initial synchronisation: the token is read first, then the collection is walked. */
  lemma InitialHolds(base: iset<Path>, before: seq<Change>, later: seq<Change>, root: Path, infinite: bool,
                     view: iset<Path>)
    requires before <= later
    requires forall x :: InScope(root, x, infinite) ==> SeenBetween(base, before, later, x, x in view)
    ensures Holds(base, later, root, infinite, view, |before|)
  {
    forall x | InScope(root, x, infinite) && LatestRevision(later, x) <= |before|
      ensures x in view <==> Existing(base, later, x)
    {
      SeenAsIs(base, before, later, x, x in view);
    }
  }

  /** A page that is not the last moves the token forward, so following pages ends. */
  lemma PageProgress(journal: seq<Change>, root: Path, since: nat, infinite: bool, limit: nat, current: nat, page: Page)
    requires IsPage(journal, root, since, infinite, limit, current, page) && since <= current
    ensures since <= page.revision <= |journal| && (page.more ==> since < page.revision)
  {
  }

  // ---------------------------------------------------------------------------
  // Whole runs
  // ---------------------------------------------------------------------------

  /** One round of a client: the journals when the token, the changes and the answers were read, the rows of the
      query, the page, and what was answered for its changes. */
  datatype Round = Round(before: seq<Change>, journal: seq<Change>, later: seq<Change>, limit: int, rows: seq<Row>,
                         page: Page, reports: seq<Report>)

  /** The round is as the server answers. */
  ghost predicate Answered(base: iset<Path>, root: Path, infinite: bool, prior: seq<Change>, token: nat, r: Round) {
    && prior <= r.before <= r.journal <= r.later && CleanJournal(r.journal)
    && IsFetch(r.journal, Filtering(root, infinite), token, PageLimit(r.limit) + 1, r.rows)
    && r.page == PageOf(r.rows, root, infinite, PageLimit(r.limit), |r.before|)
    && Answers(base, r.journal, r.later, r.page.changes, r.reports)
  }

  /** The journal and the token before round `i`. */
  ghost function PriorAt(prior: seq<Change>, rounds: seq<Round>, i: nat): seq<Change>
    requires i <= |rounds|
  {
    if i == 0 then prior else rounds[i - 1].later
  }

  ghost function TokenAt(token: nat, rounds: seq<Round>, i: nat): nat
    requires i <= |rounds|
  {
    if i == 0 then token else rounds[i - 1].page.revision
  }

  ghost predicate RoundAt(base: iset<Path>, root: Path, infinite: bool, prior: seq<Change>, token: nat,
                          rounds: seq<Round>, i: nat)
    requires i < |rounds|
  {
    Answered(base, root, infinite, PriorAt(prior, rounds, i), TokenAt(token, rounds, i), rounds[i])
  }

  /** Rounds that follow each other from a token issued at `prior`, the journal growing in between. */
  ghost predicate Follows(base: iset<Path>, root: Path, infinite: bool, prior: seq<Change>, token: nat,
                          rounds: seq<Round>)
  {
    forall i: nat {:trigger RoundAt(base, root, infinite, prior, token, rounds, i)} ::
      i < |rounds| ==> RoundAt(base, root, infinite, prior, token, rounds, i)
  }

  /** The query of round `i` misses a change. */
  ghost predicate MissesAt(root: Path, infinite: bool, token: nat, rounds: seq<Round>, i: nat)
    requires i < |rounds|
  {
    var r := rounds[i];
    Misses(r.journal, root, TokenAt(token, rounds, i), infinite, PageLimit(r.limit), |r.before|, r.rows)
  }

  ghost predicate NothingMissed(root: Path, infinite: bool, token: nat, rounds: seq<Round>) {
    forall i: nat {:trigger MissesAt(root, infinite, token, rounds, i)} ::
      i < |rounds| ==> !MissesAt(root, infinite, token, rounds, i)
  }

  ghost function ViewAfter(view: iset<Path>, rounds: seq<Round>, n: nat): iset<Path>
    requires n <= |rounds|
  {
    if n == 0 then view else Take(ViewAfter(view, rounds, n - 1), rounds[n - 1].reports)
  }

  lemma RoundAdvances(base: iset<Path>, root: Path, infinite: bool, prior: seq<Change>, view: iset<Path>, token: nat,
                      r: Round)
    requires Holds(base, prior, root, infinite, view, token) && Clean(root)
    requires Answered(base, root, infinite, prior, token, r)
    requires !Misses(r.journal, root, token, infinite, PageLimit(r.limit), |r.before|, r.rows)
    ensures Holds(base, r.later, root, infinite, Take(view, r.reports), r.page.revision)
  {
    PageExactly(r.journal, root, token, infinite, PageLimit(r.limit), |r.before|, r.rows);
    PageAdvances(base, prior, r.before, r.journal, r.later, root, infinite, PageLimit(r.limit), view, token,
                 r.page, r.reports);
  }

  lemma RoundStep(base: iset<Path>, root: Path, infinite: bool, prior: seq<Change>, view: iset<Path>, token: nat,
                  rounds: seq<Round>, n: nat)
    requires n < |rounds| && Clean(root)
    requires Follows(base, root, infinite, prior, token, rounds) && NothingMissed(root, infinite, token, rounds)
    requires Holds(base, PriorAt(prior, rounds, n), root, infinite, ViewAfter(view, rounds, n),
                   TokenAt(token, rounds, n))
    ensures Holds(base, PriorAt(prior, rounds, n + 1), root, infinite, ViewAfter(view, rounds, n + 1),
                  TokenAt(token, rounds, n + 1))
  {
    assert RoundAt(base, root, infinite, prior, token, rounds, n) && !MissesAt(root, infinite, token, rounds, n);
    RoundAdvances(base, root, infinite, PriorAt(prior, rounds, n), ViewAfter(view, rounds, n),
                  TokenAt(token, rounds, n), rounds[n]);
  }

  /** Over every run of pages, with changes committed at any moment, the client holds the server's
      state up to its token, if no query missed a change. */
  lemma {:induction false} RunHolds(base: iset<Path>, root: Path, infinite: bool, prior: seq<Change>, view: iset<Path>,
                                    token: nat, rounds: seq<Round>, n: nat)
    requires Holds(base, prior, root, infinite, view, token) && Clean(root) && n <= |rounds|
    requires Follows(base, root, infinite, prior, token, rounds) && NothingMissed(root, infinite, token, rounds)
    ensures Holds(base, PriorAt(prior, rounds, n), root, infinite, ViewAfter(view, rounds, n),
                  TokenAt(token, rounds, n))
  {
    if n > 0 {
      RunHolds(base, root, infinite, prior, view, token, rounds, n - 1);
      RoundStep(base, root, infinite, prior, view, token, rounds, n - 1);
    }
  }

  /** After a last page with no later change the client agrees with the directory everywhere. */
  lemma RunAgrees(base: iset<Path>, t: Rows, root: Path, infinite: bool, prior: seq<Change>, view: iset<Path>,
                  token: nat, rounds: seq<Round>)
    requires Holds(base, prior, root, infinite, view, token) && rounds != [] && Clean(root)
    requires Follows(base, root, infinite, prior, token, rounds) && NothingMissed(root, infinite, token, rounds)
    requires var last := rounds[|rounds| - 1];
      && !last.page.more && last.later == last.before && JournalTrue(base, t, last.later)
    ensures forall x :: InScope(root, x, infinite) && x != [] ==>
      (x in ViewAfter(view, rounds, |rounds|) <==> Resolve(t, x).Some?)
  {
    var last := rounds[|rounds| - 1];
    RunHolds(base, root, infinite, prior, view, token, rounds, |rounds|);
    assert RoundAt(base, root, infinite, prior, token, rounds, |rounds| - 1);
    forall x | InScope(root, x, infinite) && x != []
      ensures x in ViewAfter(view, rounds, |rounds|) <==> Resolve(t, x).Some?
    {
      RevisionMeans(last.later, x);
    }
  }

  // ---------------------------------------------------------------------------
  // What is missed
  // ---------------------------------------------------------------------------

  /** A query that selects nothing out of scope misses nothing. */
  lemma NothingForeign(journal: seq<Change>, root: Path, since: int, infinite: bool, limit: nat, current: nat,
                       rows: seq<Row>)
    requires IsFetch(journal, Filtering(root, infinite), since, limit + 1, rows)
    requires forall i :: 0 <= i < |journal| && Filtering(root, infinite)(journal[i].path) ==>
      InScope(root, journal[i].path, infinite)
    ensures !Misses(journal, root, since, infinite, limit, current, rows)
  {
    forall i | 0 <= i < |rows| ensures InScope(root, rows[i].path, infinite) {
      assert IsFetched(journal, Filtering(root, infinite), since, rows[i].revision);
    }
  }

  /** What is missed is a change in scope that the new token passes and the page does not report. */
  lemma MissedChange(journal: seq<Change>, root: Path, since: nat, infinite: bool, limit: nat, current: nat,
                     rows: seq<Row>) returns (x: Path)
    requires limit > 0 && current <= |journal| && IsFetch(journal, Filtering(root, infinite), since, limit + 1, rows)
    requires Misses(journal, root, since, infinite, limit, current, rows)
    ensures var page := PageOf(rows, root, infinite, limit, current);
      && InScope(root, x, infinite) && since < LatestRevision(journal, x) <= page.revision
      && forall i :: 0 <= i < |page.changes| ==> page.changes[i].path != x
  {
    var r :| rows[limit].revision < r <= current && IsRow(journal, root, since, infinite, r);
    x := journal[r - 1].path;
    KeptAll(rows, root, infinite);
    MissedAt(journal, root, since, infinite, limit, current, rows, r);
  }

  lemma MissedAt(journal: seq<Change>, root: Path, since: nat, infinite: bool, limit: nat, current: nat, rows: seq<Row>,
                 r: int)
    requires limit > 0 && current <= |journal| && FetchedOf(journal, Filtering(root, infinite), since, rows)
    requires |rows| == limit + 1 && |Kept(rows, root, infinite)| < |rows|
    requires rows[limit].revision < r <= current && IsRow(journal, root, since, infinite, r)
    ensures var page, x := PageOf(rows, root, infinite, limit, current), journal[r - 1].path;
      && InScope(root, x, infinite) && since < LatestRevision(journal, x) <= page.revision
      && forall i :: 0 <= i < |page.changes| ==> page.changes[i].path != x
  {
    LatestIsRevision(journal, r);
    NotKept(journal, root, since, infinite, rows, r);
  }

  /** A path whose latest change comes after all rows has none. */
  lemma NotKept(journal: seq<Change>, root: Path, since: int, infinite: bool, rows: seq<Row>, r: int)
    requires FetchedOf(journal, Filtering(root, infinite), since, rows) && rows != []
    requires rows[|rows| - 1].revision < r && IsLatest(journal, r)
    ensures var kept := Kept(rows, root, infinite);
      forall i :: 0 <= i < |kept| ==> kept[i].path != journal[r - 1].path
  {
    KeptIs(rows, root, infinite);
    var kept := Kept(rows, root, infinite);
    forall i | 0 <= i < |kept| ensures kept[i].path != journal[r - 1].path {
      assert kept[i] in kept;
      var j :| 0 <= j < |rows| && rows[j] == kept[i];
      assert IsFetched(journal, Filtering(root, infinite), since, rows[j].revision);
    }
  }
}
