/** The first synchronisation of a collection (server/handler/webdav/report.go): the token is read, and then
    the collection is walked, one listing after the other, while changes are committed. */
module SyncInitial {
  import opened DirectoryTree
  import opened DirectoryWalk
  import opened SyncScope
  import opened Sync

  /** One listing: the directory, and the table it was read from when `moment` changes were committed. */
  datatype Listing = Listing(dir: Path, table: Rows, moment: nat)

  predicate Shows(l: Listing, x: Path) {
    x != [] && x[..|x| - 1] == l.dir && Resolve(l.table, x).Some?
  }

  predicate ShowsDir(l: Listing, x: Path) {
    Shows(l, x) && Resolve(l.table, x).value.kind.Dir?
  }

  /** A directory that is not there cannot be listed, so the walk fails without it. */
  ghost predicate ListedThen(base: iset<Path>, before: seq<Change>, later: seq<Change>, l: Listing) {
    && |before| <= l.moment <= |later| && JournalTrue(base, l.table, later[..l.moment])
    && Resolve(l.table, l.dir).Some? && Resolve(l.table, l.dir).value.kind.Dir?
    && Existing(base, later[..l.moment], l.dir)
  }

  ghost predicate IsListed(listings: seq<Listing>, dir: Path) {
    exists i :: 0 <= i < |listings| && listings[i].dir == dir
  }

  /** The listing is that of the collection or, for all levels, of a directory that one before it shows. */
  ghost predicate Reached(listings: seq<Listing>, root: Path, infinite: bool, i: int)
    requires 0 <= i < |listings|
  {
    listings[i].dir == root || (infinite && exists j :: 0 <= j < i && ShowsDir(listings[j], listings[i].dir))
  }

  /** writeInitialSyncResponses: the collection is listed and, for all levels, every directory shown, and nothing
      else. */
  ghost predicate Walks(listings: seq<Listing>, root: Path, infinite: bool) {
    && IsListed(listings, root)
    && (infinite ==> forall i, x :: 0 <= i < |listings| && ShowsDir(listings[i], x) ==> IsListed(listings, x))
    && forall i :: 0 <= i < |listings| ==> Reached(listings, root, infinite, i)
  }

  /** What the client is told of; that the collection is there it knows from the answer. */
  ghost predicate Told(listings: seq<Listing>, root: Path, x: Path) {
    x == root || exists i :: 0 <= i < |listings| && Shows(listings[i], x)
  }

  /** What a listing does not show under its directory is not there. */
  lemma NotShown(base: iset<Path>, before: seq<Change>, later: seq<Change>, l: Listing, x: Path)
    requires ListedThen(base, before, later, l) && x != [] && x[..|x| - 1] == l.dir && !Shows(l, x)
    ensures Resolve(l.table, x).None? && !Existing(base, later[..l.moment], x)
  {
  }

  /** What lies under something that is not a directory, or not there, is not there. */
  lemma NothingBelow(base: iset<Path>, before: seq<Change>, later: seq<Change>, l: Listing, x: Path)
    requires ListedThen(base, before, later, l) && x != []
    requires
      var parent := Resolve(l.table, x[..|x| - 1]);
      parent.None? || !parent.value.kind.Dir?
    ensures Resolve(l.table, x).None? && !Existing(base, later[..l.moment], x)
  {
    if Resolve(l.table, x).Some? { ResolveLast(l.table, x); }
  }

  /** For every path in scope some listing decides what the client is told. */
  lemma WalkSees(base: iset<Path>, before: seq<Change>, later: seq<Change>, listings: seq<Listing>, root: Path,
                 infinite: bool, x: Path)
    returns (i: nat)
    requires Walks(listings, root, infinite) && InScope(root, x, infinite)
    requires forall n :: 0 <= n < |listings| ==> ListedThen(base, before, later, listings[n])
    ensures i < |listings| && listings[i].moment <= |later|
    ensures Told(listings, root, x) <==> Existing(base, later[..listings[i].moment], x)
  {
    if x == root {
      i :| 0 <= i < |listings| && listings[i].dir == root;
    } else if Told(listings, root, x) {
      i :| 0 <= i < |listings| && Shows(listings[i], x);
    } else {
      i := NotTold(base, before, later, listings, root, infinite, x);
    }
  }

  lemma {:induction false} NotTold(base: iset<Path>, before: seq<Change>, later: seq<Change>,
                                   listings: seq<Listing>, root: Path, infinite: bool, x: Path)
    returns (i: nat)
    requires Walks(listings, root, infinite) && InScope(root, x, infinite) && !Told(listings, root, x)
    requires forall n :: 0 <= n < |listings| ==> ListedThen(base, before, later, listings[n])
    ensures i < |listings| && listings[i].moment <= |later| && !Existing(base, later[..listings[i].moment], x)
    ensures Resolve(listings[i].table, x).None?
    decreases |x|
  {
    var parent := x[..|x| - 1];
    assert IsPrefix(root, parent) by { assert x[..|root|] == root; }
    if IsListed(listings, parent) {
      i :| 0 <= i < |listings| && listings[i].dir == parent;
      NotShown(base, before, later, listings[i], x);
    } else if Told(listings, root, parent) {
      i :| 0 <= i < |listings| && Shows(listings[i], parent);
      assert !ShowsDir(listings[i], parent);
      NothingBelow(base, before, later, listings[i], x);
    } else {
      i := NotTold(base, before, later, listings, root, infinite, parent);
      NothingBelow(base, before, later, listings[i], x);
    }
  }

  /** However the changes fall between the listings, the client then knows the state of every path in scope
      that was last changed before its token. */
  lemma WalkHolds(base: iset<Path>, before: seq<Change>, later: seq<Change>, listings: seq<Listing>, root: Path,
                  infinite: bool)
    requires before <= later && Walks(listings, root, infinite)
    requires forall n :: 0 <= n < |listings| ==> ListedThen(base, before, later, listings[n])
    ensures Holds(base, later, root, infinite, iset x | Told(listings, root, x), |before|)
  {
    var view := iset x | Told(listings, root, x);
    forall x | InScope(root, x, infinite) ensures SeenBetween(base, before, later, x, x in view) {
      var i := WalkSees(base, before, later, listings, root, infinite, x);
    }
    InitialHolds(base, before, later, root, infinite, view);
  }

  /** The directories that a walk lists are in scope, and below the collection only for all levels. */
  lemma {:induction false} ListedInScope(listings: seq<Listing>, root: Path, infinite: bool, i: nat)
    requires Walks(listings, root, infinite) && i < |listings|
    ensures InScope(root, listings[i].dir, infinite) && (!infinite ==> listings[i].dir == root)
    decreases i
  {
    assert Reached(listings, root, infinite, i);
    if listings[i].dir != root {
      var j :| 0 <= j < i && ShowsDir(listings[j], listings[i].dir);
      ListedInScope(listings, root, infinite, j);
      ScopeIsTree(root, listings[i].dir);
    }
  }

  /** Whatever a walk tells of is in scope. */
  lemma ToldInScope(listings: seq<Listing>, root: Path, infinite: bool, x: Path)
    requires Walks(listings, root, infinite) && Told(listings, root, x)
    ensures InScope(root, x, infinite)
  {
    if x != root {
      var i :| 0 <= i < |listings| && Shows(listings[i], x);
      ListedInScope(listings, root, infinite, i);
      if infinite { ScopeIsTree(root, x); } else { ScopeIsChildren(root, x); }
    }
  }

  /** A client that walks a collection and then follows pages that miss nothing is told of paths in scope only,
      and holds the server's state of all of them up to its token. */
  lemma WalkAndPages(base: iset<Path>, before: seq<Change>, later: seq<Change>, listings: seq<Listing>, root: Path,
                     infinite: bool, rounds: seq<Round>)
    requires before <= later && Walks(listings, root, infinite) && Clean(root)
    requires forall n :: 0 <= n < |listings| ==> ListedThen(base, before, later, listings[n])
    requires Follows(base, root, infinite, later, |before|, rounds) && NothingMissed(root, infinite, |before|, rounds)
    ensures var view := iset x | Told(listings, root, x);
      Holds(base, PriorAt(later, rounds, |rounds|), root, infinite, ViewAfter(view, rounds, |rounds|),
            TokenAt(|before|, rounds, |rounds|))
    ensures forall x :: Told(listings, root, x) ==> InScope(root, x, infinite)
  {
    WalkHolds(base, before, later, listings, root, infinite);
    RunHolds(base, root, infinite, later, iset x | Told(listings, root, x), |before|, rounds, |rounds|);
    forall x | Told(listings, root, x) ensures InScope(root, x, infinite) {
      ToldInScope(listings, root, infinite, x);
    }
  }
}
