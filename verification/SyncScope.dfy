/** Which changed paths a synchronisation of a collection is about: the test of the code on the text of paths
    (webDAVChangeInScope), the filter of its query, and what both say of the components
    (filemgr/webdav_protocol.go). */
module SyncScope {
  import opened DirectoryTree

  /** The collection, what lies directly in it and, at infinite depth, what lies anywhere below. */
  predicate InScope(root: Path, changed: Path, infinite: bool) {
    IsPrefix(root, changed) && (infinite || |changed| <= |root| + 1)
  }

  /** At depth one the scope is the collection and its children. */
  lemma ScopeIsChildren(root: Path, x: Path)
    ensures InScope(root, x, false) <==> x == root || (x != [] && x[..|x| - 1] == root)
  {
    if x != [] && x[..|x| - 1] == root { assert x[..|root|] == root; }
  }

  /** At infinite depth it is the collection and the children of whatever is in scope. */
  lemma ScopeIsTree(root: Path, x: Path)
    ensures InScope(root, x, true) <==> x == root || (x != [] && InScope(root, x[..|x| - 1], true))
  {
    if x != [] && |root| < |x| { assert x[..|x| - 1][..|root|] == x[..|root|]; }
  }

  // ---------------------------------------------------------------------------
  // The text of paths
  // ---------------------------------------------------------------------------

  /** A clean absolute path: no component is empty or has a separator in it. */
  predicate Clean(p: Path) {
    forall i :: 0 <= i < |p| ==> p[i] != "" && '/' !in p[i]
  }

  /** The components, each after a separator. */
  function Below(p: Path): string {
    if p == [] then "" else Below(p[..|p| - 1]) + "/" + p[|p| - 1]
  }

  function Text(p: Path): string {
    if p == [] then "/" else Below(p)
  }

  predicate HasPrefix(s: string, prefix: string) {
    prefix <= s
  }

  function TrimPrefix(s: string, prefix: string): string {
    if HasPrefix(s, prefix) then s[|prefix|..] else s
  }

  /** webDAVChangeInScope. */
  predicate ChangeInScope(root: string, changed: string, infinite: bool) {
    if changed == root then true
    else if root != "/" && !HasPrefix(changed, root + "/") then false
    else if root == "/" && !HasPrefix(changed, "/") then false
    else if infinite then true
    else
      var relative := TrimPrefix(TrimPrefix(changed, root), "/");
      relative != "" && '/' !in relative
  }

  lemma {:induction false} BelowJoin(p: Path, q: Path)
    ensures Below(p + q) == Below(p) + Below(q)
  {
    if q == [] {
      assert p + q == p;
    } else {
      var n := |q| - 1;
      assert (p + q)[..|p| + n] == p + q[..n];
      BelowJoin(p, q[..n]);
    }
  }

  lemma JoinedShape(head: string, name: string)
    requires head != "" && head[0] == '/'
    ensures var s := head + "/" + name; |s| >= 2 && s[0] == '/' && '/' in s[1..]
  {
    var s := head + "/" + name;
    assert s[|head|] == '/';
    assert s[1..][|head| - 1] == '/';
  }

  /** Below starts with a separator and holds another one exactly if there is another component. */
  lemma {:induction false} BelowShape(p: Path)
    requires Clean(p) && p != []
    ensures |Below(p)| >= 2 && Below(p)[0] == '/' && (|p| == 1 <==> '/' !in Below(p)[1..])
    decreases |p|
  {
    var n := |p| - 1;
    if n > 0 {
      assert Clean(p[..n]);
      BelowShape(p[..n]);
      JoinedShape(Below(p[..n]), p[n]);
    } else {
      assert Below(p) == "/" + p[0];
      assert Below(p)[1..] == p[0];
    }
  }

  lemma CharAt(a: string, s: string, i: nat)
    ensures i < |a| ==> (a + s)[i] in a
    ensures s != "" ==> (a + s)[|a|] == s[0]
  {
    if i < |a| { assert (a + s)[i] == a[i]; }
  }

  /** Names that are followed by separators are told apart. */
  lemma NameEnds(a: string, s: string, b: string, u: string)
    requires '/' !in a && '/' !in b && s != "" && s[0] == '/' && (u == "" || u[0] == '/')
    requires a + s <= b + u
    ensures a == b && s <= u
  {
    CharAt(a, s, |b|);
    CharAt(b, u, |a|);
    assert |a| == |b|;
    assert a == (a + s)[..|a|] && b == (b + u)[..|a|];
    assert s == (a + s)[|a|..] && u == (b + u)[|a|..];
  }

  lemma TailPrefix(a: string, b: string)
    requires "/" + a <= "/" + b
    ensures a <= b
  {
    assert a == ("/" + a)[1..] && b == ("/" + b)[1..];
  }

  lemma BelowFirst(p: Path)
    requires p != []
    ensures Below(p) == "/" + p[0] + Below(p[1..])
  {
    assert p == [p[0]] + p[1..];
    BelowJoin([p[0]], p[1..]);
    assert [p[0]][..0] == [];
    assert Below([p[0]]) == "/" + p[0];
  }

  /** The text of a path starts with that of another, and a separator, exactly if its components do. */
  lemma {:induction false} TextPrefix(root: Path, x: Path)
    requires Clean(root) && Clean(x)
    ensures Below(root) + "/" <= Below(x) <==> IsPrefix(root, x) && root != x
    decreases |root|
  {
    if IsPrefix(root, x) && root != x {
      assert x == root + x[|root|..];
      BelowJoin(root, x[|root|..]);
      BelowShape(x[|root|..]);
    }
    if Below(root) + "/" <= Below(x) {
      if root != [] && x != [] {
        TextStarts(root, x);
        TextPrefix(root[1..], x[1..]);
        assert x[..|root|] == [x[0]] + x[1..][..|root| - 1];
        assert root == [root[0]] + root[1..];
      }
    }
  }

  predicate EmptyOrBelow(s: string) {
    s == "" || s[0] == '/'
  }

  lemma BelowIs(p: Path)
    requires Clean(p)
    ensures EmptyOrBelow(Below(p))
  {
    if p != [] { BelowShape(p); }
  }

  lemma NamesStart(a: string, s: string, b: string, u: string)
    requires '/' !in a && '/' !in b && EmptyOrBelow(s) && EmptyOrBelow(u)
    requires "/" + a + s + "/" <= "/" + b + u
    ensures a == b && s + "/" <= u
  {
    assert "/" + a + s + "/" == "/" + (a + (s + "/"));
    assert "/" + b + u == "/" + (b + u);
    TailPrefix(a + (s + "/"), b + u);
    NameEnds(a, s + "/", b, u);
  }

  lemma TextStarts(root: Path, x: Path)
    requires Clean(root) && Clean(x) && root != [] && x != [] && Below(root) + "/" <= Below(x)
    ensures root[0] == x[0] && Below(root[1..]) + "/" <= Below(x[1..])
  {
    BelowFirst(root);
    BelowFirst(x);
    BelowIs(root[1..]);
    BelowIs(x[1..]);
    NamesStart(root[0], Below(root[1..]), x[0], Below(x[1..]));
  }

  lemma {:induction false} TextUnique(p: Path, q: Path)
    requires Clean(p) && Clean(q) && Below(p) == Below(q)
    ensures p == q
  {
    if |p| <= |q| { TextShorter(p, q); } else { TextShorter(q, p); }
  }

  /** Of two paths with one text, the shorter is no prefix of the longer but all of it. */
  lemma {:induction false} TextShorter(p: Path, q: Path)
    requires Clean(p) && Clean(q) && Below(p) == Below(q) && |p| <= |q|
    ensures p == q
    decreases |p|
  {
    if p == [] {
      if q != [] { BelowShape(q); }
    } else {
      BelowFirst(p);
      BelowFirst(q);
      BelowIs(p[1..]);
      BelowIs(q[1..]);
      NamesSame(p[0], Below(p[1..]), q[0], Below(q[1..]));
      TextShorter(p[1..], q[1..]);
      assert p == [p[0]] + p[1..] && q == [q[0]] + q[1..];
    }
  }

  lemma NamesSame(a: string, s: string, b: string, u: string)
    requires '/' !in a && '/' !in b && EmptyOrBelow(s) && EmptyOrBelow(u)
    requires "/" + a + s == "/" + b + u
    ensures a == b && s == u
  {
    assert "/" + a + s + "/" == "/" + b + (u + "/");
    NamesStart(a, s, b, u + "/");
    assert (s + "/")[..|s|] == s && (u + "/")[..|s|] == u;
  }

  /** The test of the code on texts is the scope on components. */
  lemma ScopeExactly(root: Path, x: Path, infinite: bool)
    requires Clean(root) && Clean(x)
    ensures ChangeInScope(Text(root), Text(x), infinite) <==> InScope(root, x, infinite)
  {
    TextSame(root, x);
    TextPrefix(root, x);
    if IsPrefix(root, x) && root != x {
      var rest := x[|root|..];
      RestText(root, x);
      BelowShape(rest);
    }
    if root != [] { BelowShape(root); }
    if x != [] { BelowShape(x); }
  }

  lemma TextSame(p: Path, q: Path)
    requires Clean(p) && Clean(q)
    ensures Text(p) == Text(q) <==> p == q
  {
    if p != [] { BelowShape(p); }
    if q != [] { BelowShape(q); }
    if p != [] && q != [] && Text(p) == Text(q) { TextUnique(p, q); }
  }

  /** What is left of a path below another: its components, the first without its separator. */
  lemma RestText(root: Path, x: Path)
    requires Clean(root) && Clean(x) && IsPrefix(root, x) && root != x
    ensures Below(x) == Below(root) + Below(x[|root|..])
    ensures TrimPrefix(TrimPrefix(Text(x), Text(root)), "/") == Below(x[|root|..])[1..]
  {
    var rest := x[|root|..];
    assert x == root + rest;
    BelowJoin(root, rest);
    BelowShape(rest);
    if root != [] {
      BelowShape(root);
      assert TrimPrefix(Text(x), Text(root)) == Below(rest);
      assert Below(rest)[..1] == "/";
    } else {
      assert Below(x)[..1] == "/";
      NoSeparatorFirst(rest);
    }
  }

  /** A name does not start with a separator. */
  lemma NoSeparatorFirst(p: Path)
    requires Clean(p) && p != []
    ensures |Below(p)| >= 2 && Below(p)[1] != '/'
  {
    BelowFirst(p);
    assert Below(p)[1] == p[0][0];
    assert p[0][0] in p[0];
  }

  // ---------------------------------------------------------------------------
  // The filter of the query
  // ---------------------------------------------------------------------------

  /** LIKE takes the letters of ASCII for equal in both cases. */
  function FoldChar(c: char): char {
    if 'A' <= c <= 'Z' then c - 'A' + 'a' else c
  }

  function Fold(s: string): (r: string)
    ensures |r| == |s|
  {
    seq(|s|, i requires 0 <= i < |s| => FoldChar(s[i]))
  }

  /** LIKE with a prefix whose wildcards are escaped. */
  predicate Like(s: string, prefix: string) {
    Fold(prefix) <= Fold(s)
  }

  function Utf8Width(c: char): nat {
    if c as int < 0x80 then 1 else if c as int < 0x800 then 2 else if c as int < 0x1_0000 then 3 else 4
  }

  /** The length that the code takes of a text, in bytes. */
  function Utf8Length(s: string): (n: nat)
    ensures n >= |s|
  {
    if s == "" then 0 else Utf8Length(s[..|s| - 1]) + Utf8Width(s[|s| - 1])
  }

  /** substr, which counts characters from one. */
  function Substr(s: string, from: nat): string
    requires from > 0
  {
    if from - 1 <= |s| then s[from - 1..] else ""
  }

  function TrimSlash(s: string): string {
    if s != "" && s[|s| - 1] == '/' then s[..|s| - 1] else s
  }

  predicate AtOrBelow(root: string, path: string) {
    (root == "/" && Like(path, "/")) || path == root || Like(path, TrimSlash(root) + "/")
  }

  predicate NotDeeper(root: string, path: string) {
    '/' !in Substr(path, Utf8Length(root) + 2)
  }

  /** The WHERE clause of the query. */
  predicate Selects(root: string, path: string, infinite: bool) {
    AtOrBelow(root, path) && (infinite || path == root || NotDeeper(root, path))
  }

  function FoldPath(p: Path): (r: Path)
    ensures |r| == |p|
  {
    seq(|p|, i requires 0 <= i < |p| => Fold(p[i]))
  }

  lemma FoldJoin(a: string, b: string)
    ensures Fold(a + b) == Fold(a) + Fold(b)
  {
  }

  lemma {:induction false} FoldBelow(p: Path)
    ensures Fold(Below(p)) == Below(FoldPath(p))
  {
    if p != [] {
      var n := |p| - 1;
      FoldBelow(p[..n]);
      FoldJoin(Below(p[..n]), "/" + p[n]);
      FoldJoin("/", p[n]);
      assert Below(p) == Below(p[..n]) + ("/" + p[n]);
      assert FoldPath(p)[..n] == FoldPath(p[..n]);
      assert Fold("/") == "/";
    }
  }

  lemma FoldClean(p: Path)
    requires Clean(p)
    ensures Clean(FoldPath(p))
  {
    forall i | 0 <= i < |p| ensures FoldPath(p)[i] != "" && '/' !in FoldPath(p)[i] {
      NoSlash(p[i]);
    }
  }

  lemma NoSlash(s: string)
    requires '/' !in s
    ensures '/' !in Fold(s)
  {
  }

  /** The last character of a path below the root is one of a name. */
  lemma {:induction false} BelowEnds(p: Path)
    requires Clean(p) && p != []
    ensures TrimSlash(Text(p)) == Below(p)
  {
    var name := p[|p| - 1];
    assert Below(p)[|Below(p)| - 1] == name[|name| - 1];
    assert name[|name| - 1] in name;
  }

  /** The prefix that the query asks for, up to the case of letters. */
  lemma LikeExactly(root: Path, x: Path)
    requires Clean(root) && Clean(x)
    ensures Like(Text(x), TrimSlash(Text(root)) + "/") <==>
      (root == [] || (IsPrefix(FoldPath(root), FoldPath(x)) && |root| < |x|))
  {
    FoldClean(root);
    FoldClean(x);
    FoldBelow(root);
    FoldBelow(x);
    FoldJoin(Below(root), "/");
    assert Fold("/") == "/";
    if root == [] {
      if x != [] { BelowShape(FoldPath(x)); }
      assert TrimSlash("/") == "";
    } else {
      BelowEnds(root);
      BelowShape(root);
      TextPrefix(FoldPath(root), FoldPath(x));
      if x == [] { assert Fold(Text(x)) == "/"; }
    }
  }

  predicate Ascii(s: string) {
    Utf8Length(s) == |s|
  }

  /** What lies below a path that is the root up to case. */
  lemma SplitAt(root: Path, x: Path)
    requires Clean(root) && Clean(x) && |root| < |x| && IsPrefix(FoldPath(root), FoldPath(x))
    ensures Below(x) == Below(x[..|root|]) + Below(x[|root|..]) && |Below(x[..|root|])| == |Below(root)|
  {
    var head := x[..|root|];
    assert x == head + x[|root|..];
    BelowJoin(head, x[|root|..]);
    assert FoldPath(head) == FoldPath(root) by { assert FoldPath(x)[..|root|] == FoldPath(head); }
    FoldBelow(head);
    FoldBelow(root);
  }

  /** What the filter looks for another separator in, if the root has no characters of several bytes: all of
      what lies below the root but the first separator, of which the root directory leaves out one character
      more. */
  lemma SubstrExactly(root: Path, x: Path)
    requires Clean(root) && Clean(x) && |root| < |x| && IsPrefix(FoldPath(root), FoldPath(x))
    ensures var rest := Below(x[|root|..]); var skip := Utf8Length(Text(root)) - |Text(root)|;
      Substr(Text(x), Utf8Length(Text(root)) + 2) == Substr(rest, 2 + skip + if root == [] then 1 else 0)
  {
    if root == [] {
      assert x[0..] == x;
    } else {
      SplitAt(root, x);
      SubstrJoin(Below(x[..|root|]), Below(x[|root|..]), Utf8Length(Text(root)) + 2);
    }
  }

  lemma SubstrJoin(a: string, b: string, n: nat)
    requires n > |a|
    ensures Substr(a + b, n) == Substr(b, n - |a|)
  {
  }

  lemma NoneInSuffix(s: string, n: nat)
    requires '/' !in s && n > 0
    ensures '/' !in Substr(s, n)
  {
  }

  /** Whatever is in scope is selected. */
  lemma ScopeIsSelected(root: Path, x: Path, infinite: bool)
    requires Clean(root) && Clean(x) && InScope(root, x, infinite)
    ensures Selects(Text(root), Text(x), infinite)
  {
    if x != root {
      assert IsPrefix(FoldPath(root), FoldPath(x)) by {
        assert forall i :: 0 <= i < |root| ==> x[i] == x[..|root|][i];
      }
      LikeExactly(root, x);
      if !infinite {
        var rest := x[|root|..];
        BelowShape(rest);
        SubstrExactly(root, x);
        var skip := Utf8Length(Text(root)) - |Text(root)| + if root == [] then 1 else 0;
        assert Substr(Below(rest), 2 + skip) == Substr(Below(rest)[1..], 1 + skip);
        NoneInSuffix(Below(rest)[1..], 1 + skip);
      }
    }
  }

  /** For a root without characters of several bytes the query selects exactly what lies in scope of a path that
      is the root up to the case of letters. */
  lemma SelectsExactly(root: Path, x: Path, infinite: bool)
    requires Clean(root) && Clean(x) && Ascii(Text(root))
    ensures Selects(Text(root), Text(x), infinite) <==>
      x == root || (|root| < |x| && IsPrefix(FoldPath(root), FoldPath(x)) && (infinite || |x| == |root| + 1))
  {
    TextSame(root, x);
    AtOrBelowExactly(root, x);
    if |root| < |x| && IsPrefix(FoldPath(root), FoldPath(x)) { DepthExactly(root, x); }
  }

  lemma AtOrBelowExactly(root: Path, x: Path)
    requires Clean(root) && Clean(x)
    ensures AtOrBelow(Text(root), Text(x)) <==> x == root || (|root| < |x| && IsPrefix(FoldPath(root), FoldPath(x)))
  {
    TextSame(root, x);
    LikeExactly(root, x);
    if root == [] { assert TrimSlash("/") + "/" == "/"; }
  }

  /** What is left of the text has no separator exactly if one component is left. */
  lemma DepthExactly(root: Path, x: Path)
    requires Clean(root) && Clean(x) && Ascii(Text(root)) && |root| < |x| && IsPrefix(FoldPath(root), FoldPath(x))
    ensures NotDeeper(Text(root), Text(x)) <==> |x| == |root| + 1
  {
    SubstrExactly(root, x);
    RestDepth(x[|root|..], root == []);
  }

  /** No separator comes after the first exactly if one component is left; the first character of a name may be
      left out. */
  lemma RestDepth(rest: Path, skipped: bool)
    requires Clean(rest) && rest != []
    ensures '/' !in Substr(Below(rest), if skipped then 3 else 2) <==> |rest| == 1
  {
    BelowShape(rest);
    if skipped {
      NoSeparatorFirst(rest);
      SkipsFirst(Below(rest)[1..]);
      assert Below(rest)[2..] == Below(rest)[1..][1..];
    }
  }

  lemma SkipsFirst(s: string)
    requires s != "" && s[0] != '/'
    ensures '/' in s[1..] <==> '/' in s
  {
    assert s == [s[0]] + s[1..];
  }
}
