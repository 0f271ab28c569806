/** The builder and the strict reader agree. */
module ArchiveProofs {
  import opened ArchiveNames
  import opened Archive

  // ---------------------------------------------------------------------------
  // What an accepted archive looks like
  // ---------------------------------------------------------------------------

  function TotalBytes(entries: seq<Entry>): int {
    if entries == [] then 0 else TotalBytes(entries[..|entries| - 1]) + |entries[|entries| - 1].bytes|
  }

  ghost predicate Ascending(names: seq<string>) {
    |names| < 2 || (Ascending(names[..|names| - 1]) && Less(names[|names| - 2], names[|names| - 1]))
  }

  lemma {:induction false} AscendingPair(names: seq<string>, i: nat, j: nat)
    requires Ascending(names) && i < j < |names|
    ensures Less(names[i], names[j])
    decreases |names|
  {
    var n := |names| - 1;
    if j < n {
      AscendingPair(names[..n], i, j);
    } else if i < n - 1 {
      AscendingPair(names[..n], i, n - 1);
      LessTransitive(names[i], names[n - 1], names[n]);
    }
  }

  lemma {:induction false} NotRepeated(names: seq<string>, i: nat, j: nat)
    requires Ascending(names) && i < |names| && j < |names| && names[i] == names[j]
    ensures i == j
  {
    LessIrreflexive(names[i]);
    if i < j { AscendingPair(names, i, j); } else if j < i { AscendingPair(names, j, i); }
  }

  ghost function NamesOf(entries: seq<Entry>): (names: seq<string>)
    ensures |names| == |entries| && forall i :: 0 <= i < |entries| ==> names[i] == entries[i].name
  {
    seq(|entries|, i requires 0 <= i < |entries| => entries[i].name)
  }

  /** The parts came in order, all under names that the reader takes. */
  ghost predicate NamesRead(parts: seq<Entry>, last: string) {
    && Ascending(NamesOf(parts)) && last == (if parts == [] then "" else parts[|parts| - 1].name)
    && (forall i :: 0 <= i < |parts| ==> IsPartName(parts[i].name) && parts[i].regular)
  }

  /** What was observed of the parts. */
  ghost predicate PartsObserved(parts: seq<Entry>, observed: map<string, Observed>, t: Tools) {
    && |observed| == |parts|
    && (forall i :: 0 <= i < |parts| ==>
         parts[i].name in observed && observed[parts[i].name] == Observed(|parts[i].bytes|, t.digest(parts[i].bytes)))
    && (forall name :: name in observed ==> name in NamesOf(parts))
  }

  ghost predicate PartsRead(parts: seq<Entry>, observed: map<string, Observed>, last: string, t: Tools) {
    NamesRead(parts, last) && PartsObserved(parts, observed, t)
  }

  /** What the reader knows after `entries`: the header came first, then parts in canonical order,
      then, if it has come, the manifest. */
  ghost predicate Reads(entries: seq<Entry>, s: ReadState, l: Limits, t: Tools) {
    && PartsRead(s.parts, s.observed, s.last, t) && (s.parts != [] ==> |s.parts| <= l.maxParts)
    && Layout(entries, s, l, t)
  }

  ghost predicate Layout(entries: seq<Entry>, s: ReadState, l: Limits, t: Tools) {
    && s.index == |entries| && s.expanded == TotalBytes(entries)
    && if entries == [] then s.parts == [] && s.manifest.None?
       else
         && s.expanded <= l.maxExpanded && HeaderRead(entries[0], t)
         && if s.manifest.None? then s.parts == entries[1..] else ManifestLast(entries, s, l, t)
  }

  ghost predicate ManifestLast(entries: seq<Entry>, s: ReadState, l: Limits, t: Tools) {
    && |entries| >= 2 && s.parts == entries[1..|entries| - 1]
    && ManifestRead(entries[|entries| - 1], s.manifest, l, t)
  }

  ghost predicate HeaderRead(e: Entry, t: Tools) {
    e.name == FORMAT_ENTRY && e.regular && 1 <= |e.bytes| <= 1024 && t.isHeader(e.bytes)
  }

  ghost predicate ManifestRead(e: Entry, m: Option<Manifest>, l: Limits, t: Tools) {
    e.name == MANIFEST_ENTRY && e.regular && 1 <= |e.bytes| <= l.maxManifest && t.decode(e.bytes) == m
  }

  lemma AscendingLast(names: seq<string>, name: string)
    requires Ascending(names) && (names != [] ==> Less(names[|names| - 1], name))
    ensures Ascending(names + [name])
  {
    assert (names + [name])[..|names|] == names;
  }

  lemma NamesReadNext(parts: seq<Entry>, last: string, e: Entry)
    requires NamesRead(parts, last) && IsPartName(e.name) && e.regular && Less(last, e.name)
    ensures NamesRead(parts + [e], e.name)
  {
    AscendingLast(NamesOf(parts), e.name);
    assert NamesOf(parts + [e]) == NamesOf(parts) + [e.name];
  }

  lemma PartsObservedNext(parts: seq<Entry>, observed: map<string, Observed>, e: Entry, t: Tools)
    requires PartsObserved(parts, observed, t) && e.name !in observed
    ensures PartsObserved(parts + [e], observed[e.name := Observed(|e.bytes|, t.digest(e.bytes))], t)
  {
    var more := parts + [e];
    var seen := observed[e.name := Observed(|e.bytes|, t.digest(e.bytes))];
    forall name | name in seen ensures name in NamesOf(more) {
      if name == e.name {
        assert NamesOf(more)[|parts|] == name;
      } else {
        var i :| 0 <= i < |parts| && NamesOf(parts)[i] == name;
        assert NamesOf(more)[i] == name;
      }
    }
  }

  lemma PartsReadNext(s: ReadState, e: Entry, l: Limits, t: Tools)
    requires PartsRead(s.parts, s.observed, s.last, t) && e.regular && ConsumePart(s, e, l, t).Some?
    ensures var u := ConsumePart(s, e, l, t).value; PartsRead(u.parts, u.observed, u.last, t)
  {
    NamesReadNext(s.parts, s.last, e);
    PartsObservedNext(s.parts, s.observed, e, t);
  }

  lemma {:induction false} AfterMeans(entries: seq<Entry>, l: Limits, t: Tools)
    requires After(entries, l, t).Some?
    ensures Reads(entries, After(entries, l, t).value, l, t)
  {
    if entries != [] {
      var n := |entries| - 1;
      AfterMeans(entries[..n], l, t);
      ConsumeMeans(entries, After(entries[..n], l, t).value, l, t);
    }
  }

  lemma ConsumeMeans(entries: seq<Entry>, s: ReadState, l: Limits, t: Tools)
    requires entries != [] && Reads(entries[..|entries| - 1], s, l, t) && Consume(s, entries[|entries| - 1], l, t).Some?
    ensures Reads(entries, Consume(s, entries[|entries| - 1], l, t).value, l, t)
  {
    var e := entries[|entries| - 1];
    LayoutNext(entries, s, l, t);
    if s.index != 0 && e.name != MANIFEST_ENTRY {
      PartsReadNext(s.(expanded := s.expanded + |e.bytes|), e, l, t);
    }
  }

  lemma LayoutNext(entries: seq<Entry>, s: ReadState, l: Limits, t: Tools)
    requires entries != [] && Layout(entries[..|entries| - 1], s, l, t)
    requires Consume(s, entries[|entries| - 1], l, t).Some?
    ensures Layout(entries, Consume(s, entries[|entries| - 1], l, t).value, l, t)
  {
    var n := |entries| - 1;
    if s.index == 0 {
      assert entries[1..] == [];
    } else {
      assert entries[1..n] == entries[..n][1..];
      assert entries[1..] == entries[1..n] + [entries[n]];
    }
  }

  // ---------------------------------------------------------------------------
  // The declared parts
  // ---------------------------------------------------------------------------

  ghost function EntriesOf(parts: seq<Part>): (names: seq<string>)
    ensures |names| == |parts| && forall i :: 0 <= i < |parts| ==> names[i] == parts[i].entry
  {
    seq(|parts|, i requires 0 <= i < |parts| => parts[i].entry)
  }

  /** No file has more parts than eight digits can number. */
  ghost predicate ShortIndices(files: seq<File>) {
    forall i :: 0 <= i < |files| ==> |files[i].parts| <= FIRST_LONG_INDEX
  }

  ghost predicate FileNamed(f: File, maxPart: int) {
    IsRef(f.ref) && PartsValid(f.ref, f.parts, maxPart)
  }

  ghost predicate FilesInOrder(files: seq<File>, maxPart: int) {
    RefsAscend(files) && forall i :: 0 <= i < |files| ==> FileNamed(files[i], maxPart)
  }

  lemma ValidInOrder(files: seq<File>, l: Limits, maxPart: int, t: Tools)
    requires FilesValid(files, l, maxPart, t)
    ensures FilesInOrder(files, maxPart)
  {
    forall i | 0 <= i < |files| ensures FileNamed(files[i], maxPart) {
      assert FileValid(files[i], maxPart, t);
    }
  }

  lemma InOrderShorter(files: seq<File>, maxPart: int)
    requires files != [] && FilesInOrder(files, maxPart) && ShortIndices(files)
    ensures FilesInOrder(files[..|files| - 1], maxPart) && ShortIndices(files[..|files| - 1])
  {
  }

  /** Every declared part is a part of one of the files, under the name of its position. */
  lemma {:induction false} DeclaredIs(files: seq<File>, k: nat) returns (i: nat, p: nat)
    requires k < |Declared(files)|
    ensures i < |files| && p < |files[i].parts| && Declared(files)[k] == files[i].parts[p]
  {
    var n := |files| - 1;
    if k < |Declared(files[..n])| {
      i, p := DeclaredIs(files[..n], k);
    } else {
      i, p := n, k - |Declared(files[..n])|;
    }
  }

  lemma DeclaredName(files: seq<File>, maxPart: int, k: nat) returns (i: nat, p: nat)
    requires FilesInOrder(files, maxPart) && k < |Declared(files)|
    ensures i < |files| && p < |files[i].parts| && IsRef(files[i].ref)
    ensures Declared(files)[k].entry == PartName(files[i].ref, p)
  {
    i, p := DeclaredIs(files, k);
    assert FileNamed(files[i], maxPart);
    assert PartValid(files[i].ref, files[i].parts[p], p, maxPart);
  }

  lemma {:induction false} AscendingJoin(a: seq<string>, b: seq<string>)
    requires Ascending(a) && Ascending(b) && (a != [] && b != [] ==> Less(a[|a| - 1], b[0]))
    ensures Ascending(a + b)
    decreases |b|
  {
    if b == [] {
      assert a + b == a;
    } else {
      var n := |b| - 1;
      AscendingJoin(a, b[..n]);
      AscendingLast(a + b[..n], b[n]);
      assert a + b == a + b[..n] + [b[n]];
    }
  }

  lemma Neighbours(ref: string, parts: seq<Part>, maxPart: int, n: nat)
    requires IsRef(ref) && PartsValid(ref, parts, maxPart) && 0 < n < |parts| <= FIRST_LONG_INDEX
    ensures Less(parts[n - 1].entry, parts[n].entry)
  {
    assert PartValid(ref, parts[n - 1], n - 1, maxPart) && PartValid(ref, parts[n], n, maxPart);
    PartNameOrder(ref, n - 1, ref, n);
  }

  lemma ShorterValid(ref: string, parts: seq<Part>, maxPart: int)
    requires PartsValid(ref, parts, maxPart) && parts != []
    ensures PartsValid(ref, parts[..|parts| - 1], maxPart)
  {
    var fewer := parts[..|parts| - 1];
    forall i | 0 <= i < |fewer| ensures PartValid(ref, fewer[i], i, maxPart) {
      assert PartValid(ref, parts[i], i, maxPart);
    }
  }

  /** The parts of a file ascend by index. */
  lemma {:induction false} FileAscends(ref: string, parts: seq<Part>, maxPart: int)
    requires IsRef(ref) && PartsValid(ref, parts, maxPart) && |parts| <= FIRST_LONG_INDEX
    ensures Ascending(EntriesOf(parts))
    decreases |parts|
  {
    var n := |parts| - 1;
    if n >= 1 {
      ShorterValid(ref, parts, maxPart);
      FileAscends(ref, parts[..n], maxPart);
      Neighbours(ref, parts, maxPart, n);
      AscendingLast(EntriesOf(parts[..n]), parts[n].entry);
      assert EntriesOf(parts) == EntriesOf(parts[..n]) + [parts[n].entry];
    }
  }

  lemma {:induction false} SizesAtLeast(ref: string, parts: seq<Part>, maxPart: int, n: nat)
    requires n <= |parts|
    ensures PartsValid(ref, parts, maxPart) ==> TotalSize(parts[..n]) >= n
  {
    if n > 0 && PartsValid(ref, parts, maxPart) {
      SizesAtLeast(ref, parts, maxPart, n - 1);
      assert PartValid(ref, parts[n - 1], n - 1, maxPart);
      assert parts[..n][..n - 1] == parts[..n - 1];
    }
  }

  /** The declared names ascend: within a file by index, from file to file by reference. */
  lemma {:induction false} DeclaredAscend(files: seq<File>, maxPart: int)
    requires FilesInOrder(files, maxPart) && ShortIndices(files)
    ensures Ascending(EntriesOf(Declared(files)))
  {
    if files != [] {
      var n := |files| - 1;
      InOrderShorter(files, maxPart);
      DeclaredAscend(files[..n], maxPart);
      LastFileJoins(files, maxPart);
    }
  }

  lemma LastFileJoins(files: seq<File>, maxPart: int)
    requires files != [] && FilesInOrder(files, maxPart) && ShortIndices(files)
    requires Ascending(EntriesOf(Declared(files[..|files| - 1])))
    ensures Ascending(EntriesOf(Declared(files)))
  {
    var n := |files| - 1;
    var before, f := Declared(files[..n]), files[n];
    assert FileNamed(f, maxPart);
    FileAscends(f.ref, f.parts, maxPart);
    if before != [] && f.parts != [] { FilesJoin(files, maxPart); }
    AscendingJoin(EntriesOf(before), EntriesOf(f.parts));
    assert EntriesOf(Declared(files)) == EntriesOf(before) + EntriesOf(f.parts);
  }

  /** The first part of a file comes after the last part before it. */
  lemma FilesJoin(files: seq<File>, maxPart: int)
    requires files != [] && FilesInOrder(files, maxPart) && ShortIndices(files)
    requires Declared(files[..|files| - 1]) != [] && files[|files| - 1].parts != []
    ensures var before := Declared(files[..|files| - 1]);
            Less(before[|before| - 1].entry, files[|files| - 1].parts[0].entry)
  {
    var n := |files| - 1;
    InOrderShorter(files, maxPart);
    var i, p := DeclaredName(files[..n], maxPart, |Declared(files[..n])| - 1);
    assert FileNamed(files[n], maxPart) && PartValid(files[n].ref, files[n].parts[0], 0, maxPart);
    PartNameOrder(files[i].ref, p, files[n].ref, 0);
  }

  // ---------------------------------------------------------------------------
  // Ascending lists
  // ---------------------------------------------------------------------------

  ghost function Members(names: seq<string>): set<string> {
    set x | x in names
  }

  lemma {:induction false} MembersCount(names: seq<string>)
    requires Ascending(names)
    ensures |Members(names)| == |names|
  {
    if names != [] {
      var n := |names| - 1;
      var last := names[n];
      MembersCount(names[..n]);
      if last in names[..n] {
        var i :| 0 <= i < n && names[i] == last;
        NotRepeated(names, i, n);
      }
      assert names == names[..n] + [last];
      assert Members(names) == Members(names[..n]) + {last};
    }
  }

  lemma {:induction false} SameMembersSameList(a: seq<string>, b: seq<string>)
    requires Ascending(a) && Ascending(b) && Members(a) == Members(b)
    ensures a == b
  {
    MembersCount(a);
    MembersCount(b);
    if a != [] {
      var n := |a| - 1;
      LastIsGreatest(a, b);
      assert a == a[..n] + [a[n]] && b == b[..n] + [b[n]];
      WithoutLast(a);
      WithoutLast(b);
      SameMembersSameList(a[..n], b[..n]);
    }
  }

  lemma WithoutLast(a: seq<string>)
    requires Ascending(a) && a != []
    ensures Members(a[..|a| - 1]) == Members(a) - {a[|a| - 1]}
  {
    var n := |a| - 1;
    assert a == a[..n] + [a[n]];
    if a[n] in a[..n] {
      var i :| 0 <= i < n && a[i] == a[n];
      NotRepeated(a, i, n);
    }
  }

  lemma LastIsGreatest(a: seq<string>, b: seq<string>)
    requires Ascending(a) && Ascending(b) && Members(a) == Members(b) && |a| == |b| > 0
    ensures a[|a| - 1] == b[|b| - 1]
  {
    var x, y := a[|a| - 1], b[|b| - 1];
    assert x in Members(b) && y in Members(a);
    var i :| 0 <= i < |b| && b[i] == x;
    var j :| 0 <= j < |a| && a[j] == y;
    if i < |b| - 1 && j < |a| - 1 {
      AscendingPair(b, i, |b| - 1);
      AscendingPair(a, j, |a| - 1);
      LessTransitive(x, y, x);
      LessIrreflexive(x);
    }
  }

  lemma SubsetBySize(a: set<string>, b: set<string>)
    requires a <= b && |a| == |b|
    ensures a == b
  {
    assert b == a + (b - a);
  }

  /** As many names, all of them among the others, in the same order: the same names. */
  lemma AllAmongAsMany(a: seq<string>, b: seq<string>)
    requires Ascending(a) && Ascending(b) && |a| == |b| && forall x :: x in a ==> x in b
    ensures a == b
  {
    MembersCount(a);
    MembersCount(b);
    SubsetBySize(Members(a), Members(b));
    SameMembersSameList(a, b);
  }

  // ---------------------------------------------------------------------------
  // Archives that are read are canonical
  // ---------------------------------------------------------------------------

  /** The entries are the header, each declared part once in order, and the manifest. */
  ghost predicate Canonical(entries: seq<Entry>, m: Manifest, t: Tools) {
    var d := Declared(m.files);
    && |entries| == |d| + 2 && HeaderRead(entries[0], t)
    && (forall i :: 0 <= i < |d| ==> PartStored(entries[i + 1], d[i], t))
    && entries[|d| + 1].name == MANIFEST_ENTRY && entries[|d| + 1].regular
    && t.decode(entries[|d| + 1].bytes) == Some(m)
  }

  /** What the reader asks beyond the canonical form. */
  ghost predicate WithinLimits(entries: seq<Entry>, m: Manifest, l: Limits) {
    && entries != [] && ShortIndices(m.files) && TotalBytes(entries) <= l.maxExpanded
    && 1 <= |entries[|entries| - 1].bytes| <= l.maxManifest
  }

  ghost predicate PartStored(e: Entry, p: Part, t: Tools) {
    e.name == p.entry && e.regular && |e.bytes| == p.size && t.digest(e.bytes) == p.digest
  }

  lemma {:induction false} DeclaredHas(files: seq<File>, i: nat, p: nat) returns (k: nat)
    requires i < |files| && p < |files[i].parts|
    ensures k < |Declared(files)| && Declared(files)[k] == files[i].parts[p]
  {
    var n := |files| - 1;
    if i < n {
      k := DeclaredHas(files[..n], i, p);
    } else {
      k := |Declared(files[..n])| + p;
    }
  }

  /** Names that were observed have eight digits, so the declared indices are short. */
  lemma ObservedIndicesShort(m: Manifest, maxPart: int, t: Tools, s: ReadState)
    requires FilesInOrder(m.files, maxPart) && Agrees(m, s.observed) && PartsRead(s.parts, s.observed, s.last, t)
    ensures ShortIndices(m.files)
  {
    forall i | 0 <= i < |m.files| ensures |m.files[i].parts| <= FIRST_LONG_INDEX {
      var f := m.files[i];
      if f.parts != [] {
        var p := |f.parts| - 1;
        var k := DeclaredHas(m.files, i, p);
        assert FileNamed(f, maxPart) && PartValid(f.ref, f.parts[p], p, maxPart);
        assert f.parts[p].entry in s.observed;
        var j :| 0 <= j < |s.parts| && NamesOf(s.parts)[j] == f.parts[p].entry;
        PartNameMatches(f.ref, p);
      }
    }
  }

  /** An archive whose entries are read lists each declared part exactly once, in canonical order, with the
      declared size and digest, and no other part. */
  lemma ListedIsCanonical(entries: seq<Entry>, l: Limits, maxPart: int, t: Tools, m: Manifest)
    requires Listed(entries, l, maxPart, t, m)
    ensures Canonical(entries, m, t) && WithinLimits(entries, m, l)
  {
    var s := After(entries, l, t).value;
    AfterMeans(entries, l, t);
    ObservedAsDeclared(m, l, maxPart, t, s);
    CanonicalFrom(entries, s, l, t, m);
  }

  lemma CanonicalFrom(entries: seq<Entry>, s: ReadState, l: Limits, t: Tools, m: Manifest)
    requires Layout(entries, s, l, t) && s.manifest == Some(m)
    requires ShortIndices(m.files) && |s.parts| == |Declared(m.files)|
    requires forall i :: 0 <= i < |s.parts| ==> PartStored(s.parts[i], Declared(m.files)[i], t)
    ensures Canonical(entries, m, t) && WithinLimits(entries, m, l)
  {
    var d := Declared(m.files);
    forall i | 0 <= i < |d| ensures PartStored(entries[i + 1], d[i], t) {
      assert s.parts[i] == entries[i + 1];
    }
  }

  lemma ObservedAsDeclared(m: Manifest, l: Limits, maxPart: int, t: Tools, s: ReadState)
    requires ManifestValid(m, l, maxPart, t) && Agrees(m, s.observed) && PartsRead(s.parts, s.observed, s.last, t)
    ensures ShortIndices(m.files) && |s.parts| == |Declared(m.files)|
    ensures forall i :: 0 <= i < |s.parts| ==> PartStored(s.parts[i], Declared(m.files)[i], t)
  {
    var limit := PartLimit(maxPart, m);
    ValidInOrder(m.files, l, limit, t);
    ObservedIndicesShort(m, limit, t, s);
    DeclaredAscend(m.files, limit);
    PartsAreDeclared(m, s, t);
  }

  lemma PartsAreDeclared(m: Manifest, s: ReadState, t: Tools)
    requires Agrees(m, s.observed) && PartsRead(s.parts, s.observed, s.last, t)
    requires Ascending(EntriesOf(Declared(m.files)))
    ensures |s.parts| == |Declared(m.files)|
    ensures forall i :: 0 <= i < |s.parts| ==> PartStored(s.parts[i], Declared(m.files)[i], t)
  {
    var d := Declared(m.files);
    forall x | x in EntriesOf(d) ensures x in NamesOf(s.parts) {
      var i :| 0 <= i < |d| && EntriesOf(d)[i] == x;
      assert d[i].entry in s.observed;
    }
    AllAmongAsMany(EntriesOf(d), NamesOf(s.parts));
    forall i | 0 <= i < |s.parts| ensures PartStored(s.parts[i], d[i], t) {
      assert EntriesOf(d)[i] == NamesOf(s.parts)[i];
    }
  }

  // ---------------------------------------------------------------------------
  // Canonical archives are read
  // ---------------------------------------------------------------------------

  lemma {:induction false} TotalGrows(entries: seq<Entry>, n: nat)
    requires n <= |entries|
    ensures TotalBytes(entries[..n]) <= TotalBytes(entries)
    decreases |entries| - n
  {
    if n == |entries| {
      assert entries[..n] == entries;
    } else {
      assert entries[..n + 1][..n] == entries[..n];
      TotalGrows(entries, n + 1);
    }
  }

  /** The header and these parts come first. */
  ghost predicate BeginsWith(entries: seq<Entry>, d: seq<Part>, t: Tools) {
    |entries| > |d| && HeaderRead(entries[0], t) && forall i :: 0 <= i < |d| ==> PartStored(entries[i + 1], d[i], t)
  }

  /** Names that the reader takes one after the other. */
  ghost predicate Readable(d: seq<Part>, l: Limits) {
    Ascending(EntriesOf(d)) && |d| <= l.maxParts && forall i :: 0 <= i < |d| ==> IsPartName(d[i].entry)
  }

  lemma DeclaredReadable(m: Manifest, l: Limits, maxPart: int, t: Tools)
    requires ManifestValid(m, l, maxPart, t) && ShortIndices(m.files)
    ensures Readable(Declared(m.files), l)
  {
    var limit := PartLimit(maxPart, m);
    ValidInOrder(m.files, l, limit, t);
    DeclaredAscend(m.files, limit);
    forall k | 0 <= k < |Declared(m.files)| ensures IsPartName(Declared(m.files)[k].entry) {
      var i, p := DeclaredName(m.files, limit, k);
      PartNameMatches(m.files[i].ref, p);
    }
  }

  /** The reader gets through the header and the parts. */
  lemma {:induction false} AfterSome(entries: seq<Entry>, d: seq<Part>, l: Limits, t: Tools, n: nat)
    requires BeginsWith(entries, d, t) && Readable(d, l) && TotalBytes(entries) <= l.maxExpanded && n <= |d|
    ensures After(entries[..n + 1], l, t).Some? && After(entries[..n + 1], l, t).value.manifest.None?
  {
    assert entries[..n + 1][..n] == entries[..n];
    TotalGrows(entries, n + 1);
    if n > 0 {
      AfterSome(entries, d, l, t, n - 1);
      PartTaken(entries, d, l, t, n, After(entries[..n], l, t).value);
    } else {
      assert entries[..0] == [];
    }
  }

  lemma PartTaken(entries: seq<Entry>, d: seq<Part>, l: Limits, t: Tools, n: nat, s: ReadState)
    requires BeginsWith(entries, d, t) && Readable(d, l) && 0 < n <= |d|
    requires TotalBytes(entries[..n + 1]) <= l.maxExpanded && s.manifest.None? && After(entries[..n], l, t) == Some(s)
    ensures Consume(s, entries[n], l, t).Some? && Consume(s, entries[n], l, t).value.manifest.None?
  {
    BeforePart(entries, l, t, n, s);
    var e := entries[n];
    assert PartStored(entries[n - 1 + 1], d[n - 1], t);
    OtherNames(e.name);
    ReadBefore(entries, d, t, n, s);
    NextPartTaken(s.(expanded := s.expanded + |e.bytes|), e, l, t);
  }

  /** What the reader has seen before entry `n`, and the bytes it will have read with it. */
  lemma BeforePart(entries: seq<Entry>, l: Limits, t: Tools, n: nat, s: ReadState)
    requires 0 < n < |entries| && After(entries[..n], l, t) == Some(s) && s.manifest.None?
    ensures s.index == n && s.parts == entries[1..n] && PartsRead(s.parts, s.observed, s.last, t)
    ensures s.expanded + |entries[n].bytes| == TotalBytes(entries[..n + 1])
  {
    AfterMeans(entries[..n], l, t);
    assert entries[..n + 1][..n] == entries[..n];
    assert entries[..n][1..] == entries[1..n];
  }

  /** What was read before a part comes before it in order. */
  lemma ReadBefore(entries: seq<Entry>, d: seq<Part>, t: Tools, n: nat, s: ReadState)
    requires BeginsWith(entries, d, t) && Ascending(EntriesOf(d)) && 0 < n <= |d|
    requires s.parts == entries[1..n] && PartsRead(s.parts, s.observed, s.last, t) && Less("", entries[n].name)
    ensures Less(s.last, entries[n].name) && entries[n].name !in s.observed
  {
    var name := entries[n].name;
    assert PartStored(entries[n - 1 + 1], d[n - 1], t);
    forall j | 0 <= j < n - 1 ensures Less(s.parts[j].name, name) {
      assert PartStored(entries[j + 1], d[j], t);
      AscendingPair(EntriesOf(d), j, n - 1);
    }
    if name in s.observed {
      var j :| 0 <= j < |s.parts| && NamesOf(s.parts)[j] == name;
      LessIrreflexive(name);
    }
  }

  lemma NextPartTaken(s: ReadState, e: Entry, l: Limits, t: Tools)
    requires IsPartName(e.name) && Less(s.last, e.name) && e.name !in s.observed && |s.observed| + 1 <= l.maxParts
    ensures ConsumePart(s, e, l, t).Some? && ConsumePart(s, e, l, t).value.manifest == s.manifest
  {
  }

  lemma CanonicalIsListed(entries: seq<Entry>, l: Limits, maxPart: int, t: Tools, m: Manifest)
    requires Canonical(entries, m, t) && WithinLimits(entries, m, l) && ManifestValid(m, l, maxPart, t)
    ensures Listed(entries, l, maxPart, t, m)
  {
    var d := Declared(m.files);
    DeclaredReadable(m, l, maxPart, t);
    AfterSome(entries, d, l, t, |d|);
    AllRead(entries, d, l, t, m, After(entries[..|d| + 1], l, t).value);
  }

  /** The manifest is taken last, and what was observed is what it declares. */
  lemma AllRead(entries: seq<Entry>, d: seq<Part>, l: Limits, t: Tools, m: Manifest, s: ReadState)
    requires Canonical(entries, m, t) && WithinLimits(entries, m, l) && d == Declared(m.files)
    requires After(entries[..|d| + 1], l, t) == Some(s) && s.manifest.None?
    ensures After(entries, l, t).Some? && After(entries, l, t).value.manifest == Some(m)
    ensures Agrees(m, After(entries, l, t).value.observed)
  {
    PartsAgree(entries, d, l, t, m, s);
    ManifestTaken(entries, s, l, t, m);
  }

  lemma PartsAgree(entries: seq<Entry>, d: seq<Part>, l: Limits, t: Tools, m: Manifest, s: ReadState)
    requires BeginsWith(entries, d, t) && d == Declared(m.files)
    requires After(entries[..|d| + 1], l, t) == Some(s) && s.manifest.None?
    ensures Agrees(m, s.observed) && s.index > 0 && s.expanded == TotalBytes(entries[..|d| + 1])
  {
    var n := |d| + 1;
    AfterMeans(entries[..n], l, t);
    assert entries[..n][1..] == entries[1..n];
    PartsStored(entries, d, t, s.parts);
    ObservedAgrees(m, s, t);
  }

  lemma PartsStored(entries: seq<Entry>, d: seq<Part>, t: Tools, parts: seq<Entry>)
    requires BeginsWith(entries, d, t) && parts == entries[1..|d| + 1]
    ensures forall i :: 0 <= i < |d| ==> PartStored(parts[i], d[i], t)
  {
    forall i | 0 <= i < |d| ensures PartStored(parts[i], d[i], t) {
      assert PartStored(entries[i + 1], d[i], t);
    }
  }

  lemma ManifestTaken(entries: seq<Entry>, s: ReadState, l: Limits, t: Tools, m: Manifest)
    requires entries != [] && After(entries[..|entries| - 1], l, t) == Some(s) && s.manifest.None? && s.index > 0
    requires s.expanded == TotalBytes(entries[..|entries| - 1]) && TotalBytes(entries) <= l.maxExpanded
    requires ManifestRead(entries[|entries| - 1], Some(m), l, t)
    ensures After(entries, l, t).Some?
    ensures After(entries, l, t).value.manifest == Some(m) && After(entries, l, t).value.observed == s.observed
  {
  }

  lemma ObservedAgrees(m: Manifest, s: ReadState, t: Tools)
    requires PartsRead(s.parts, s.observed, s.last, t) && |s.parts| == |Declared(m.files)|
    requires forall i :: 0 <= i < |s.parts| ==> PartStored(s.parts[i], Declared(m.files)[i], t)
    ensures Agrees(m, s.observed)
  {
  }
}
