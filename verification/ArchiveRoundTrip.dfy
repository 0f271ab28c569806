/** Which archives are accepted, and what is read back of an archive that was built. */
module ArchiveRoundTrip {
  import opened ArchiveNames
  import opened Archive
  import opened ArchiveProofs
  import opened ArchiveContents

  // ---------------------------------------------------------------------------
  // What is accepted
  // ---------------------------------------------------------------------------

  /** The entries are read exactly if they are canonical, within the limits, and the manifest is valid. */
  lemma ListedExactly(entries: seq<Entry>, l: Limits, maxPart: int, t: Tools, m: Manifest)
    ensures Listed(entries, l, maxPart, t, m)
       <==> Canonical(entries, m, t) && WithinLimits(entries, m, l) && ManifestValid(m, l, maxPart, t)
  {
    if Listed(entries, l, maxPart, t, m) {
      ListedIsCanonical(entries, l, maxPart, t, m);
    } else if Canonical(entries, m, t) && WithinLimits(entries, m, l) && ManifestValid(m, l, maxPart, t) {
      CanonicalIsListed(entries, l, maxPart, t, m);
    }
  }

  lemma NameHasRef(ref: string, index: nat)
    requires IsRef(ref)
    ensures RefIn(PartName(ref, index)) == ref
  {
    assert PartName(ref, index)[6..15] == ref;
  }

  lemma SameRefSameFile(files: seq<File>, i: nat, j: nat)
    requires RefsAscend(files) && i < |files| && j < |files| && files[i].ref == files[j].ref
    ensures i == j
  {
    LessIrreflexive(files[i].ref);
  }

  /** A valid physical file is empty exactly if it has no parts, and other files have none. */
  lemma PartsOfValid(f: File, maxPart: int, t: Tools)
    requires FileValid(f, maxPart, t)
    ensures f.layout == 1 ==> (f.size == 0 <==> f.parts == [])
    ensures f.layout != 1 ==> f.parts == []
  {
    if f.layout == 1 && f.parts != [] {
      SizesAtLeast(f.ref, f.parts, maxPart, |f.parts|);
      assert f.parts[..|f.parts|] == f.parts;
    }
  }

  /** The parts that a valid manifest declares are those of its physical files. */
  lemma DeclaredPartsOfFiles(m: Manifest, l: Limits, maxPart: int, t: Tools, parts: seq<Entry>)
    requires ManifestValid(m, l, maxPart, t) && |parts| == |Declared(m.files)|
    requires forall k :: 0 <= k < |parts| ==> PartStored(parts[k], Declared(m.files)[k], t)
    ensures PartsOfFiles(m.files, parts)
  {
    var limit := PartLimit(maxPart, m);
    ValidInOrder(m.files, l, limit, t);
    forall ref | HasRef(parts, ref) ensures ref in PhysicalRefs(m.files) {
      var i := FileOfRef(m.files, limit, t, parts, ref);
      PartsOfValid(m.files[i], limit, t);
    }
    forall i | 0 <= i < |m.files| && m.files[i].layout == 1
      ensures m.files[i].size == 0 <==> !HasRef(parts, m.files[i].ref)
    {
      PartsOfValid(m.files[i], limit, t);
      if m.files[i].parts != [] {
        FirstPartFound(m.files, limit, t, parts, i);
      } else if HasRef(parts, m.files[i].ref) {
        var j := FileOfRef(m.files, limit, t, parts, m.files[i].ref);
        SameRefSameFile(m.files, i, j);
      }
    }
  }

  lemma FileOfRef(files: seq<File>, limit: int, t: Tools, parts: seq<Entry>, ref: string) returns (i: nat)
    requires FilesInOrder(files, limit) && |parts| == |Declared(files)| && HasRef(parts, ref)
    requires forall k :: 0 <= k < |parts| ==> PartStored(parts[k], Declared(files)[k], t)
    ensures i < |files| && files[i].ref == ref && files[i].parts != []
  {
    var k :| 0 <= k < |parts| && RefIn(parts[k].name) == ref;
    assert PartStored(parts[k], Declared(files)[k], t);
    var p;
    i, p := DeclaredName(files, limit, k);
    NameHasRef(files[i].ref, p);
  }

  lemma FirstPartFound(files: seq<File>, limit: int, t: Tools, parts: seq<Entry>, i: nat)
    requires FilesInOrder(files, limit) && |parts| == |Declared(files)| && i < |files| && files[i].parts != []
    requires forall k :: 0 <= k < |parts| ==> PartStored(parts[k], Declared(files)[k], t)
    ensures HasRef(parts, files[i].ref)
  {
    var k := DeclaredHas(files, i, 0);
    assert PartStored(parts[k], Declared(files)[k], t);
    assert FileNamed(files[i], limit) && PartValid(files[i].ref, files[i].parts[0], 0, limit);
    NameHasRef(files[i].ref, 0);
    assert RefIn(parts[k].name) == files[i].ref;
  }

  /** The part entries of an archive. */
  ghost function PartsIn(entries: seq<Entry>): seq<Entry> {
    if |entries| < 2 then [] else entries[1..|entries| - 1]
  }

  /** Of entries that are read, the contents are checked as the bytes of the parts under each reference. */
  lemma ContentExactly(entries: seq<Entry>, l: Limits, maxPart: int, t: Tools, m: Manifest)
    requires Listed(entries, l, maxPart, t, m)
    ensures var s := After(entries, l, t).value;
      ContentChecked(m, Finished(s.contents, s.current), t) <==>
      ContentTrue(m, ContentsOf(m.files, PartsIn(entries)), t)
  {
    var s := After(entries, l, t).value;
    AfterMeans(entries, l, t);
    AfterGathers(entries, l, t);
    ObservedAsDeclared(m, l, maxPart, t, s);
    DeclaredPartsOfFiles(m, l, maxPart, t, s.parts);
    CheckedContents(m.files, s.parts, Finished(s.contents, s.current));
  }

  /** The reader accepts an archive file exactly if it is within its limit and holds a canonical archive,
      within the limits, whose manifest is valid and states the checksums of the contents. */
  lemma AcceptedExactly(packed: Bytes, l: Limits, maxPart: int, t: Tools, m: Manifest)
    ensures Accepted(packed, l, maxPart, t, m) <==>
      && Opens(packed, l, t)
      && var entries := t.unpack(packed).value.entries;
         && Canonical(entries, m, t) && WithinLimits(entries, m, l) && ManifestValid(m, l, maxPart, t)
         && ContentTrue(m, ContentsOf(m.files, PartsIn(entries)), t)
  {
    if Opens(packed, l, t) {
      var entries := t.unpack(packed).value.entries;
      ListedExactly(entries, l, maxPart, t, m);
      if Listed(entries, l, maxPart, t, m) { ContentExactly(entries, l, maxPart, t, m); }
    }
  }

  // ---------------------------------------------------------------------------
  // What is built
  // ---------------------------------------------------------------------------

  /** The source gives every part with the size and digest in the manifest. */
  ghost predicate SourceMatches(files: seq<File>, open: (string, int) -> Bytes, t: Tools) {
    forall i :: 0 <= i < |files| ==> FileSourced(files[i], open, t)
  }

  ghost predicate FileSourced(f: File, open: (string, int) -> Bytes, t: Tools) {
    forall p :: 0 <= p < |f.parts| ==>
      |open(f.ref, f.parts[p].index)| == f.parts[p].size && t.digest(open(f.ref, f.parts[p].index)) == f.parts[p].digest
  }

  lemma {:induction false} PartEntriesStored(files: seq<File>, open: (string, int) -> Bytes, t: Tools)
    requires SourceMatches(files, open, t)
    ensures |PartEntries(files, open)| == |Declared(files)|
    ensures forall k :: 0 <= k < |Declared(files)| ==> PartStored(PartEntries(files, open)[k], Declared(files)[k], t)
  {
    if files != [] {
      var n := |files| - 1;
      PartEntriesStored(files[..n], open, t);
      FileEntriesStored(files[n], open, t);
      var a, b := PartEntries(files[..n], open), FileEntries(files[n].ref, files[n].parts, open);
      assert PartEntries(files, open) == a + b && Declared(files) == Declared(files[..n]) + files[n].parts;
      StoredJoin(a, b, Declared(files[..n]), files[n].parts, t);
    }
  }

  lemma FileEntriesStored(f: File, open: (string, int) -> Bytes, t: Tools)
    requires FileSourced(f, open, t)
    ensures forall k :: 0 <= k < |f.parts| ==> PartStored(FileEntries(f.ref, f.parts, open)[k], f.parts[k], t)
  {
  }

  lemma StoredJoin(a: seq<Entry>, b: seq<Entry>, c: seq<Part>, d: seq<Part>, t: Tools)
    requires |a| == |c| && forall k :: 0 <= k < |c| ==> PartStored(a[k], c[k], t)
    requires |b| == |d| && forall k :: 0 <= k < |d| ==> PartStored(b[k], d[k], t)
    ensures forall k :: 0 <= k < |c + d| ==> PartStored((a + b)[k], (c + d)[k], t)
  {
  }

  lemma BuiltIsCanonical(m: Manifest, open: (string, int) -> Bytes, t: Tools)
    requires Sane(t) && SourceMatches(m.files, open, t)
    ensures Canonical(ArchiveOf(m, open, t), m, t)
  {
    PartEntriesStored(m.files, open, t);
    var entries, d := ArchiveOf(m, open, t), Declared(m.files);
    forall i | 0 <= i < |d| ensures PartStored(entries[i + 1], d[i], t) {
      assert entries[i + 1] == PartEntries(m.files, open)[i];
    }
  }

  lemma {:induction false} TotalBytesJoin(a: seq<Entry>, b: seq<Entry>)
    ensures TotalBytes(a + b) == TotalBytes(a) + TotalBytes(b)
  {
    if b == [] {
      assert a + b == a;
    } else {
      var n := |b| - 1;
      TotalBytesJoin(a, b[..n]);
      assert (a + b)[..|a| + n] == a + b[..n];
    }
  }

  /** Parts that are stored take the bytes that are declared. */
  lemma {:induction false} StoredBytes(entries: seq<Entry>, d: seq<Part>, t: Tools)
    requires |entries| == |d| && forall k :: 0 <= k < |d| ==> PartStored(entries[k], d[k], t)
    ensures TotalBytes(entries) == TotalSize(d)
  {
    if d != [] { StoredBytes(entries[..|d| - 1], d[..|d| - 1], t); }
  }

  /** The size of an archive before it is built. */
  lemma ArchiveSize(m: Manifest, open: (string, int) -> Bytes, t: Tools)
    requires SourceMatches(m.files, open, t)
    ensures TotalBytes(ArchiveOf(m, open, t)) == |t.header| + TotalSize(Declared(m.files)) + |t.encode(m)|
  {
    var parts := PartEntries(m.files, open);
    PartEntriesStored(m.files, open, t);
    StoredBytes(parts, Declared(m.files), t);
    var first, last := [Entry(FORMAT_ENTRY, t.header, true)], [Entry(MANIFEST_ENTRY, t.encode(m), true)];
    TotalBytesJoin(first, parts);
    TotalBytesJoin(first + parts, last);
    assert TotalBytes(first) == |t.header| by { assert first[..0] == []; }
    assert TotalBytes(last) == |t.encode(m)| by { assert last[..0] == []; }
  }

  // ---------------------------------------------------------------------------
  // The contents of what is built
  // ---------------------------------------------------------------------------

  /** The bytes of a file as the source gives its parts. */
  ghost function FileBytes(ref: string, parts: seq<Part>, open: (string, int) -> Bytes): Bytes {
    if parts == [] then []
    else FileBytes(ref, parts[..|parts| - 1], open) + open(ref, parts[|parts| - 1].index)
  }

  /** The contents of the physical files as the source gives them. */
  ghost function SourceContents(files: seq<File>, open: (string, int) -> Bytes): map<string, Bytes> {
    map ref | ref in PhysicalRefs(files) :: SourceContent(files, open, ref)
  }

  ghost function SourceContent(files: seq<File>, open: (string, int) -> Bytes, ref: string): Bytes {
    var f := FileAt(files, ref);
    if f.Some? then FileBytes(ref, f.value.parts, open) else []
  }

  lemma JoinThree(x: Bytes, y: Bytes, z: Bytes)
    ensures (x + y) + z == x + (y + z)
  {
  }

  lemma {:induction false} ContentJoin(a: seq<Entry>, b: seq<Entry>, ref: string)
    ensures ContentOf(a + b, ref) == ContentOf(a, ref) + ContentOf(b, ref)
  {
    if b == [] {
      assert a + b == a;
    } else {
      var n := |b| - 1;
      assert ContentOf(a + b, ref) == ContentOf(a + b[..n], ref) + BytesFor(b[n], ref) by {
        assert (a + b)[..|a| + n] == a + b[..n];
      }
      ContentJoin(a, b[..n], ref);
      JoinThree(ContentOf(a, ref), ContentOf(b[..n], ref), BytesFor(b[n], ref));
    }
  }

  lemma {:induction false} FileContent(f: File, maxPart: int, open: (string, int) -> Bytes, ref: string)
    requires FileNamed(f, maxPart)
    ensures ContentOf(FileEntries(f.ref, f.parts, open), ref)
         == if f.ref == ref then FileBytes(ref, f.parts, open) else []
    decreases |f.parts|
  {
    if f.parts != [] {
      var n := |f.parts| - 1;
      var before := f.(parts := f.parts[..n]);
      ShorterValid(f.ref, f.parts, maxPart);
      FileContent(before, maxPart, open, ref);
      var entries := FileEntries(f.ref, f.parts, open);
      assert entries[..n] == FileEntries(f.ref, before.parts, open);
      assert PartValid(f.ref, f.parts[n], n, maxPart);
      NameHasRef(f.ref, n);
    }
  }

  lemma {:induction false} BuiltContent(files: seq<File>, maxPart: int, open: (string, int) -> Bytes, ref: string)
    requires FilesInOrder(files, maxPart)
    ensures ContentOf(PartEntries(files, open), ref) == SourceContent(files, open, ref)
  {
    if files != [] {
      var n := |files| - 1;
      var last := files[n];
      assert FilesInOrder(files[..n], maxPart) by {
        assert forall i :: 0 <= i < n ==> files[..n][i] == files[i];
      }
      BuiltContent(files[..n], maxPart, open, ref);
      assert FileNamed(last, maxPart);
      FileContent(last, maxPart, open, ref);
      ContentJoin(PartEntries(files[..n], open), FileEntries(last.ref, last.parts, open), ref);
      if last.ref == ref { NotAmong(files, n, ref); }
    }
  }

  lemma {:induction false} NotAmong(files: seq<File>, n: nat, ref: string)
    requires RefsAscend(files) && n < |files| && files[n].ref == ref
    ensures FileAt(files[..n], ref).None?
  {
    if FileAt(files[..n], ref).Some? {
      var i := FileAtIs(files[..n], ref);
      SameRefSameFile(files, i, n);
    }
  }

  lemma {:induction false} FileAtIs(files: seq<File>, ref: string) returns (i: nat)
    requires FileAt(files, ref).Some?
    ensures i < |files| && files[i] == FileAt(files, ref).value && files[i].ref == ref
  {
    var n := |files| - 1;
    if files[n].ref == ref {
      i := n;
    } else {
      i := FileAtIs(files[..n], ref);
    }
  }

  lemma BuiltContents(m: Manifest, l: Limits, maxPart: int, open: (string, int) -> Bytes, t: Tools)
    requires ManifestValid(m, l, maxPart, t)
    ensures ContentsOf(m.files, PartEntries(m.files, open)) == SourceContents(m.files, open)
  {
    var limit := PartLimit(maxPart, m);
    ValidInOrder(m.files, l, limit, t);
    forall ref | ref in PhysicalRefs(m.files)
      ensures ContentOf(PartEntries(m.files, open), ref) == SourceContent(m.files, open, ref)
    {
      BuiltContent(m.files, limit, open, ref);
    }
  }

  // ---------------------------------------------------------------------------
  // What is built is read back
  // ---------------------------------------------------------------------------

  /** An archive that was written is accepted with its manifest exactly if the manifest is valid for the
      reader, no file has more than 10^8 parts, header, parts and manifest, the manifest and the
      archive file stay within the reader's limits, and the checksums are those of the source. */
  lemma RoundTrip(m: Manifest, open: (string, int) -> Bytes, l: Limits, maxPart: int, t: Tools)
    requires Sane(t) && SourceMatches(m.files, open, t) && AllStorable(ArchiveOf(m, open, t))
    ensures var packed := t.pack(ArchiveOf(m, open, t));
      Accepted(packed, l, maxPart, t, m) <==>
      && ManifestValid(m, l, maxPart, t) && ShortIndices(m.files)
      && |t.header| + m.summary.physicalBytes + |t.encode(m)| <= l.maxExpanded
      && |t.encode(m)| <= l.maxManifest && |packed| <= l.maxArchive
      && ContentTrue(m, SourceContents(m.files, open), t)
  {
    var entries := ArchiveOf(m, open, t);
    BuiltIsCanonical(m, open, t);
    BuiltWithinLimits(m, open, l, t);
    AcceptedExactly(t.pack(entries), l, maxPart, t, m);
    assert PartsIn(entries) == PartEntries(m.files, open);
    if ManifestValid(m, l, maxPart, t) { BuiltContents(m, l, maxPart, open, t); }
  }

  lemma BuiltWithinLimits(m: Manifest, open: (string, int) -> Bytes, l: Limits, t: Tools)
    requires Sane(t) && SourceMatches(m.files, open, t)
    ensures WithinLimits(ArchiveOf(m, open, t), m, l) <==>
      && ShortIndices(m.files) && |t.encode(m)| <= l.maxManifest
      && |t.header| + TotalSize(Declared(m.files)) + |t.encode(m)| <= l.maxExpanded
    ensures WithinLimits(ArchiveOf(m, open, t), m, l) ==> l.maxExpanded >= 0
  {
    ArchiveSize(m, open, t);
    TotalGrows(ArchiveOf(m, open, t), 0);
  }

  lemma {:induction false} FileWithinDeclared(files: seq<File>, i: nat)
    requires i < |files|
    ensures |files[i].parts| <= |Declared(files)|
  {
    if i < |files| - 1 { FileWithinDeclared(files[..|files| - 1], i); }
  }

  /** A part limit of at most 10^8 leaves no file with more parts than that. */
  lemma LimitKeepsIndicesShort(m: Manifest, l: Limits, maxPart: int, t: Tools)
    requires ManifestValid(m, l, maxPart, t) && l.maxParts <= FIRST_LONG_INDEX
    ensures ShortIndices(m.files)
  {
    forall i | 0 <= i < |m.files| ensures |m.files[i].parts| <= FIRST_LONG_INDEX {
      FileWithinDeclared(m.files, i);
    }
  }

  /** No other manifest is read back, and the part bytes are those of the source. */
  lemma ReadBackIsWhatWasBuilt(m: Manifest, open: (string, int) -> Bytes, l: Limits, maxPart: int, t: Tools,
                               other: Manifest)
    requires Sane(t) && SourceMatches(m.files, open, t) && AllStorable(ArchiveOf(m, open, t))
    requires Accepted(t.pack(ArchiveOf(m, open, t)), l, maxPart, t, other)
    ensures other == m && After(ArchiveOf(m, open, t), l, t).Some?
    ensures After(ArchiveOf(m, open, t), l, t).value.parts == PartEntries(m.files, open)
  {
    var entries := ArchiveOf(m, open, t);
    var n := |entries| - 1;
    AfterMeans(entries, l, t);
    assert entries[n] == Entry(MANIFEST_ENTRY, t.encode(m), true);
    assert entries[1..n] == PartEntries(m.files, open);
  }
}
