/** What an accepted archive says of the checksums of S3 objects is true of their bytes. */
module ArchiveObjects {
  import opened ArchiveNames
  import opened Archive
  import opened ArchiveProofs
  import opened ArchiveContents
  import opened ArchiveRoundTrip

  ghost function Joined(pieces: seq<Bytes>): Bytes {
    if pieces == [] then [] else Joined(pieces[..|pieces| - 1]) + pieces[|pieces| - 1]
  }

  ghost function Stated(algorithm: string, pieces: seq<Bytes>, t: Tools): seq<(string, int)> {
    seq(|pieces|, i requires 0 <= i < |pieces| => (t.checksum(algorithm, pieces[i]), |pieces[i]|))
  }

  /** A checksum that is combined from those of pieces is that of the pieces joined, as
      `CrcFullObject.FullObject` is proved to be. */
  ghost predicate Combines(t: Tools) {
    forall algorithm, pieces :: t.fullObject(algorithm, Stated(algorithm, pieces, t)).Some? ==>
      t.fullObject(algorithm, Stated(algorithm, pieces, t)).value == t.checksum(algorithm, Joined(pieces))
  }

  // ---------------------------------------------------------------------------
  // The parts of a file have its size
  // ---------------------------------------------------------------------------

  /** The sizes of the parts that are declared under a reference. */
  ghost function SizeUnder(d: seq<Part>, ref: string): int {
    if d == [] then 0
    else
      var last := d[|d| - 1];
      SizeUnder(d[..|d| - 1], ref) + if RefIn(last.entry) == ref then last.size else 0
  }

  lemma {:induction false} ContentLength(parts: seq<Entry>, d: seq<Part>, t: Tools, ref: string)
    requires |parts| == |d| && forall k :: 0 <= k < |d| ==> PartStored(parts[k], d[k], t)
    ensures |ContentOf(parts, ref)| == SizeUnder(d, ref)
  {
    if d != [] { ContentLength(parts[..|d| - 1], d[..|d| - 1], t, ref); }
  }

  lemma {:induction false} SizeUnderJoin(a: seq<Part>, b: seq<Part>, ref: string)
    ensures SizeUnder(a + b, ref) == SizeUnder(a, ref) + SizeUnder(b, ref)
  {
    if b == [] {
      assert a + b == a;
    } else {
      var n := |b| - 1;
      SizeUnderJoin(a, b[..n], ref);
      assert (a + b)[..|a| + n] == a + b[..n];
    }
  }

  lemma {:induction false} SizeOfFile(ref: string, parts: seq<Part>, maxPart: int, other: string)
    requires IsRef(ref) && PartsValid(ref, parts, maxPart)
    ensures SizeUnder(parts, other) == if ref == other then TotalSize(parts) else 0
    decreases |parts|
  {
    if parts != [] {
      var n := |parts| - 1;
      ShorterValid(ref, parts, maxPart);
      SizeOfFile(ref, parts[..n], maxPart, other);
      assert PartValid(ref, parts[n], n, maxPart);
      NameHasRef(ref, n);
    }
  }

  lemma {:induction false} SizeOfDeclared(files: seq<File>, maxPart: int, ref: string)
    requires FilesInOrder(files, maxPart)
    ensures SizeUnder(Declared(files), ref)
         == if FileAt(files, ref).Some? then TotalSize(FileAt(files, ref).value.parts) else 0
  {
    if files != [] {
      var n := |files| - 1;
      assert FilesInOrder(files[..n], maxPart) by {
        assert forall i :: 0 <= i < n ==> files[..n][i] == files[i];
      }
      SizeOfDeclared(files[..n], maxPart, ref);
      assert FileNamed(files[n], maxPart);
      SizeOfFile(files[n].ref, files[n].parts, maxPart, ref);
      SizeUnderJoin(Declared(files[..n]), files[n].parts, ref);
      if files[n].ref == ref { NotAmong(files, n, ref); }
    }
  }

  lemma {:induction false} FileAtFinds(files: seq<File>, i: nat)
    requires RefsAscend(files) && i < |files|
    ensures FileAt(files, files[i].ref) == Some(files[i])
  {
    var n := |files| - 1;
    if i < n {
      assert forall j :: 0 <= j < n ==> files[..n][j] == files[j];
      FileAtFinds(files[..n], i);
      LessIrreflexive(files[i].ref);
    }
  }

  // ---------------------------------------------------------------------------
  // Objects
  // ---------------------------------------------------------------------------

  /** The bytes of a file of the archive: those of its parts, or those of its sources joined. */
  ghost function WholeContent(f: File, parts: seq<Entry>): Bytes {
    if f.layout == 1 then ContentOf(parts, f.ref) else Joined(Sources(f, parts))
  }

  ghost function Sources(f: File, parts: seq<Entry>): seq<Bytes> {
    seq(|f.segments|, k requires 0 <= k < |f.segments| => ContentOf(parts, f.segments[k].sourceRef))
  }

  /** The content of a physical file has the size that is declared. */
  lemma ContentHasSize(m: Manifest, l: Limits, maxPart: int, t: Tools, parts: seq<Entry>, i: nat)
    requires ManifestValid(m, l, maxPart, t) && i < |m.files| && m.files[i].layout == 1
    requires |parts| == |Declared(m.files)|
    requires forall k :: 0 <= k < |parts| ==> PartStored(parts[k], Declared(m.files)[k], t)
    ensures |ContentOf(parts, m.files[i].ref)| == m.files[i].size
  {
    var limit := PartLimit(maxPart, m);
    ValidInOrder(m.files, l, limit, t);
    ContentLength(parts, Declared(m.files), t, m.files[i].ref);
    SizeOfDeclared(m.files, limit, m.files[i].ref);
    FileAtFinds(m.files, i);
    assert FileValid(m.files[i], limit, t);
  }

  /** What completed parts of one algorithm state are the checksums and sizes of the sources. */
  lemma CompletedStated(m: Manifest, l: Limits, maxPart: int, t: Tools, parts: seq<Entry>, i: nat, algorithm: string)
    requires ManifestValid(m, l, maxPart, t) && i < |m.files| && m.files[i].layout == 2
    requires |parts| == |Declared(m.files)|
    requires forall k :: 0 <= k < |parts| ==> PartStored(parts[k], Declared(m.files)[k], t)
    requires ContentTrue(m, ContentsOf(m.files, parts), t)
    requires var f := m.files[i];
      forall k :: 0 <= k < |f.completed| ==> Available(f.completed[k]) && f.completed[k].algorithm == algorithm
    ensures ChecksumsAndSizes(m.files[i].completed) == Stated(algorithm, Sources(m.files[i], parts), t)
  {
    var f, contents := m.files[i], ContentsOf(m.files, parts);
    assert FileValid(f, PartLimit(maxPart, m), t) && AllCompletedTrue(f, contents, t) && CompositeSourced(m.files, f);
    forall k | 0 <= k < |f.completed|
      ensures f.completed[k].value == t.checksum(algorithm, ContentOf(parts, f.segments[k].sourceRef))
      ensures f.completed[k].size == |ContentOf(parts, f.segments[k].sourceRef)|
    {
      assert CompletedTrue(f, k, contents, t) && CompletedValid(f.completed[k], k, f.segments[k], t);
      assert SegmentSourced(m.files, f.segments[k]);
      var j :| 0 <= j < |m.files| && m.files[j].ref == f.segments[k].sourceRef && m.files[j].layout == 1
               && m.files[j].size == f.segments[k].size;
      ContentHasSize(m, l, maxPart, t, parts, j);
    }
  }

  /** In an accepted archive the full-object checksum of an S3 object is that of the bytes of the file
      the object's path is mapped to, physical or composite. */
  lemma ObjectChecksumHolds(packed: Bytes, l: Limits, maxPart: int, t: Tools, m: Manifest, o: S3Object)
    requires Combines(t) && Accepted(packed, l, maxPart, t, m)
    requires o in m.objects && o.algorithm != "" && o.kind == FULL_OBJECT
    ensures var f := FileAt(m.files, RefAt(m.mappings, o.path));
      f.Some? && o.value == t.checksum(o.algorithm, WholeContent(f.value, PartsIn(t.unpack(packed).value.entries)))
  {
    var entries := t.unpack(packed).value.entries;
    var parts := PartsIn(entries);
    AcceptedExactly(packed, l, maxPart, t, m);
    var d := Declared(m.files);
    forall k | 0 <= k < |d| ensures PartStored(parts[k], d[k], t) {
      assert PartStored(entries[k + 1], d[k], t);
    }
    var n :| 0 <= n < |m.objects| && m.objects[n] == o;
    var contents := ContentsOf(m.files, parts);
    assert ObjectTrue(m, m.objects[n], contents, t);
    var i := FileAtIs(m.files, RefAt(m.mappings, o.path));
    if m.files[i].layout == 1 {
      assert m.files[i].ref in PhysicalRefs(m.files);
    } else {
      CompletedStated(m, l, maxPart, t, parts, i, o.algorithm);
    }
  }
}
