/** The loops of the archive builder, the reader and the validation (backupfmt/archive.go,
    backupfmt/validate.go). */
module ArchiveCode {
  import opened ArchiveNames
  import opened Archive
  import opened ArchiveProofs

  // ---------------------------------------------------------------------------
  // The reader
  // ---------------------------------------------------------------------------

  class TarReader {
    var index: nat
    var expanded: int
    var last: string
    var observed: map<string, Observed>
    var contents: map<string, Bytes>
    var current: Option<(string, Bytes)>
    var manifest: Option<Manifest>
    ghost var parts: seq<Entry>

    ghost function Now(): ReadState
      reads this
    {
      ReadState(index, expanded, last, observed, contents, current, manifest, parts)
    }

    constructor ()
      ensures Now() == Start
    {
      index, expanded, last, observed, contents, current := 0, 0, "", map[], map[], None;
      manifest, parts := None, [];
    }

    /** finishFileDigest. */
    method FinishFile()
      modifies this`contents, this`current
      ensures contents == Finished(old(contents), old(current)) && current == None
    {
      if current.Some? {
        contents := contents[current.value.0 := current.value.1];
        current := None;
      }
    }

    /** fileContentWriter, and what the part writes to it. */
    method WriteContent(ref: string, bytes: Bytes)
      modifies this`contents, this`current
      ensures Now() == Gather(old(Now()), ref, bytes)
    {
      if current.None? || current.value.0 != ref {
        FinishFile();
        current := Some((ref, []));
        assert [] + bytes == bytes;
      }
      current := Some((ref, current.value.1 + bytes));
    }

    /** consume. */
    method ConsumeEntry(e: Entry, l: Limits, t: Tools) returns (ok: bool)
      modifies this
      ensures ok <==> Consume(old(Now()), e, l, t).Some?
      ensures ok ==> Some(Now()) == Consume(old(Now()), e, l, t)
    {
      if !e.regular {
        return false;
      }
      if expanded > l.maxExpanded - |e.bytes| {
        return false;
      }
      if manifest.Some? {
        return false;
      }
      expanded := expanded + |e.bytes|;
      if index == 0 {
        ok := e.name == FORMAT_ENTRY && 1 <= |e.bytes| <= 1024 && t.isHeader(e.bytes);
      } else if e.name == MANIFEST_ENTRY {
        FinishFile();
        var decoded := t.decode(e.bytes);
        ok := 1 <= |e.bytes| <= l.maxManifest && decoded.Some?;
        if ok {
          manifest := decoded;
        }
      } else {
        ok := ObservePart(e, l, t);
      }
      if ok {
        index := index + 1;
      }
    }

    /** consumePart. */
    method ObservePart(e: Entry, l: Limits, t: Tools) returns (ok: bool)
      modifies this`observed, this`last, this`contents, this`current, this`parts
      ensures ok <==> ConsumePart(old(Now()), e, l, t).Some?
      ensures ok ==> Some(Now().(index := index + 1)) == ConsumePart(old(Now()), e, l, t)
    {
      if !IsPartName(e.name) || !Less(last, e.name) || e.name in observed {
        return false;
      }
      WriteContent(RefIn(e.name), e.bytes);
      observed := observed[e.name := Observed(|e.bytes|, t.digest(e.bytes))];
      last := e.name;
      parts := parts + [e];
      ok := |observed| <= l.maxParts;
    }
  }

  /** What was read of an archive. */
  datatype TarContent = TarContent(manifest: Manifest, observed: map<string, Observed>, contents: map<string, Bytes>)

  /** readTar. */
  method ReadTar(entries: seq<Entry>, l: Limits, t: Tools) returns (r: Option<TarContent>)
    ensures r.Some? <==> After(entries, l, t).Some? && After(entries, l, t).value.manifest.Some?
    ensures r.Some? ==>
      var s := After(entries, l, t).value;
      r.value == TarContent(s.manifest.value, s.observed, Finished(s.contents, s.current))
  {
    var reader := new TarReader();
    for i := 0 to |entries|
      invariant Some(reader.Now()) == After(entries[..i], l, t)
    {
      assert entries[..i + 1][..i] == entries[..i];
      var ok := reader.ConsumeEntry(entries[i], l, t);
      if !ok {
        RefusedEarly(entries, l, t, i + 1);
        return None;
      }
    }
    assert entries[..|entries|] == entries;
    if reader.index == 0 || reader.manifest.None? {
      return None;
    }
    reader.FinishFile();
    r := Some(TarContent(reader.manifest.value, reader.observed, reader.contents));
  }

  lemma {:induction false} RefusedEarly(entries: seq<Entry>, l: Limits, t: Tools, n: nat)
    requires n <= |entries| && After(entries[..n], l, t).None?
    ensures After(entries, l, t).None?
    decreases |entries| - n
  {
    if n == |entries| {
      assert entries[..n] == entries;
    } else {
      assert entries[..n + 1][..n] == entries[..n];
      RefusedEarly(entries, l, t, n + 1);
    }
  }

  /** All parts of `ps` were observed as declared. */
  ghost predicate Seen(ps: seq<Part>, observed: map<string, Observed>) {
    forall i :: 0 <= i < |ps| ==> ps[i].entry in observed && observed[ps[i].entry] == Observed(ps[i].size, ps[i].digest)
  }

  /** compareObservedParts. */
  method CompareObserved(m: Manifest, observed: map<string, Observed>) returns (ok: bool)
    ensures ok <==> Agrees(m, observed)
  {
    var expected := 0;
    for i := 0 to |m.files|
      invariant expected == |Declared(m.files[..i])| && Seen(Declared(m.files[..i]), observed)
    {
      assert m.files[..i + 1][..i] == m.files[..i];
      var parts := m.files[i].parts;
      for j := 0 to |parts|
        invariant expected == |Declared(m.files[..i])| + j && Seen(parts[..j], observed)
      {
        expected := expected + 1;
        var p := parts[j];
        if p.entry !in observed || observed[p.entry].size != p.size || observed[p.entry].digest != p.digest {
          var k := DeclaredHas(m.files, i, j);
          return false;
        }
        assert parts[..j + 1] == parts[..j] + [p];
      }
      assert parts[..|parts|] == parts;
    }
    assert m.files[..|m.files|] == m.files;
    ok := |observed| == expected;
  }

  // ---------------------------------------------------------------------------
  // Validation
  // ---------------------------------------------------------------------------

  /** validatePhysicalFile, past the checks of a record. */
  method ValidatePhysical(f: File, maxPart: int, t: Tools) returns (ok: bool)
    requires f.size >= 0
    ensures ok <==> PhysicalValid(f, maxPart, t)
  {
    if f.segments != [] || f.completed != [] {
      return false;
    }
    if f.size == 0 {
      SizesAtLeast(f.ref, f.parts, maxPart, |f.parts|);
      assert f.parts[..|f.parts|] == f.parts;
      return f.parts == [] && f.compat == EMPTY_MD5;
    }
    if f.parts == [] {
      return false;
    }
    var total := 0;
    for i := 0 to |f.parts|
      invariant total == TotalSize(f.parts[..i])
      invariant forall j {:trigger PartValid(f.ref, f.parts[j], j, maxPart)} ::
        0 <= j < i ==> PartValid(f.ref, f.parts[j], j, maxPart)
    {
      if !PartValid(f.ref, f.parts[i], i, maxPart) {
        return false;
      }
      assert f.parts[..i + 1][..i] == f.parts[..i];
      total := total + f.parts[i].size;
    }
    assert f.parts[..|f.parts|] == f.parts;
    ok := total == f.size && f.compat == CompatibilityMd5(f.parts, t);
  }

  /** The segments of validateCompositeShape. */
  method ValidateSegments(segments: seq<Segment>) returns (ok: bool, total: int)
    ensures ok <==> forall i :: 0 <= i < |segments| ==> SegmentValid(segments[i], i)
    ensures ok ==> total == SegmentsSize(segments)
  {
    total := 0;
    for i := 0 to |segments|
      invariant total == SegmentsSize(segments[..i])
      invariant forall j :: 0 <= j < i ==> SegmentValid(segments[j], j)
    {
      if segments[i].index != i || !IsRef(segments[i].sourceRef) || segments[i].size < 0 {
        return false, total;
      }
      assert segments[..i + 1][..i] == segments[..i];
      total := total + segments[i].size;
    }
    assert segments[..|segments|] == segments;
    ok := true;
  }

  /** validateCompositeShape; the completed parts add up if their sizes are those of the segments. */
  method ValidateComposite(f: File, t: Tools) returns (ok: bool)
    ensures ok <==> CompositeValid(f, t)
  {
    if f.parts != [] || f.segments == [] {
      return false;
    }
    var segmented, total := ValidateSegments(f.segments);
    if !segmented || total != f.size || |f.completed| != |f.segments| {
      return false;
    }
    var completed, completedSize := ValidateCompleted(f.completed, f.segments, t);
    ok := completed && completedSize == f.size;
  }

  /** The completed parts of validateCompositeShape. */
  method ValidateCompleted(completed: seq<CompletedPart>, segments: seq<Segment>, t: Tools)
    returns (ok: bool, total: int)
    requires |completed| == |segments|
    ensures ok <==> forall i :: 0 <= i < |segments| ==> CompletedValid(completed[i], i, segments[i], t)
    ensures ok ==> total == SegmentsSize(segments)
  {
    total := 0;
    for i := 0 to |completed|
      invariant total == SegmentsSize(segments[..i])
      invariant forall j :: 0 <= j < i ==> CompletedValid(completed[j], j, segments[j], t)
    {
      var part := completed[i];
      if part.number != i + 1 || part.size != segments[i].size || !ChecksumValid(part, t) {
        return false, total;
      }
      assert segments[..i + 1][..i] == segments[..i];
      total := total + part.size;
    }
    assert segments[..|segments|] == segments;
    ok := true;
  }

  /** validateFileRecord, but for duplicates, which validateFiles excludes by order. */
  method ValidateRecord(f: File, maxPart: int, t: Tools) returns (ok: bool)
    ensures ok <==> FileValid(f, maxPart, t)
  {
    if !IsRef(f.ref) || !IsSourceId(f.sourceId) || f.size < 0 || !IsHex(f.compat, 16) {
      return false;
    }
    if f.layout == 1 {
      ok := ValidatePhysical(f, maxPart, t);
    } else if f.layout == 2 {
      ok := ValidateComposite(f, t);
    } else {
      ok := false;
    }
  }

  /** addPhysicalParts: the counts so far, unless they leave the limits. */
  method AddParts(parts: seq<Part>, count: int, bytes: int, l: Limits) returns (ok: bool, newCount: int, newBytes: int)
    requires count <= l.maxParts && bytes <= l.maxExpanded && forall i :: 0 <= i < |parts| ==> parts[i].size >= 0
    ensures ok <==> count + |parts| <= l.maxParts && bytes + TotalSize(parts) <= l.maxExpanded
    ensures ok ==> newCount == count + |parts| && newBytes == bytes + TotalSize(parts)
  {
    newCount, newBytes := count, bytes;
    for i := 0 to |parts|
      invariant newCount == count + i && newBytes == bytes + TotalSize(parts[..i])
      invariant newCount <= l.maxParts && newBytes <= l.maxExpanded
    {
      assert parts[..i + 1][..i] == parts[..i];
      newCount := newCount + 1;
      newBytes := newBytes + parts[i].size;
      if newCount > l.maxParts || newBytes > l.maxExpanded {
        SizesGrow(parts, i + 1);
        return false, 0, 0;
      }
    }
    assert parts[..|parts|] == parts;
    ok := true;
  }

  lemma {:induction false} SizesGrow(parts: seq<Part>, n: nat)
    requires n <= |parts| && forall i :: n <= i < |parts| ==> parts[i].size >= 0
    ensures TotalSize(parts[..n]) <= TotalSize(parts)
    decreases |parts| - n
  {
    if n == |parts| {
      assert parts[..n] == parts;
    } else {
      assert parts[..n + 1][..n] == parts[..n];
      SizesGrow(parts, n + 1);
    }
  }

  lemma {:induction false} SizesJoin(a: seq<Part>, b: seq<Part>)
    ensures TotalSize(a + b) == TotalSize(a) + TotalSize(b)
    decreases |b|
  {
    if b == [] {
      assert a + b == a;
    } else {
      var n := |b| - 1;
      SizesJoin(a, b[..n]);
      assert (a + b)[..|a| + n] == a + b[..n];
    }
  }

  /** What validateFiles has established of the first files. */
  ghost predicate FirstValid(files: seq<File>, l: Limits, maxPart: int, t: Tools) {
    && RefsAscend(files) && EachValid(files, maxPart, t)
    && |Declared(files)| <= l.maxParts && TotalSize(Declared(files)) <= l.maxExpanded
  }

  ghost predicate EachValid(files: seq<File>, maxPart: int, t: Tools) {
    forall i :: 0 <= i < |files| ==> FileValid(files[i], maxPart, t)
  }

  lemma NextEachValid(files: seq<File>, i: nat, maxPart: int, t: Tools)
    requires i < |files| && EachValid(files[..i], maxPart, t)
    ensures EachValid(files[..i + 1], maxPart, t) <==> FileValid(files[i], maxPart, t)
  {
    var more := files[..i + 1];
    if EachValid(more, maxPart, t) { assert FileValid(more[i], maxPart, t); }
    if FileValid(files[i], maxPart, t) {
      forall j | 0 <= j < |more| ensures FileValid(more[j], maxPart, t) {
        if j < i { assert FileValid(files[..i][j], maxPart, t); }
      }
    }
  }

  lemma NextDeclared(files: seq<File>, i: nat)
    requires i < |files|
    ensures Declared(files[..i + 1]) == Declared(files[..i]) + files[i].parts
    ensures TotalSize(Declared(files[..i + 1])) == TotalSize(Declared(files[..i])) + TotalSize(files[i].parts)
  {
    assert files[..i + 1][..i] == files[..i];
    SizesJoin(Declared(files[..i]), files[i].parts);
  }

  lemma PartSizesPositive(f: File, maxPart: int, t: Tools)
    requires FileValid(f, maxPart, t)
    ensures forall i :: 0 <= i < |f.parts| ==> f.parts[i].size >= 0
  {
    forall i | 0 <= i < |f.parts| ensures f.parts[i].size >= 0 {
      assert PartValid(f.ref, f.parts[i], i, maxPart);
    }
  }

  lemma NextFirstValid(files: seq<File>, i: nat, l: Limits, maxPart: int, t: Tools)
    requires i < |files| && FirstValid(files[..i], l, maxPart, t)
    ensures FirstValid(files[..i + 1], l, maxPart, t) <==>
      && Less(if i == 0 then "" else files[i - 1].ref, files[i].ref) && FileValid(files[i], maxPart, t)
      && |Declared(files[..i])| + |files[i].parts| <= l.maxParts
      && TotalSize(Declared(files[..i])) + TotalSize(files[i].parts) <= l.maxExpanded
    ensures Declared(files[..i + 1]) == Declared(files[..i]) + files[i].parts
    ensures TotalSize(Declared(files[..i + 1])) == TotalSize(Declared(files[..i])) + TotalSize(files[i].parts)
  {
    NextDeclared(files, i);
    NextRefAscends(files, i);
    NextEachValid(files, i, maxPart, t);
    assert FileValid(files[i], maxPart, t) ==> files[i].ref != "";
  }

  lemma NextRefAscends(files: seq<File>, i: nat)
    requires i < |files| && RefsAscend(files[..i])
    ensures i > 0 ==> (RefsAscend(files[..i + 1]) <==> Less(files[i - 1].ref, files[i].ref))
    ensures i == 0 ==> RefsAscend(files[..i + 1])
    ensures Less("", files[i].ref) <==> files[i].ref != ""
  {
    var more := files[..i + 1];
    if i > 0 {
      if RefsAscend(more) { assert Less(more[i - 1].ref, more[i].ref); }
      if Less(files[i - 1].ref, files[i].ref) {
        forall j, k | 0 <= j < k < |more| ensures Less(more[j].ref, more[k].ref) {
          if k < i {
            assert Less(files[..i][j].ref, files[..i][k].ref);
          } else if j < i - 1 {
            assert Less(files[..i][j].ref, files[..i][i - 1].ref);
            LessTransitive(files[j].ref, files[i - 1].ref, files[i].ref);
          }
        }
      }
    }
  }

  lemma {:induction false} FirstsValid(files: seq<File>, n: nat, l: Limits, maxPart: int, t: Tools)
    requires n <= |files| && FirstValid(files, l, maxPart, t)
    ensures FirstValid(files[..n], l, maxPart, t)
    decreases |files| - n
  {
    if n == |files| {
      assert files[..n] == files;
    } else {
      FirstsValid(files, n + 1, l, maxPart, t);
      FewerValid(files[..n + 1], l, maxPart, t);
      assert files[..n + 1][..n] == files[..n];
    }
  }

  lemma FewerValid(files: seq<File>, l: Limits, maxPart: int, t: Tools)
    requires files != [] && FirstValid(files, l, maxPart, t)
    ensures FirstValid(files[..|files| - 1], l, maxPart, t)
  {
    var n := |files| - 1;
    assert FileValid(files[n], maxPart, t);
    PartSizesPositive(files[n], maxPart, t);
    SizesJoin(Declared(files[..n]), files[n].parts);
    SizesGrow(files[n].parts, 0);
  }

  /** validateFiles. */
  method ValidateFiles(files: seq<File>, l: Limits, maxPart: int, t: Tools) returns (ok: bool, count: int, bytes: int)
    requires l.maxParts >= 0 && l.maxExpanded >= 0
    ensures ok <==> FilesValid(files, l, maxPart, t)
    ensures ok ==> count == |Declared(files)| && bytes == TotalSize(Declared(files))
  {
    count, bytes := 0, 0;
    var lastRef := "";
    for i := 0 to |files|
      invariant FirstValid(files[..i], l, maxPart, t) && lastRef == (if i == 0 then "" else files[i - 1].ref)
      invariant count == |Declared(files[..i])| && bytes == TotalSize(Declared(files[..i]))
    {
      var f := files[i];
      NextFirstValid(files, i, l, maxPart, t);
      if FirstValid(files, l, maxPart, t) { FirstsValid(files, i + 1, l, maxPart, t); }
      if !Less(lastRef, f.ref) {
        return false, 0, 0;
      }
      var valid := ValidateRecord(f, maxPart, t);
      if !valid {
        return false, 0, 0;
      }
      PartSizesPositive(f, maxPart, t);
      var within;
      within, count, bytes := AddParts(f.parts, count, bytes, l);
      if !within {
        return false, 0, 0;
      }
      lastRef := f.ref;
    }
    assert files[..|files|] == files;
    ok := ValidateReferences(files);
  }

  /** validateCompositeReferences. */
  method ValidateReferences(files: seq<File>) returns (ok: bool)
    ensures ok <==> forall i :: 0 <= i < |files| ==> CompositeSourced(files, files[i])
  {
    for i := 0 to |files|
      invariant forall j :: 0 <= j < i ==> CompositeSourced(files, files[j])
    {
      if files[i].layout == 2 {
        var sourced := ValidateSources(files, files[i].segments);
        if !sourced {
          assert !CompositeSourced(files, files[i]);
          return false;
        }
      }
    }
    ok := true;
  }

  method ValidateSources(files: seq<File>, segments: seq<Segment>) returns (ok: bool)
    ensures ok <==>
      && (forall k :: 0 <= k < |segments| ==> SegmentSourced(files, segments[k]))
      && (forall j, k :: 0 <= j < k < |segments| ==> segments[j].sourceRef != segments[k].sourceRef)
  {
    var seen: set<string> := {};
    for k := 0 to |segments|
      invariant forall j :: 0 <= j < k ==> SegmentSourced(files, segments[j]) && segments[j].sourceRef in seen
      invariant forall r :: r in seen ==> exists j :: 0 <= j < k && segments[j].sourceRef == r
      invariant forall i, j :: 0 <= i < j < k ==> segments[i].sourceRef != segments[j].sourceRef
    {
      var s := segments[k];
      var sourced := exists i ::
        0 <= i < |files| && files[i].ref == s.sourceRef && files[i].layout == 1 && files[i].size == s.size;
      assert sourced == SegmentSourced(files, s);
      if !sourced || s.sourceRef in seen {
        return false;
      }
      seen := seen + {s.sourceRef};
    }
    ok := true;
  }

  /** ValidateManifest. */
  method ValidateManifest(m: Manifest, l: Limits, maxPart: int, t: Tools) returns (ok: bool)
    requires l.maxParts >= 0 && l.maxExpanded >= 0
    ensures ok <==> ManifestValid(m, l, maxPart, t)
  {
    if m.maxPartSize < 1 || |m.mappings| > l.maxMappings || |m.files| > l.maxFiles {
      return false;
    }
    var valid, count, bytes := ValidateFiles(m.files, l, PartLimit(maxPart, m), t);
    ok := valid && t.restValid(Bare(m), l) && m.summary == Summary(|m.files|, |m.mappings|, count, bytes);
  }

  // ---------------------------------------------------------------------------
  // The checksums of the contents
  // ---------------------------------------------------------------------------

  /** Completed parts belong to segments, as validateCompositeShape has found. */
  ghost predicate Shaped(f: File) {
    f.layout == 2 ==> |f.completed| == |f.segments|
  }

  /** validateCompletedPartContent. */
  method ValidateCompletedContent(files: seq<File>, contents: map<string, Bytes>, t: Tools) returns (ok: bool)
    requires forall i :: 0 <= i < |files| ==> Shaped(files[i])
    ensures ok <==> forall i :: 0 <= i < |files| ==> AllCompletedTrue(files[i], contents, t)
  {
    for i := 0 to |files|
      invariant forall j :: 0 <= j < i ==> AllCompletedTrue(files[j], contents, t)
    {
      if files[i].layout == 2 {
        assert Shaped(files[i]);
        var stated := ValidateFileContent(files[i], contents, t);
        if !stated {
          assert !AllCompletedTrue(files[i], contents, t);
          return false;
        }
      }
    }
    ok := true;
  }

  method ValidateFileContent(f: File, contents: map<string, Bytes>, t: Tools) returns (ok: bool)
    requires f.layout == 2 && |f.completed| == |f.segments|
    ensures ok <==> AllCompletedTrue(f, contents, t)
  {
    for k := 0 to |f.completed|
      invariant forall j :: 0 <= j < k ==> CompletedTrue(f, j, contents, t)
    {
      var part, source := f.completed[k], f.segments[k].sourceRef;
      if Available(part) && (source !in contents || t.checksum(part.algorithm, contents[source]) != part.value) {
        assert !CompletedTrue(f, k, contents, t);
        return false;
      }
    }
    ok := true;
  }

  /** compositeObjectChecksum. */
  method CombineCompleted(f: File, algorithm: string, kind: string, t: Tools) returns (r: Option<string>)
    ensures r == CompositeChecksum(f, algorithm, kind, t)
  {
    var values: seq<string>, parts: seq<(string, int)> := [], [];
    for k := 0 to |f.completed|
      invariant values == Checksums(f.completed[..k]) && parts == ChecksumsAndSizes(f.completed[..k])
      invariant forall j :: 0 <= j < k ==> Available(f.completed[j]) && f.completed[j].algorithm == algorithm
    {
      var part := f.completed[k];
      if !Available(part) || part.algorithm != algorithm {
        return None;
      }
      values, parts := values + [part.value], parts + [(part.value, part.size)];
    }
    assert f.completed[..|f.completed|] == f.completed;
    if kind == FULL_OBJECT {
      r := t.fullObject(algorithm, parts);
    } else if kind == COMPOSITE {
      r := t.composite(algorithm, values);
    } else {
      r := None;
    }
  }

  /** validateS3ObjectContent. */
  method ValidateObject(m: Manifest, o: S3Object, f: Option<File>, contents: map<string, Bytes>, t: Tools)
    returns (ok: bool)
    requires f == FileAt(m.files, RefAt(m.mappings, o.path))
    ensures ok <==> ObjectTrue(m, o, contents, t)
  {
    if o.algorithm == "" {
      return true;
    }
    if !IsAlgorithm(o.algorithm) || f.None? {
      return false;
    }
    var expected: string;
    if f.value.layout == 1 {
      if o.kind != FULL_OBJECT {
        return false;
      }
      expected := ChecksumIn(contents, f.value.ref, o.algorithm, t);
    } else if f.value.layout == 2 {
      var combined := CombineCompleted(f.value, o.algorithm, o.kind, t);
      if combined.None? {
        return false;
      }
      expected := combined.value;
    } else {
      return false;
    }
    ok := expected == o.value;
  }

  /** What a table of the files so far says. */
  ghost predicate FileTable(files: seq<File>, table: map<string, File>) {
    forall ref :: FileAt(files, ref) == if ref in table then Some(table[ref]) else None
  }

  ghost predicate MappingTable(mappings: seq<Mapping>, table: map<string, string>) {
    forall path :: RefAt(mappings, path) == if path in table then table[path] else ""
  }

  method TableOfMappings(mappings: seq<Mapping>) returns (table: map<string, string>)
    ensures MappingTable(mappings, table)
  {
    table := map[];
    for i := 0 to |mappings|
      invariant MappingTable(mappings[..i], table)
    {
      assert mappings[..i + 1][..i] == mappings[..i];
      table := table[mappings[i].path := mappings[i].fileRef];
    }
    assert mappings[..|mappings|] == mappings;
  }

  /** validateContentMetadata. */
  method ValidateContent(m: Manifest, digested: map<string, Bytes>, t: Tools) returns (ok: bool)
    requires forall i :: 0 <= i < |m.files| ==> Shaped(m.files[i])
    ensures ok <==> ContentChecked(m, digested, t)
  {
    var files: map<string, File>, contents := map[], digested;
    for i := 0 to |m.files|
      invariant FileTable(m.files[..i], files) && contents == WithEmpty(m.files[..i], digested)
      invariant forall j :: 0 <= j < i ==> ContentFound(m.files, j, digested)
    {
      var f := m.files[i];
      assert m.files[..i + 1][..i] == m.files[..i];
      files := files[f.ref := f];
      if f.layout == 1 {
        if f.size == 0 {
          contents := contents[f.ref := []];
        } else if f.ref !in contents {
          assert !ContentFound(m.files, i, digested);
          return false;
        }
      }
    }
    assert m.files[..|m.files|] == m.files;
    var completed := ValidateCompletedContent(m.files, contents, t);
    if !completed {
      return false;
    }
    ok := ValidateObjects(m, files, contents, t);
  }

  method ValidateObjects(m: Manifest, files: map<string, File>, contents: map<string, Bytes>, t: Tools)
    returns (ok: bool)
    requires FileTable(m.files, files)
    ensures ok <==> forall i :: 0 <= i < |m.objects| ==> ObjectTrue(m, m.objects[i], contents, t)
  {
    var mappings := TableOfMappings(m.mappings);
    for i := 0 to |m.objects|
      invariant forall j :: 0 <= j < i ==> ObjectTrue(m, m.objects[j], contents, t)
    {
      var o := m.objects[i];
      var ref := if o.path in mappings then mappings[o.path] else "";
      var stated := ValidateObject(m, o, if ref in files then Some(files[ref]) else None, contents, t);
      if !stated {
        return false;
      }
    }
    ok := true;
  }

  lemma ValidIsShaped(m: Manifest, l: Limits, maxPart: int, t: Tools)
    requires ManifestValid(m, l, maxPart, t)
    ensures forall i :: 0 <= i < |m.files| ==> Shaped(m.files[i])
  {
    forall i | 0 <= i < |m.files| ensures Shaped(m.files[i]) {
      assert FileValid(m.files[i], PartLimit(maxPart, m), t);
    }
  }

  /** readFile with the contents verified: the manifest of an archive that is accepted. */
  method ReadArchive(packed: Bytes, l: Limits, maxPart: int, t: Tools) returns (r: Option<Manifest>)
    requires l.maxParts >= 0 && l.maxExpanded >= 0
    ensures r.Some? ==> Accepted(packed, l, maxPart, t, r.value)
    ensures r.None? ==> forall m :: !Accepted(packed, l, maxPart, t, m)
  {
    if |packed| < 1 || |packed| > l.maxArchive {
      return None;
    }
    var unpacked := t.unpack(packed);
    if unpacked.None? {
      return None;
    }
    var read := ReadTar(unpacked.value.entries, l, t);
    if read.None? || unpacked.value.trailing > l.maxExpanded {
      return None;
    }
    var valid := ValidateManifest(read.value.manifest, l, maxPart, t);
    if !valid {
      return None;
    }
    var agrees := CompareObserved(read.value.manifest, read.value.observed);
    if !agrees {
      return None;
    }
    ValidIsShaped(read.value.manifest, l, maxPart, t);
    var stated := ValidateContent(read.value.manifest, read.value.contents, t);
    r := if stated then Some(read.value.manifest) else None;
  }

  // ---------------------------------------------------------------------------
  // The builder
  // ---------------------------------------------------------------------------

  /** A text, or zeros in its place. */
  function OrZeros(text: string, bytes: nat): string {
    if text == "" then seq(2 * bytes, _ => '0') else text
  }

  /** The manifest with placeholders for what the build computes (validateManifestForBuild). */
  function Prepared(f: File, t: Tools): File {
    var parts := seq(|f.parts|, i requires 0 <= i < |f.parts| =>
      f.parts[i].(digest := Digest(OrZeros(f.parts[i].digest.md5, 16), OrZeros(f.parts[i].digest.sha, 32))));
    f.(parts := parts,
       compat := if f.compat == "" && f.layout == 1 then CompatibilityMd5(parts, t) else OrZeros(f.compat, 16))
  }

  function PreparedAll(m: Manifest, t: Tools): Manifest {
    m.(files := seq(|m.files|, i requires 0 <= i < |m.files| => Prepared(m.files[i], t)))
  }

  function FilledManifest(m: Manifest, open: (string, int) -> Bytes, t: Tools): Manifest {
    m.(files := Filled(m.files, open, t))
  }

  /** What a build asks of the manifest and the source. */
  ghost predicate Buildable(m: Manifest, l: Limits, open: (string, int) -> Bytes, t: Tools) {
    && ManifestValid(PreparedAll(m, t), l, m.maxPartSize, t)
    && (forall i :: 0 <= i < |m.files| ==> FileMatches(m.files[i], open, t))
    && ManifestValid(FilledManifest(m, open, t), l, m.maxPartSize, t)
    && |t.encode(FilledManifest(m, open, t))| <= l.maxManifest
    && |t.encode(FilledManifest(m, open, t))| < USTAR_SIZE
  }

  /** writeArchiveFile: the parts of a file are written and their digests filled in. */
  method WriteFile(f: File, open: (string, int) -> Bytes, t: Tools)
    returns (ok: bool, filled: File, entries: seq<Entry>)
    ensures ok <==> FileMatches(f, open, t)
    ensures ok ==> filled == FilledFile(f, open, t) && entries == FileEntries(f.ref, f.parts, open)
  {
    var parts: seq<Part> := [];
    entries, filled := [], f;
    for i := 0 to |f.parts|
      invariant parts == FilledParts(f.ref, f.parts[..i], open, t) && entries == FileEntries(f.ref, f.parts[..i], open)
      invariant forall j :: 0 <= j < i ==> PartMatches(f.ref, f.parts[j], open, t)
    {
      var p := f.parts[i];
      var raw := open(f.ref, p.index);
      if p.size >= USTAR_SIZE || |p.entry| > USTAR_NAME || |raw| != p.size {
        assert !PartMatches(f.ref, f.parts[i], open, t);
        return false, f, [];
      }
      var digest := t.digest(raw);
      if (p.digest.md5 != "" && digest.md5 != p.digest.md5) || (p.digest.sha != "" && p.digest.sha != digest.sha) {
        assert !PartMatches(f.ref, f.parts[i], open, t);
        return false, f, [];
      }
      entries := entries + [Entry(p.entry, raw, true)];
      parts := parts + [p.(digest := digest)];
    }
    assert f.parts[..|f.parts|] == f.parts;
    if f.layout == 1 {
      var computed := CompatibilityMd5(parts, t);
      if f.compat != "" && f.compat != computed {
        return false, f, [];
      }
      filled := f.(parts := parts, compat := computed);
    } else {
      filled := f.(parts := parts);
    }
    ok := true;
  }

  /** writeArchiveParts: the files in order. */
  method WriteFiles(files: seq<File>, open: (string, int) -> Bytes, t: Tools)
    returns (ok: bool, filled: seq<File>, entries: seq<Entry>)
    ensures ok <==> forall i :: 0 <= i < |files| ==> FileMatches(files[i], open, t)
    ensures ok ==> filled == Filled(files, open, t) && entries == PartEntries(filled, open)
  {
    filled, entries := [], [];
    for i := 0 to |files|
      invariant filled == Filled(files[..i], open, t) && entries == PartEntries(filled, open)
      invariant forall j :: 0 <= j < i ==> FileMatches(files[j], open, t)
    {
      var written, file, more := WriteFile(files[i], open, t);
      if !written {
        return false, [], [];
      }
      FilledEntries(files[i], open, t);
      assert Filled(files[..i + 1], open, t) == filled + [file];
      assert (filled + [file])[..|filled|] == filled;
      filled, entries := filled + [file], entries + more;
    }
    assert files[..|files|] == files;
    ok := true;
  }

  /** Build: the archive and the manifest with its digests. */
  method Build(m: Manifest, l: Limits, open: (string, int) -> Bytes, t: Tools)
    returns (r: Option<(Bytes, Manifest)>)
    requires l.maxParts >= 0 && l.maxExpanded >= 0
    ensures r.Some? <==> Buildable(m, l, open, t)
    ensures r.Some? ==> r.value.1 == FilledManifest(m, open, t) && r.value.0 == t.pack(ArchiveOf(r.value.1, open, t))
  {
    var prepared := ValidateManifest(PreparedAll(m, t), l, m.maxPartSize, t);
    if !prepared {
      return None;
    }
    var written, files, entries := WriteFiles(m.files, open, t);
    if !written {
      return None;
    }
    var full := m.(files := files);
    var valid := ValidateManifest(full, l, m.maxPartSize, t);
    if !valid || |t.encode(full)| > l.maxManifest || |t.encode(full)| >= USTAR_SIZE {
      return None;
    }
    entries := [Entry(FORMAT_ENTRY, t.header, true)] + entries + [Entry(MANIFEST_ENTRY, t.encode(full), true)];
    r := Some((t.pack(entries), full));
  }

  /** Filling in digests changes no entry. */
  lemma FilledEntries(f: File, open: (string, int) -> Bytes, t: Tools)
    ensures FileEntries(f.ref, FilledFile(f, open, t).parts, open) == FileEntries(f.ref, f.parts, open)
  {
  }
}
