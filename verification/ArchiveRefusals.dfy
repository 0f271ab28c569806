/** For each reason why the reader refuses what the builder has written, a manifest that is built and refused
    for that reason alone.  The records that no content depends on are `rest`, taken to be valid. */
module ArchiveRefusals {
  import opened ArchiveNames
  import opened Archive
  import opened ArchiveProofs
  import opened ArchiveRoundTrip
  import opened ArchiveCode
  import opened ArchiveBuilds

  /** The builder writes an archive that the reader refuses. */
  ghost predicate BuildsRefused(m: Manifest, l: Limits, open: (string, int) -> Bytes, maxPart: int, t: Tools) {
    Buildable(m, l, open, t) && forall other :: !Accepted(Built(m, open, t), l, maxPart, t, other)
  }

  ghost predicate WithinExpanded(m: Manifest, l: Limits, open: (string, int) -> Bytes, t: Tools) {
    |t.header| + m.summary.physicalBytes + |t.encode(FilledManifest(m, open, t))| <= l.maxExpanded
  }

  ghost predicate WithinArchive(m: Manifest, l: Limits, open: (string, int) -> Bytes, t: Tools) {
    |Built(m, open, t)| <= l.maxArchive
  }

  /** Limits that the built archive just meets, for at most two files of one part. */
  ghost function Tight(m: Manifest, open: (string, int) -> Bytes, t: Tools): Limits {
    var manifest := |t.encode(FilledManifest(m, open, t))|;
    Limits(|Built(m, open, t)|, |t.header| + m.summary.physicalBytes + manifest, manifest, 1, 2, 0)
  }

  /** The coding and the other records make no difficulty. */
  ghost predicate Unhindered(m: Manifest, l: Limits, open: (string, int) -> Bytes, t: Tools) {
    Sane(t) && t.restValid(Bare(m), l) && |t.encode(FilledManifest(m, open, t))| < USTAR_SIZE
  }

  const EmptySummary := Summary(0, 0, 0, 0)

  function NoFiles(rest: Bytes): Manifest {
    Manifest([], [], [], EmptySummary, 1, rest)
  }

  lemma NoFilesBuilt(rest: Bytes, l: Limits, open: (string, int) -> Bytes, t: Tools)
    requires Unhindered(NoFiles(rest), l, open, t) && l.maxParts >= 0 && l.maxFiles >= 0 && l.maxMappings >= 0
    requires l.maxExpanded >= 0 && |t.encode(NoFiles(rest))| <= l.maxManifest
    ensures Buildable(NoFiles(rest), l, open, t) && SourceStated(NoFiles(rest), open, t)
  {
    var m := NoFiles(rest);
    assert PreparedAll(m, t) == m && FilledManifest(m, open, t) == m;
  }

  /** Header and manifest count for the reader and not for the builder. */
  lemma ExpandedCanBeExceeded(rest: Bytes, open: (string, int) -> Bytes, maxPart: int, t: Tools)
    requires var m := NoFiles(rest); Unhindered(m, Tight(m, open, t).(maxExpanded := |t.header|), open, t)
    ensures var m := NoFiles(rest);
      var l := Tight(m, open, t).(maxExpanded := |t.header|);
      BuildsRefused(m, l, open, maxPart, t) && WithinArchive(m, l, open, t) && PartsFit(m.files, maxPart)
      && SourceStated(m, open, t)
  {
    var m := NoFiles(rest);
    var l := Tight(m, open, t).(maxExpanded := |t.header|);
    assert FilledManifest(m, open, t) == m;
    NoFilesBuilt(rest, l, open, t);
    BuiltReadsBack(m, l, open, maxPart, t);
  }

  /** The builder does not look at the size of the archive file. */
  lemma ArchiveCanBeExceeded(rest: Bytes, open: (string, int) -> Bytes, maxPart: int, t: Tools)
    requires var m := NoFiles(rest);
      Unhindered(m, Tight(m, open, t).(maxArchive := |Built(m, open, t)| - 1), open, t)
    ensures var m := NoFiles(rest);
      var l := Tight(m, open, t).(maxArchive := |Built(m, open, t)| - 1);
      BuildsRefused(m, l, open, maxPart, t) && WithinExpanded(m, l, open, t) && PartsFit(m.files, maxPart)
      && SourceStated(m, open, t)
  {
    var m := NoFiles(rest);
    var l := Tight(m, open, t).(maxArchive := |Built(m, open, t)| - 1);
    assert FilledManifest(m, open, t) == m;
    NoFilesBuilt(rest, l, open, t);
    BuiltReadsBack(m, l, open, maxPart, t);
  }

  // ---------------------------------------------------------------------------
  // A checksum that is not that of the content
  // ---------------------------------------------------------------------------

  lemma EmptyMd5IsHex()
    ensures IsHex(EMPTY_MD5, 16)
  {
  }

  lemma OneIsSourceId()
    ensures IsSourceId("1")
  {
    assert DecimalValue("1") == 1;
  }

  function EmptyFile(ref: string): File {
    File(ref, "1", 0, 1, EMPTY_MD5, [], [], [])
  }

  function Composite(ref: string, source: string, algorithm: string, value: string): File {
    File(ref, "1", 0, 2, EMPTY_MD5, [], [Segment(0, source, 0)], [CompletedPart(1, 0, "available", algorithm, value)])
  }

  lemma EmptyFileValid(ref: string, maxPart: int, t: Tools)
    requires IsRef(ref)
    ensures FileValid(EmptyFile(ref), maxPart, t)
  {
    EmptyMd5IsHex();
    OneIsSourceId();
  }

  lemma CompositeIsValid(ref: string, source: string, algorithm: string, value: string, maxPart: int, t: Tools)
    requires IsRef(ref) && IsRef(source) && IsAlgorithm(algorithm) && value != "" && t.isChecksum(algorithm, value)
    ensures FileValid(Composite(ref, source, algorithm, value), maxPart, t)
  {
    EmptyMd5IsHex();
    OneIsSourceId();
    var f := Composite(ref, source, algorithm, value);
    assert SegmentsSize(f.segments) == 0 by { assert f.segments[..0] == []; }
  }

  /** An empty file `a` and a composite `b` of it that states a checksum. */
  function Stating(a: string, b: string, algorithm: string, value: string, rest: Bytes): Manifest {
    Manifest([EmptyFile(a), Composite(b, a, algorithm, value)], [], [], Summary(2, 0, 0, 0), 1, rest)
  }

  lemma StatingFilesValid(files: seq<File>, a: string, b: string, algorithm: string, value: string, l: Limits,
                          maxPart: int, t: Tools)
    requires files == [EmptyFile(a), Composite(b, a, algorithm, value)] && IsRef(a) && IsRef(b) && Less(a, b)
    requires IsAlgorithm(algorithm) && value != "" && t.isChecksum(algorithm, value)
    requires l.maxParts >= 0 && l.maxExpanded >= 0
    ensures FilesValid(files, l, maxPart, t) && Declared(files) == []
  {
    EmptyFileValid(a, maxPart, t);
    CompositeIsValid(b, a, algorithm, value, maxPart, t);
    assert Declared(files[..1]) == [] by { assert files[..1] == [EmptyFile(a)] && files[..1][..0] == []; }
    assert SegmentSourced(files, files[1].segments[0]) by { assert files[0].ref == a; }
  }

  lemma StatingStated(a: string, b: string, algorithm: string, value: string, rest: Bytes,
                      open: (string, int) -> Bytes, t: Tools)
    requires a != b
    ensures SourceStated(Stating(a, b, algorithm, value, rest), open, t) ==> t.checksum(algorithm, []) == value
  {
    var m := Stating(a, b, algorithm, value, rest);
    var contents := SourceContents(m.files, open);
    assert FileAt(m.files, a) == Some(EmptyFile(a)) by { assert m.files[..1] == [EmptyFile(a)]; }
    assert m.files[0].ref == a;
    if SourceStated(m, open, t) {
      assert AllCompletedTrue(m.files[1], contents, t);
      assert CompletedTrue(m.files[1], 0, contents, t);
    }
  }

  lemma StatingIsComplete(a: string, b: string, algorithm: string, value: string, rest: Bytes,
                          open: (string, int) -> Bytes, t: Tools)
    ensures var m := Stating(a, b, algorithm, value, rest);
      && PreparedAll(m, t) == m && FilledManifest(m, open, t) == m
      && forall i :: 0 <= i < |m.files| ==> FileMatches(m.files[i], open, t)
  {
    var m := Stating(a, b, algorithm, value, rest);
    forall i | 0 <= i < |m.files|
      ensures Prepared(m.files[i], t) == m.files[i] == FilledFile(m.files[i], open, t)
      ensures FileMatches(m.files[i], open, t)
    {
      assert m.files[i].parts == [] && m.files[i].compat == EMPTY_MD5;
    }
  }

  /** The builder does not compare checksums with the contents. */
  lemma ChecksumCanBeWrong(a: string, b: string, algorithm: string, value: string, rest: Bytes,
                           open: (string, int) -> Bytes, maxPart: int, t: Tools)
    requires IsRef(a) && IsRef(b) && Less(a, b) && IsAlgorithm(algorithm) && value != ""
    requires t.isChecksum(algorithm, value) && value != t.checksum(algorithm, [])
    requires var m := Stating(a, b, algorithm, value, rest); Unhindered(m, Tight(m, open, t), open, t)
    ensures var m := Stating(a, b, algorithm, value, rest);
      var l := Tight(m, open, t);
      BuildsRefused(m, l, open, maxPart, t) && WithinExpanded(m, l, open, t) && WithinArchive(m, l, open, t)
      && PartsFit(m.files, maxPart)
  {
    var m := Stating(a, b, algorithm, value, rest);
    var l := Tight(m, open, t);
    LessIrreflexive(a);
    StatingBuilt(a, b, algorithm, value, rest, open, t);
    StatingStated(a, b, algorithm, value, rest, open, t);
    BuiltReadsBack(m, l, open, maxPart, t);
  }

  lemma StatingBuilt(a: string, b: string, algorithm: string, value: string, rest: Bytes,
                     open: (string, int) -> Bytes, t: Tools)
    requires IsRef(a) && IsRef(b) && Less(a, b) && IsAlgorithm(algorithm) && value != ""
    requires t.isChecksum(algorithm, value)
    requires var m := Stating(a, b, algorithm, value, rest); Unhindered(m, Tight(m, open, t), open, t)
    ensures var m := Stating(a, b, algorithm, value, rest);
      Buildable(m, Tight(m, open, t), open, t) && PartsFit(m.files, 1)
  {
    var m := Stating(a, b, algorithm, value, rest);
    StatingIsComplete(a, b, algorithm, value, rest, open, t);
    StatingFilesValid(m.files, a, b, algorithm, value, Tight(m, open, t), 1, t);
  }

  // ---------------------------------------------------------------------------
  // A part that is too large for the reader
  // ---------------------------------------------------------------------------

  function TwoByteFile(ref: string, digest: Digest, compat: string): File {
    File(ref, "1", 2, 1, compat, [Part(0, 2, digest, PartName(ref, 0))], [], [])
  }

  /** A file of one part of two bytes. */
  function TwoBytes(ref: string, digest: Digest, compat: string, rest: Bytes): Manifest {
    Manifest([TwoByteFile(ref, digest, compat)], [], [], Summary(1, 0, 1, 2), 2, rest)
  }

  lemma TwoBytesValid(ref: string, digest: Digest, rest: Bytes, l: Limits, t: Tools)
    requires IsRef(ref) && IsHex(digest.md5, 16) && IsHex(digest.sha, 32)
    requires t.restValid(Bare(TwoBytes(ref, Digest("", ""), "", rest)), l)
    requires l.maxFiles >= 1 && l.maxMappings >= 0 && l.maxParts >= 1 && l.maxExpanded >= 2
    ensures ManifestValid(TwoBytes(ref, digest, digest.md5, rest), l, 2, t)
  {
    var m := TwoBytes(ref, digest, digest.md5, rest);
    var f := m.files[0];
    OneIsSourceId();
    assert Bare(m) == Bare(TwoBytes(ref, Digest("", ""), "", rest));
    assert TotalSize(f.parts) == 2 by { assert f.parts[..0] == []; }
    assert Declared(m.files) == f.parts by { assert m.files[..0] == []; }
    assert PartValid(f.ref, f.parts[0], 0, 2);
    assert FileValid(f, 2, t);
  }

  lemma TwoBytesCompleted(ref: string, rest: Bytes, open: (string, int) -> Bytes, t: Tools)
    requires |open(ref, 0)| == 2 && IsRef(ref)
    ensures var m, digest := TwoBytes(ref, Digest("", ""), "", rest), t.digest(open(ref, 0));
      && FilledManifest(m, open, t) == TwoBytes(ref, digest, digest.md5, rest)
      && PreparedAll(m, t) == TwoBytes(ref, Digest(OrZeros("", 16), OrZeros("", 32)), OrZeros("", 16), rest)
      && FileMatches(m.files[0], open, t)
  {
    var m, digest := TwoBytes(ref, Digest("", ""), "", rest), t.digest(open(ref, 0));
    var p := m.files[0].parts[0];
    assert FilledParts(ref, [p], open, t) == [p.(digest := digest)];
    PaddedWidth(0, 8);
    assert PartMatches(ref, p, open, t);
    assert FilledFile(m.files[0], open, t) == TwoByteFile(ref, digest, digest.md5);
    assert Prepared(m.files[0], t) == TwoByteFile(ref, Digest(OrZeros("", 16), OrZeros("", 32)), OrZeros("", 16));
  }

  /** Another installation may take smaller parts. */
  lemma PartCanBeTooLarge(ref: string, rest: Bytes, open: (string, int) -> Bytes, t: Tools)
    requires |open(ref, 0)| == 2 && IsRef(ref)
    requires var m := TwoBytes(ref, Digest("", ""), "", rest); Unhindered(m, Tight(m, open, t), open, t)
    ensures var m := TwoBytes(ref, Digest("", ""), "", rest);
      var l := Tight(m, open, t);
      BuildsRefused(m, l, open, 1, t) && WithinExpanded(m, l, open, t) && WithinArchive(m, l, open, t)
      && SourceStated(m, open, t)
  {
    var m := TwoBytes(ref, Digest("", ""), "", rest);
    var l := Tight(m, open, t);
    TwoBytesCompleted(ref, rest, open, t);
    TwoBytesValid(ref, Digest(OrZeros("", 16), OrZeros("", 32)), rest, l, t);
    TwoBytesValid(ref, t.digest(open(ref, 0)), rest, l, t);
    BuiltReadsBack(m, l, open, 1, t);
    assert m.files[0].parts[0].size > 1;
  }
}
