/** The backup archive (backupfmt/archive.go, backupfmt/validate.go): its manifest, the builder and the
    strict reader.  Digests, the codings (JSON, tar with gzip), the part source and the validity of the
    records that no content depends on are parameters; those records travel in `rest`. */
module Archive {
  import opened ArchiveNames

  type Bytes = seq<int>

  datatype Option<T> = None | Some(value: T)

  /** The MD5 and the SHA-256 of a part as texts. */
  datatype Digest = Digest(md5: string, sha: string)

  datatype Part = Part(index: int, size: int, digest: Digest, entry: string)
  datatype Segment = Segment(index: int, sourceRef: string, size: int)
  datatype CompletedPart = CompletedPart(number: int, size: int, state: string, algorithm: string, value: string)
  datatype File = File(ref: string, sourceId: string, size: int, layout: int, compat: string,
                       parts: seq<Part>, segments: seq<Segment>, completed: seq<CompletedPart>)
  datatype Mapping = Mapping(path: string, fileRef: string)
  datatype S3Object = S3Object(path: string, algorithm: string, value: string, kind: string)
  datatype Summary = Summary(files: int, mappings: int, parts: int, physicalBytes: int)
  datatype Manifest = Manifest(files: seq<File>, mappings: seq<Mapping>, objects: seq<S3Object>, summary: Summary,
                               maxPartSize: int, rest: Bytes)

  datatype Limits = Limits(maxArchive: int, maxExpanded: int, maxManifest: int, maxParts: int, maxFiles: int,
                           maxMappings: int)

  /** A tar entry; `regular` says that it is a plain USTAR file. */
  datatype Entry = Entry(name: string, bytes: Bytes, regular: bool)

  /** What an archive file holds: its entries, and how many bytes follow them. */
  datatype Unpacked = Unpacked(entries: seq<Entry>, trailing: nat)

  /** What the format relies on: the digests of a part, the MD5 of texts joined; whether a text is a
      checksum of an algorithm, the checksum of bytes, and that of a whole from its parts, of both kinds;
      the JSON of a manifest and of the format header; tar with gzip; and whether the records that
      no content depends on are valid. */
  datatype Tools = Tools(digest: Bytes -> Digest, combine: seq<string> -> string,
                         isChecksum: (string, string) -> bool, checksum: (string, Bytes) -> string,
                         fullObject: (string, seq<(string, int)>) -> Option<string>,
                         composite: (string, seq<string>) -> Option<string>,
                         encode: Manifest -> Bytes, decode: Bytes -> Option<Manifest>,
                         header: Bytes, isHeader: Bytes -> bool,
                         pack: seq<Entry> -> Bytes, unpack: Bytes -> Option<Unpacked>,
                         restValid: (Manifest, Limits) -> bool)

  ghost predicate Sane(t: Tools) {
    && (forall b :: IsHex(t.digest(b).md5, 16) && IsHex(t.digest(b).sha, 32))
    && (forall texts :: IsHex(t.combine(texts), 16))
    && (forall m :: |t.encode(m)| > 0 && t.decode(t.encode(m)) == Some(m))
    && t.isHeader(t.header) && 1 <= |t.header| <= 1024
    && (forall entries :: AllStorable(entries) ==>
         |t.pack(entries)| > 0 && t.unpack(t.pack(entries)) == Some(Unpacked(entries, 0)))
  }

  /** Eleven octal digits of a USTAR header hold the size of an entry. */
  const USTAR_SIZE := 0x2_0000_0000

  /** The last component of a name has at most a hundred characters, and the name of a part sixteen
      before it. */
  const USTAR_NAME := 116

  /** The entry fits a USTAR header. */
  predicate Storable(e: Entry) {
    e.regular && |e.bytes| < USTAR_SIZE && |e.name| <= USTAR_NAME && IsEntryName(e.name)
  }

  ghost predicate AllStorable(entries: seq<Entry>) {
    forall i :: 0 <= i < |entries| ==> Storable(entries[i])
  }

  // ---------------------------------------------------------------------------
  // A valid manifest
  // ---------------------------------------------------------------------------

  /** The hexadecimal text of so many bytes, in lower case. */
  predicate IsHex(s: string, bytes: nat) {
    |s| == 2 * bytes && forall i :: 0 <= i < |s| ==> '0' <= s[i] <= '9' || 'a' <= s[i] <= 'f'
  }

  predicate PartValid(ref: string, part: Part, index: int, maxPart: int) {
    && 0 <= index && part.index == index && 0 < part.size <= maxPart
    && IsHex(part.digest.md5, 16) && IsHex(part.digest.sha, 32) && part.entry == PartName(ref, index)
  }

  function TotalSize(parts: seq<Part>): int {
    if parts == [] then 0 else TotalSize(parts[..|parts| - 1]) + parts[|parts| - 1].size
  }

  function SegmentsSize(segments: seq<Segment>): int {
    if segments == [] then 0 else SegmentsSize(segments[..|segments| - 1]) + segments[|segments| - 1].size
  }

  function Md5s(parts: seq<Part>): seq<string> {
    seq(|parts|, i requires 0 <= i < |parts| => parts[i].digest.md5)
  }

  const EMPTY_MD5 := "d41d8cd98f00b204e9800998ecf8427e"

  /** compatibilityMD5. */
  function CompatibilityMd5(parts: seq<Part>, t: Tools): string {
    if parts == [] then EMPTY_MD5 else if |parts| == 1 then parts[0].digest.md5 else t.combine(Md5s(parts))
  }

  ghost predicate PartsValid(ref: string, parts: seq<Part>, maxPart: int) {
    forall i {:trigger PartValid(ref, parts[i], i, maxPart)} ::
      0 <= i < |parts| ==> PartValid(ref, parts[i], i, maxPart)
  }

  ghost predicate PhysicalValid(f: File, maxPart: int, t: Tools) {
    && f.segments == [] && f.completed == [] && PartsValid(f.ref, f.parts, maxPart) && TotalSize(f.parts) == f.size
    && f.compat == CompatibilityMd5(f.parts, t)
  }

  /** validateCompletedChecksum. */
  predicate ChecksumValid(c: CompletedPart, t: Tools) {
    if c.state == "unavailable" then c.algorithm == "" && c.value == ""
    else Available(c) && IsAlgorithm(c.algorithm) && c.value != "" && t.isChecksum(c.algorithm, c.value)
  }

  predicate Available(c: CompletedPart) {
    c.state == "available"
  }

  /** ParseAlgorithm. */
  predicate IsAlgorithm(s: string) {
    s == "CRC32" || s == "CRC32C" || s == "CRC64NVME" || s == "SHA1" || s == "SHA256"
  }

  predicate SegmentValid(s: Segment, i: int) {
    s.index == i && IsRef(s.sourceRef) && s.size >= 0
  }

  /** The completed part belongs to the segment of its number. */
  predicate CompletedValid(c: CompletedPart, i: int, s: Segment, t: Tools) {
    c.number == i + 1 && c.size == s.size && ChecksumValid(c, t)
  }

  ghost predicate CompositeValid(f: File, t: Tools) {
    && f.parts == [] && f.segments != [] && SegmentsSize(f.segments) == f.size && |f.completed| == |f.segments|
    && (forall i :: 0 <= i < |f.segments| ==> SegmentValid(f.segments[i], i))
    && (forall i :: 0 <= i < |f.segments| ==> CompletedValid(f.completed[i], i, f.segments[i], t))
  }

  /** A positive decimal number of 64 bits. */
  predicate IsSourceId(s: string) {
    s != "" && (forall i :: 0 <= i < |s| ==> '0' <= s[i] <= '9') && 0 < DecimalValue(s) < 0x1_0000_0000_0000_0000
  }

  function DecimalValue(s: string): int {
    if s == "" then 0 else 10 * DecimalValue(s[..|s| - 1]) + (s[|s| - 1] as int - '0' as int)
  }

  ghost predicate FileValid(f: File, maxPart: int, t: Tools) {
    && IsRef(f.ref) && IsSourceId(f.sourceId) && f.size >= 0 && IsHex(f.compat, 16) && (f.layout == 1 || f.layout == 2)
    && (if f.layout == 1 then PhysicalValid(f, maxPart, t) else CompositeValid(f, t))
  }

  /** The parts of all files in order. */
  function Declared(files: seq<File>): seq<Part> {
    if files == [] then [] else Declared(files[..|files| - 1]) + files[|files| - 1].parts
  }

  ghost predicate RefsAscend(files: seq<File>) {
    forall i, j :: 0 <= i < j < |files| ==> Less(files[i].ref, files[j].ref)
  }

  /** A segment takes a whole physical file of the archive. */
  ghost predicate SegmentSourced(files: seq<File>, s: Segment) {
    exists i :: 0 <= i < |files| && files[i].ref == s.sourceRef && files[i].layout == 1 && files[i].size == s.size
  }

  /** validateCompositeReferences. */
  ghost predicate CompositeSourced(files: seq<File>, f: File) {
    f.layout == 2 ==>
      && (forall k :: 0 <= k < |f.segments| ==> SegmentSourced(files, f.segments[k]))
      && (forall j, k :: 0 <= j < k < |f.segments| ==> f.segments[j].sourceRef != f.segments[k].sourceRef)
  }

  ghost predicate FilesValid(files: seq<File>, l: Limits, maxPart: int, t: Tools) {
    && RefsAscend(files) && (forall i :: 0 <= i < |files| ==> FileValid(files[i], maxPart, t))
    && (forall i :: 0 <= i < |files| ==> CompositeSourced(files, files[i]))
    && |Declared(files)| <= l.maxParts && TotalSize(Declared(files)) <= l.maxExpanded
  }

  /** validateManifestSummary, but for the directories. */
  ghost predicate SummaryTrue(m: Manifest) {
    m.summary == Summary(|m.files|, |m.mappings|, |Declared(m.files)|, TotalSize(Declared(m.files)))
  }

  /** The manifest without the digests of its parts, which the validity of other records does not
      depend on. */
  function Bare(m: Manifest): Manifest {
    m.(files := seq(|m.files|, i requires 0 <= i < |m.files| => m.files[i].(parts := [], compat := "")))
  }

  /** ValidateManifest. */
  ghost predicate ManifestValid(m: Manifest, l: Limits, maxPart: int, t: Tools) {
    && m.maxPartSize >= 1 && |m.mappings| <= l.maxMappings && |m.files| <= l.maxFiles
    && FilesValid(m.files, l, PartLimit(maxPart, m), t) && t.restValid(Bare(m), l) && SummaryTrue(m)
  }

  /** A limit that is not positive is none. */
  function PartLimit(maxPart: int, m: Manifest): int {
    if 0 < maxPart < m.maxPartSize then maxPart else m.maxPartSize
  }

  // ---------------------------------------------------------------------------
  // Reading
  // ---------------------------------------------------------------------------

  datatype Observed = Observed(size: int, digest: Digest)

  /** The state of the reader, and the part entries it has seen in order.  `contents` are the files
      whose bytes it has finished to digest, and `current` is the one it is at; bytes stand for their
      digests. */
  datatype ReadState = ReadState(index: nat, expanded: int, last: string, observed: map<string, Observed>,
                                 contents: map<string, Bytes>, current: Option<(string, Bytes)>,
                                 manifest: Option<Manifest>, parts: seq<Entry>)

  const Start := ReadState(0, 0, "", map[], map[], None, None, [])

  /** finishFileDigest. */
  function Finished(contents: map<string, Bytes>, current: Option<(string, Bytes)>): map<string, Bytes> {
    if current.Some? then contents[current.value.0 := current.value.1] else contents
  }

  /** fileContentWriter, and what is written to it. */
  function Gather(s: ReadState, ref: string, bytes: Bytes): ReadState {
    if s.current.Some? && s.current.value.0 == ref then s.(current := Some((ref, s.current.value.1 + bytes)))
    else s.(contents := Finished(s.contents, s.current), current := Some((ref, bytes)))
  }

  function ConsumeFormat(s: ReadState, e: Entry, t: Tools): Option<ReadState> {
    if e.name == FORMAT_ENTRY && 1 <= |e.bytes| <= 1024 && t.isHeader(e.bytes) then Some(s.(index := s.index + 1))
    else None
  }

  function ConsumeManifest(s: ReadState, e: Entry, l: Limits, t: Tools): Option<ReadState> {
    if !(1 <= |e.bytes| <= l.maxManifest) || t.decode(e.bytes).None? then None
    else Some(s.(index := s.index + 1, manifest := t.decode(e.bytes),
                 contents := Finished(s.contents, s.current), current := None))
  }

  function ConsumePart(s: ReadState, e: Entry, l: Limits, t: Tools): Option<ReadState> {
    if !IsPartName(e.name) || !Less(s.last, e.name) || e.name in s.observed then None
    else if |s.observed[e.name := Observed(|e.bytes|, t.digest(e.bytes))]| > l.maxParts then None
    else Some(Gather(s, RefIn(e.name), e.bytes).(
                 index := s.index + 1, last := e.name, parts := s.parts + [e],
                 observed := s.observed[e.name := Observed(|e.bytes|, t.digest(e.bytes))]))
  }

  /** consume. */
  function Consume(s: ReadState, e: Entry, l: Limits, t: Tools): Option<ReadState> {
    if !e.regular || s.expanded > l.maxExpanded - |e.bytes| || s.manifest.Some? then None
    else
      var s' := s.(expanded := s.expanded + |e.bytes|);
      if s.index == 0 then ConsumeFormat(s', e, t)
      else if e.name == MANIFEST_ENTRY then ConsumeManifest(s', e, l, t)
      else ConsumePart(s', e, l, t)
  }

  /** The state after all entries, or a refusal. */
  function After(entries: seq<Entry>, l: Limits, t: Tools): Option<ReadState> {
    if entries == [] then Some(Start)
    else
      var n := |entries| - 1;
      match After(entries[..n], l, t)
      case None => None
      case Some(s) => Consume(s, entries[n], l, t)
  }

  /** The names and digests that the manifest declares are those observed, and no more. */
  ghost predicate Agrees(m: Manifest, observed: map<string, Observed>) {
    && |observed| == |Declared(m.files)|
    && forall i :: 0 <= i < |Declared(m.files)| ==>
         var p := Declared(m.files)[i];
         p.entry in observed && observed[p.entry] == Observed(p.size, p.digest)
  }

  /** The entries are read, with this manifest, and hold what it lists. */
  ghost predicate Listed(entries: seq<Entry>, l: Limits, maxPart: int, t: Tools, m: Manifest) {
    && After(entries, l, t).Some? && After(entries, l, t).value.manifest == Some(m)
    && ManifestValid(m, l, maxPart, t) && Agrees(m, After(entries, l, t).value.observed)
  }

  // ---------------------------------------------------------------------------
  // The checksums of the contents
  // ---------------------------------------------------------------------------

  const FULL_OBJECT := "FULL_OBJECT"
  const COMPOSITE := "COMPOSITE"

  /** The checksum of a file that is among the contents. */
  function ChecksumIn(contents: map<string, Bytes>, ref: string, algorithm: string, t: Tools): string {
    if ref in contents then t.checksum(algorithm, contents[ref]) else ""
  }

  /** A completed part of a file states the checksum of its source, or none. */
  ghost predicate CompletedTrue(f: File, k: int, contents: map<string, Bytes>, t: Tools)
    requires 0 <= k < |f.completed| == |f.segments|
  {
    Available(f.completed[k]) ==>
      && f.segments[k].sourceRef in contents
      && t.checksum(f.completed[k].algorithm, contents[f.segments[k].sourceRef]) == f.completed[k].value
  }

  /** validateCompletedPartContent for a file. */
  ghost predicate AllCompletedTrue(f: File, contents: map<string, Bytes>, t: Tools) {
    f.layout == 2 && |f.completed| == |f.segments| ==>
      forall k :: 0 <= k < |f.completed| ==> CompletedTrue(f, k, contents, t)
  }

  /** The file that a path is mapped to. */
  function RefAt(mappings: seq<Mapping>, path: string): string {
    if mappings == [] then ""
    else
      var last := mappings[|mappings| - 1];
      if last.path == path then last.fileRef else RefAt(mappings[..|mappings| - 1], path)
  }

  function FileAt(files: seq<File>, ref: string): Option<File> {
    if files == [] then None
    else
      var last := files[|files| - 1];
      if last.ref == ref then Some(last) else FileAt(files[..|files| - 1], ref)
  }

  /** compositeObjectChecksum. */
  function CompositeChecksum(f: File, algorithm: string, kind: string, t: Tools): Option<string> {
    if exists k :: 0 <= k < |f.completed| && !(Available(f.completed[k]) && f.completed[k].algorithm == algorithm)
    then None
    else if kind == FULL_OBJECT then t.fullObject(algorithm, ChecksumsAndSizes(f.completed))
    else if kind == COMPOSITE then t.composite(algorithm, Checksums(f.completed))
    else None
  }

  function Checksums(parts: seq<CompletedPart>): seq<string> {
    seq(|parts|, i requires 0 <= i < |parts| => parts[i].value)
  }

  function ChecksumsAndSizes(parts: seq<CompletedPart>): seq<(string, int)> {
    seq(|parts|, i requires 0 <= i < |parts| => (parts[i].value, parts[i].size))
  }

  /** The checksum that an object over a file must state. */
  function ObjectChecksum(f: File, o: S3Object, contents: map<string, Bytes>, t: Tools): Option<string> {
    if f.layout == 1 then
      if o.kind == FULL_OBJECT then Some(ChecksumIn(contents, f.ref, o.algorithm, t)) else None
    else if f.layout == 2 then CompositeChecksum(f, o.algorithm, o.kind, t)
    else None
  }

  /** validateS3ObjectContent. */
  predicate ObjectTrue(m: Manifest, o: S3Object, contents: map<string, Bytes>, t: Tools) {
    o.algorithm == "" ||
    var f := FileAt(m.files, RefAt(m.mappings, o.path));
    IsAlgorithm(o.algorithm) && f.Some? && ObjectChecksum(f.value, o, contents, t) == Some(o.value)
  }

  /** The checksums that the manifest states are those of the contents. */
  ghost predicate ContentTrue(m: Manifest, contents: map<string, Bytes>, t: Tools) {
    && (forall i :: 0 <= i < |m.files| ==> AllCompletedTrue(m.files[i], contents, t))
    && (forall i :: 0 <= i < |m.objects| ==> ObjectTrue(m, m.objects[i], contents, t))
  }

  /** Empty files have no part that was read. */
  function WithEmpty(files: seq<File>, contents: map<string, Bytes>): map<string, Bytes> {
    if files == [] then contents
    else
      var last := files[|files| - 1];
      var before := WithEmpty(files[..|files| - 1], contents);
      if last.layout == 1 && last.size == 0 then before[last.ref := []] else before
  }

  /** A physical file that is not empty was read. */
  ghost predicate ContentFound(files: seq<File>, i: int, contents: map<string, Bytes>)
    requires 0 <= i < |files|
  {
    files[i].layout == 1 && files[i].size != 0 ==> files[i].ref in WithEmpty(files[..i], contents)
  }

  /** validateContentMetadata. */
  ghost predicate ContentChecked(m: Manifest, contents: map<string, Bytes>, t: Tools) {
    && (forall i :: 0 <= i < |m.files| ==> ContentFound(m.files, i, contents))
    && ContentTrue(m, WithEmpty(m.files, contents), t)
  }

  /** The file can be read at all: its size is within the limit, and so is what follows the entries. */
  predicate Opens(packed: Bytes, l: Limits, t: Tools) {
    && 1 <= |packed| <= l.maxArchive
    && t.unpack(packed).Some? && t.unpack(packed).value.trailing <= l.maxExpanded
  }

  /** The archive is accepted, with this manifest. */
  ghost predicate Accepted(packed: Bytes, l: Limits, maxPart: int, t: Tools, m: Manifest) {
    && Opens(packed, l, t) && Listed(t.unpack(packed).value.entries, l, maxPart, t, m)
    && var s := After(t.unpack(packed).value.entries, l, t).value;
       ContentChecked(m, Finished(s.contents, s.current), t)
  }

  // ---------------------------------------------------------------------------
  // Building
  // ---------------------------------------------------------------------------

  /** The entries of the parts of a file, of all files, and the whole archive. */
  function FileEntries(ref: string, parts: seq<Part>, open: (string, int) -> Bytes): seq<Entry> {
    seq(|parts|, i requires 0 <= i < |parts| => Entry(parts[i].entry, open(ref, parts[i].index), true))
  }

  function PartEntries(files: seq<File>, open: (string, int) -> Bytes): seq<Entry> {
    if files == [] then []
    else
      var f := files[|files| - 1];
      PartEntries(files[..|files| - 1], open) + FileEntries(f.ref, f.parts, open)
  }

  function ArchiveOf(m: Manifest, open: (string, int) -> Bytes, t: Tools): seq<Entry> {
    [Entry(FORMAT_ENTRY, t.header, true)] + PartEntries(m.files, open) + [Entry(MANIFEST_ENTRY, t.encode(m), true)]
  }

  /** A part of the source has the size and, where recorded, the digests that the manifest says, and
      its entry fits the archive. */
  predicate PartMatches(ref: string, p: Part, open: (string, int) -> Bytes, t: Tools) {
    && |p.entry| <= USTAR_NAME && |open(ref, p.index)| == p.size < USTAR_SIZE
    && (p.digest.md5 == "" || p.digest.md5 == t.digest(open(ref, p.index)).md5)
    && (p.digest.sha == "" || p.digest.sha == t.digest(open(ref, p.index)).sha)
  }

  function FilledPart(ref: string, p: Part, open: (string, int) -> Bytes, t: Tools): Part {
    p.(digest := t.digest(open(ref, p.index)))
  }

  function FilledParts(ref: string, parts: seq<Part>, open: (string, int) -> Bytes, t: Tools): seq<Part> {
    seq(|parts|, i requires 0 <= i < |parts| => FilledPart(ref, parts[i], open, t))
  }

  /** The file with the digests of what was written. */
  function FilledFile(f: File, open: (string, int) -> Bytes, t: Tools): File {
    var parts := FilledParts(f.ref, f.parts, open, t);
    f.(parts := parts, compat := if f.layout == 1 then CompatibilityMd5(parts, t) else f.compat)
  }

  function Filled(files: seq<File>, open: (string, int) -> Bytes, t: Tools): seq<File> {
    seq(|files|, i requires 0 <= i < |files| => FilledFile(files[i], open, t))
  }

  ghost predicate FileMatches(f: File, open: (string, int) -> Bytes, t: Tools) {
    && (forall i :: 0 <= i < |f.parts| ==> PartMatches(f.ref, f.parts[i], open, t))
    && (f.layout == 1 ==> f.compat == "" || f.compat == FilledFile(f, open, t).compat)
  }
}
