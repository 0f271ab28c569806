/** What the tests of the archive mean: texts that are taken for digests and ids are those that are written for
    them, what a manifest records is kept by the builder, and what holds of every archive that is accepted. */
module ArchiveMeaning {
  import opened ArchiveNames
  import opened Archive
  import opened ArchiveProofs
  import opened ArchiveContents
  import opened ArchiveRoundTrip
  import opened ArchiveObjects
  import opened ArchiveCode

  // ---------------------------------------------------------------------------
  // Texts
  // ---------------------------------------------------------------------------

  type Byte = x: int | 0 <= x < 256

  function HexDigit(d: nat): char
    requires d < 16
  {
    if d < 10 then ('0' as int + d) as char else ('a' as int + d - 10) as char
  }

  function HexValue(c: char): (d: nat)
    requires '0' <= c <= '9' || 'a' <= c <= 'f'
    ensures d < 16 && HexDigit(d) == c
  {
    if '0' <= c <= '9' then c as int - '0' as int else c as int - 'a' as int + 10
  }

  /** hex.EncodeToString. */
  function HexText(bytes: seq<Byte>): (s: string)
    ensures |s| == 2 * |bytes|
  {
    seq(2 * |bytes|, i requires 0 <= i < 2 * |bytes| =>
      HexDigit(if i % 2 == 0 then bytes[i / 2] / 16 else bytes[i / 2] % 16))
  }

  function HexBytes(s: string, n: nat): (bytes: seq<Byte>)
    requires IsHex(s, n)
    ensures |bytes| == n
  {
    seq(n, i requires 0 <= i < n => (16 * HexValue(s[2 * i]) + HexValue(s[2 * i + 1])) as Byte)
  }

  /** A text is taken for so many bytes exactly if it is written for some. */
  lemma HexExactly(s: string, n: nat)
    ensures IsHex(s, n) <==> exists bytes: seq<Byte> :: |bytes| == n && s == HexText(bytes)
  {
    if IsHex(s, n) {
      var bytes, text := HexBytes(s, n), HexText(HexBytes(s, n));
      forall i | 0 <= i < |s| ensures text[i] == s[i] {
        HexAt(s, n, i / 2);
      }
      assert text == s;
    }
  }

  lemma HexAt(s: string, n: nat, k: nat)
    requires IsHex(s, n) && k < n
    ensures HexText(HexBytes(s, n))[2 * k] == s[2 * k] && HexText(HexBytes(s, n))[2 * k + 1] == s[2 * k + 1]
  {
    var b := HexBytes(s, n)[k];
    assert b / 16 == HexValue(s[2 * k]) && b % 16 == HexValue(s[2 * k + 1]);
  }

  /** The digits of a number have its value. */
  lemma {:induction false} DecimalIs(n: nat, width: nat)
    ensures DecimalValue(Padded(n, width)) == n
    decreases n, width
  {
    var s := Padded(n, width);
    if n > 0 || width > 0 {
      var rest := Padded(n / 10, if width == 0 then 0 else width - 1);
      DecimalIs(n / 10, if width == 0 then 0 else width - 1);
      assert s == rest + [Digit(n % 10)] && s[..|s| - 1] == rest;
    }
  }

  /** A number that is written out is taken for an id exactly if it is positive and has 64 bits. */
  lemma SourceIdExactly(n: nat)
    ensures IsSourceId(Padded(n, 1)) <==> 0 < n < 0x1_0000_0000_0000_0000
  {
    DecimalIs(n, 1);
    assert forall i :: 0 <= i < |Padded(n, 1)| ==> IsDigit(Padded(n, 1)[i]);
  }

  /** Digits are written for their value. */
  lemma {:induction false} DigitsAreWritten(s: string)
    requires AllDigits(s)
    ensures 0 <= DecimalValue(s) < Pow10(|s|) && Padded(DecimalValue(s), |s|) == s
    decreases |s|
  {
    if s != "" {
      var rest, d := s[..|s| - 1], s[|s| - 1] as int - '0' as int;
      DigitsAreWritten(rest);
      assert s == rest + [s[|s| - 1]];
      assert DecimalValue(s) / 10 == DecimalValue(rest) && DecimalValue(s) % 10 == d;
    }
  }

  /** A text is taken for the name of a file in the manifest exactly if it is written for a number. */
  lemma RefExactly(s: string)
    ensures IsRef(s) <==> exists n: nat :: n < Pow10(8) && s == "f" + Padded(n, 8)
  {
    if IsRef(s) {
      DigitsAreWritten(s[1..]);
      assert s == "f" + s[1..];
    }
    forall n: nat | n < Pow10(8) && s == "f" + Padded(n, 8) ensures IsRef(s) {
      PaddedWidth(n, 8);
      assert s[1..] == Padded(n, 8);
    }
  }

  /** A completed part states nothing, or a text that decodes as a checksum of one of the five algorithms. */
  lemma StatedExactly(c: CompletedPart, t: Tools)
    ensures ChecksumValid(c, t) <==>
      || c == CompletedPart(c.number, c.size, "unavailable", "", "")
      || (c.state == "available" && c.value != "" && t.isChecksum(c.algorithm, c.value)
          && c.algorithm in {"CRC32", "CRC32C", "CRC64NVME", "SHA1", "SHA256"})
  {
  }

  // ---------------------------------------------------------------------------
  // Building
  // ---------------------------------------------------------------------------

  /** What the manifest records of a part is kept by the build, and is that of the source. */
  lemma RecordedIsKept(m: Manifest, l: Limits, open: (string, int) -> Bytes, t: Tools, i: nat, p: nat)
    requires Buildable(m, l, open, t) && i < |m.files| && p < |m.files[i].parts|
    ensures var was, now := m.files[i].parts[p], FilledManifest(m, open, t).files[i].parts[p];
      && now.index == was.index && now.size == was.size == |open(m.files[i].ref, was.index)| && now.entry == was.entry
      && now.digest == t.digest(open(m.files[i].ref, was.index))
      && (was.digest.md5 != "" ==> now.digest.md5 == was.digest.md5)
      && (was.digest.sha != "" ==> now.digest.sha == was.digest.sha)
    ensures var was, now := m.files[i], FilledManifest(m, open, t).files[i];
      was.layout == 1 && was.compat != "" ==> now.compat == was.compat
  {
    assert FileMatches(m.files[i], open, t);
    assert PartMatches(m.files[i].ref, m.files[i].parts[p], open, t);
  }

  /** A file matches a source of the right sizes if nothing is recorded, and once it is filled in. */
  lemma FilledMatches(f: File, open: (string, int) -> Bytes, t: Tools)
    requires forall p :: 0 <= p < |f.parts| ==>
      |f.parts[p].entry| <= USTAR_NAME && |open(f.ref, f.parts[p].index)| == f.parts[p].size < USTAR_SIZE
    ensures FileMatches(FilledFile(f, open, t), open, t)
    ensures f.compat == "" && (forall p :: 0 <= p < |f.parts| ==> f.parts[p].digest == Digest("", "")) ==>
      FileMatches(f, open, t)
  {
    var g := FilledFile(f, open, t);
    assert FilledParts(g.ref, g.parts, open, t) == g.parts;
  }

  // ---------------------------------------------------------------------------
  // Accepted archives
  // ---------------------------------------------------------------------------

  /** An accepted archive and all it holds are within every limit of its reader, and its summary is true of the
      entries. */
  lemma AcceptedBounds(packed: Bytes, l: Limits, maxPart: int, t: Tools, m: Manifest)
    requires Accepted(packed, l, maxPart, t, m)
    ensures 1 <= |packed| <= l.maxArchive && t.unpack(packed).Some? && t.unpack(packed).value.trailing <= l.maxExpanded
    ensures var entries := t.unpack(packed).value.entries;
      && TotalBytes(entries) <= l.maxExpanded && |entries| >= 2
      && |entries[0].bytes| <= 1024 && |entries[|entries| - 1].bytes| <= l.maxManifest
      && m.summary.parts == |PartsIn(entries)| <= l.maxParts && m.summary.physicalBytes == TotalBytes(PartsIn(entries))
      && m.summary.files == |m.files| <= l.maxFiles && m.summary.mappings == |m.mappings| <= l.maxMappings
      && forall k :: 0 <= k < |PartsIn(entries)| ==>
           0 < |PartsIn(entries)[k].bytes| <= m.maxPartSize && (maxPart > 0 ==> |PartsIn(entries)[k].bytes| <= maxPart)
  {
    var entries, d := t.unpack(packed).value.entries, Declared(m.files);
    AcceptedExactly(packed, l, maxPart, t, m);
    var parts := PartsIn(entries);
    forall k | 0 <= k < |d| ensures PartStored(parts[k], d[k], t) && PartSized(d[k], PartLimit(maxPart, m)) {
      assert PartStored(entries[k + 1], d[k], t);
      DeclaredSized(m.files, PartLimit(maxPart, m), t, k);
    }
    StoredBytes(parts, d, t);
  }

  predicate PartSized(p: Part, limit: int) {
    0 < p.size <= limit
  }

  lemma {:induction false} DeclaredSized(files: seq<File>, limit: int, t: Tools, k: nat)
    requires k < |Declared(files)| && forall i :: 0 <= i < |files| ==> FileValid(files[i], limit, t)
    ensures PartSized(Declared(files)[k], limit)
  {
    var n := |files| - 1;
    var before := |Declared(files[..n])|;
    if k < before {
      DeclaredSized(files[..n], limit, t, k);
    } else {
      var f := files[n];
      assert FileValid(f, limit, t);
      assert PartValid(f.ref, f.parts[k - before], k - before, limit);
    }
  }

  /** The composite checksum of an accepted S3 object is composed of those of the sources of its file. */
  lemma CompositeChecksumHolds(packed: Bytes, l: Limits, maxPart: int, t: Tools, m: Manifest, o: S3Object)
    requires Accepted(packed, l, maxPart, t, m) && o in m.objects && o.algorithm != "" && o.kind == COMPOSITE
    ensures var f := FileAt(m.files, RefAt(m.mappings, o.path));
      f.Some? && f.value.layout == 2
      && var sources := Sources(f.value, PartsIn(t.unpack(packed).value.entries));
         t.composite(o.algorithm, seq(|sources|, k requires 0 <= k < |sources| => t.checksum(o.algorithm, sources[k])))
           == Some(o.value)
  {
    var entries := t.unpack(packed).value.entries;
    var parts, d := PartsIn(entries), Declared(m.files);
    AcceptedExactly(packed, l, maxPart, t, m);
    forall k | 0 <= k < |d| ensures PartStored(parts[k], d[k], t) {
      assert PartStored(entries[k + 1], d[k], t);
    }
    var n :| 0 <= n < |m.objects| && m.objects[n] == o;
    assert ObjectTrue(m, m.objects[n], ContentsOf(m.files, parts), t);
    var i := FileAtIs(m.files, RefAt(m.mappings, o.path));
    CompletedStated(m, l, maxPart, t, parts, i, o.algorithm);
    ChecksumsAre(m.files[i], o.algorithm, Sources(m.files[i], parts), t);
  }

  lemma ChecksumsAre(f: File, algorithm: string, sources: seq<Bytes>, t: Tools)
    requires ChecksumsAndSizes(f.completed) == Stated(algorithm, sources, t)
    ensures Checksums(f.completed)
         == seq(|sources|, k requires 0 <= k < |sources| => t.checksum(algorithm, sources[k]))
  {
    var a, b := ChecksumsAndSizes(f.completed), Stated(algorithm, sources, t);
    assert |a| == |f.completed|;
    forall k | 0 <= k < |f.completed| ensures f.completed[k].value == b[k].0 {
      assert a[k].0 == f.completed[k].value;
    }
  }
}
