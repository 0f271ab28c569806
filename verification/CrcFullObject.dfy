/** FullObject: the checksum of an object from the checksums and sizes of its parts
    (s3checksum/combine_crc.go, algorithm.go, digest.go).  Base64 is not modelled: a part's
    value is the byte string its text decodes to, or None when the text is malformed. */
module CrcFullObject {
  import opened CrcWords
  import opened CrcCombine

  datatype Option<T> = None | Some(value: T)
  datatype Result<T> = Ok(value: T) | Err(error: Error)

  datatype Algorithm = CRC32 | CRC32C | CRC64NVME | SHA1 | SHA256 | Unknown(name: string)

  datatype Error = InvalidDigest | InvalidPartSize(part: nat) | InvalidCombination | InvalidAlgorithm

  datatype PartChecksum = PartChecksum(value: Option<seq<Byte>>, size: int)

  predicate IsCrc(a: Algorithm) {
    a.CRC32? || a.CRC32C? || a.CRC64NVME?
  }

  /** The digest size of the hash that NewHash builds. */
  function DigestSize(a: Algorithm): (n: nat)
    requires IsCrc(a)
    ensures n == 4 || n == 8
  {
    if a.CRC64NVME? then 8 else 4
  }

  /** The reflected generator polynomial as an unsigned number. */
  function PolynomialValue(a: Algorithm): (n: nat)
    requires IsCrc(a)
  {
    if a.CRC32? then 0xedb8_8320 else if a.CRC32C? then 0x82f6_3b78 else 0x9a6c_9329_ac4b_c9b5
  }

  function Polynomial(a: Algorithm): (p: Word)
    requires IsCrc(a)
    ensures |p| == 8 * DigestSize(a) && |p| / 8 == DigestSize(a) && IsPolynomial(p)
  {
    var value, width := PolynomialValue(a), 8 * DigestSize(a);
    FromNat(value, width)
  }

  // ---------------------------------------------------------------------------
  // Big-endian digests
  // ---------------------------------------------------------------------------

  function FromBigEndian(raw: seq<Byte>): (w: Word)
    ensures |w| == 8 * |raw|
  {
    if raw == [] then [] else FromBigEndian(raw[1..]) + raw[0]
  }

  function ToBigEndian(w: Word): (raw: seq<Byte>)
    requires |w| % 8 == 0
    ensures 8 * |raw| == |w|
  {
    if w == [] then [] else [w[|w| - 8..]] + ToBigEndian(w[..|w| - 8])
  }

  lemma {:induction false} BigEndianRoundTrip(w: Word)
    requires |w| % 8 == 0
    ensures FromBigEndian(ToBigEndian(w)) == w
  {
    if w != [] {
      BigEndianRoundTrip(w[..|w| - 8]);
      assert w == w[..|w| - 8] + w[|w| - 8..];
    }
  }

  // ---------------------------------------------------------------------------
  // Specification
  // ---------------------------------------------------------------------------

  predicate IsPolynomial(poly: Word) {
    |poly| >= 8 && |poly| % 8 == 0
  }

  /** The digest of `data` as a CRC hash with polynomial `poly` emits it. */
  ghost function Digest(poly: Word, data: seq<Byte>): (raw: seq<Byte>)
    requires IsPolynomial(poly)
  {
    ToBigEndian(Crc(poly, data))
  }

  /** What is wrong with one part, if anything, when digests have `size` bytes. */
  function PartError(size: nat, part: PartChecksum, index: nat): Option<Error> {
    if part.size < 0 then Some(InvalidPartSize(index + 1))
    else if part.value.None? || |part.value.value| != size then Some(InvalidDigest)
    else None
  }

  /** The first faulty part decides the error. */
  ghost predicate FirstError(size: nat, parts: seq<PartChecksum>, e: Error) {
    exists k :: 0 <= k < |parts|
      && PartError(size, parts[k], k) == Some(e)
      && WellFormed(size, parts[..k])
  }

  ghost predicate WellFormed(size: nat, parts: seq<PartChecksum>) {
    forall k :: 0 <= k < |parts| ==> PartError(size, parts[k], k).None?
  }

  ghost function Concat(data: seq<seq<Byte>>): seq<Byte> {
    if data == [] then [] else Concat(data[..|data| - 1]) + data[|data| - 1]
  }

  /** `part` records the digest and length of `data`. */
  ghost predicate DescribesOne(poly: Word, part: PartChecksum, data: seq<Byte>)
    requires IsPolynomial(poly)
  {
    part.value.Some? && part.value.value == Digest(poly, data) && part.size == |data|
  }

  /** `parts` records the digest and length of each byte string of `data`, in order. */
  ghost predicate Describes(poly: Word, parts: seq<PartChecksum>, data: seq<seq<Byte>>)
    requires IsPolynomial(poly)
  {
    |parts| == |data| && forall k :: 0 <= k < |data| ==> DescribesOne(poly, parts[k], data[k])
  }

  // ---------------------------------------------------------------------------
  // The combining loop
  // ---------------------------------------------------------------------------

  lemma DigestRoundTrip(poly: Word, data: seq<Byte>)
    requires IsPolynomial(poly)
    ensures |Digest(poly, data)| == |poly| / 8
    ensures FromBigEndian(Digest(poly, data)) == Crc(poly, data)
  {
    BigEndianRoundTrip(Crc(poly, data));
  }

  /** Appending one part moves the CRC of the prefix to the CRC of the longer prefix. */
  lemma AppendPart(poly: Word, prefix: seq<Byte>, part: seq<Byte>)
    requires IsPolynomial(poly)
    ensures Combined(poly, Crc(poly, prefix), Crc(poly, part), |part|) == Crc(poly, prefix + part)
  {
    if part == [] {
      assert prefix + part == prefix;
    } else {
      CrcConcat(poly, prefix, part);
    }
  }

  lemma ConcatPrefix(data: seq<seq<Byte>>, k: nat)
    requires k < |data|
    ensures Concat(data[..k + 1]) == Concat(data[..k]) + data[k]
  {
    assert data[..k + 1][..k] == data[..k];
  }

  /** `c` is the CRC of the first `k` byte strings, whatever byte strings `parts` describes. */
  ghost predicate CrcOfPrefix(poly: Word, parts: seq<PartChecksum>, k: nat, c: Word)
    requires IsPolynomial(poly) && k <= |parts|
  {
    forall data {:trigger Describes(poly, parts, data)} ::
      Describes(poly, parts, data) ==> c == Crc(poly, Concat(data[..k]))
  }

  method CombineParts(poly: Word, parts: seq<PartChecksum>) returns (r: Result<seq<Byte>>)
    requires IsPolynomial(poly) && parts != []
    ensures r.Ok? <==> WellFormed(|poly| / 8, parts)
    ensures r.Err? ==> FirstError(|poly| / 8, parts, r.error)
    ensures forall data :: Describes(poly, parts, data) ==> r == Ok(Digest(poly, Concat(data)))
  {
    var size := |poly| / 8;
    var combined := Zero(|poly|);
    for index := 0 to |parts|
      invariant |combined| == |poly|
      invariant WellFormed(size, parts[..index])
      invariant 0 < index ==> CrcOfPrefix(poly, parts, index, combined)
    {
      var part := parts[index];
      var fault := PartError(size, part, index);
      WellFormedPrefix(poly, parts, index);
      if fault.Some? {
        return Err(fault.value);
      }
      var partCrc := FromBigEndian(part.value.value);
      ghost var before := combined;
      if index == 0 {
        combined := partCrc;
      } else {
        combined := CombineCrc(combined, partCrc, part.size, poly);
      }
      CombineStep(poly, parts, index, before, combined);
    }
    assert parts[..|parts|] == parts;
    r := Ok(ToBigEndian(combined));
    CombineDone(poly, parts, combined);
  }

  lemma WellFormedPrefix(poly: Word, parts: seq<PartChecksum>, k: nat)
    requires IsPolynomial(poly) && k < |parts| && WellFormed(|poly| / 8, parts[..k])
    ensures PartError(|poly| / 8, parts[k], k).None? ==> WellFormed(|poly| / 8, parts[..k + 1])
    ensures var e := PartError(|poly| / 8, parts[k], k);
      e.Some? ==> !WellFormed(|poly| / 8, parts) && FirstError(|poly| / 8, parts, e.value)
    ensures PartError(|poly| / 8, parts[k], k).Some? ==> forall data :: !Describes(poly, parts, data)
  {
    forall j | 0 <= j < k ensures PartError(|poly| / 8, parts[j], j).None? {
      assert parts[..k][j] == parts[j];
    }
    forall data | Describes(poly, parts, data) ensures PartError(|poly| / 8, parts[k], k).None? {
      assert DescribesOne(poly, parts[k], data[k]);
      DigestRoundTrip(poly, data[k]);
    }
  }

  lemma CombineStep(poly: Word, parts: seq<PartChecksum>, k: nat, before: Word, after: Word)
    requires IsPolynomial(poly) && k < |parts| && PartError(|poly| / 8, parts[k], k).None?
    requires |before| == |poly|
    requires 0 < k ==> CrcOfPrefix(poly, parts, k, before)
    requires after == var part := FromBigEndian(parts[k].value.value);
                      if k == 0 then part else Combined(poly, before, part, parts[k].size)
    ensures CrcOfPrefix(poly, parts, k + 1, after)
  {
    forall data | Describes(poly, parts, data)
      ensures after == Crc(poly, Concat(data[..k + 1]))
    {
      assert DescribesOne(poly, parts[k], data[k]);
      DigestRoundTrip(poly, data[k]);
      ConcatPrefix(data, k);
      if k == 0 {
        assert data[..k] == [];
        assert Concat(data[..k + 1]) == data[k];
      } else {
        AppendPart(poly, Concat(data[..k]), data[k]);
      }
    }
  }

  lemma CombineDone(poly: Word, parts: seq<PartChecksum>, c: Word)
    requires IsPolynomial(poly) && |c| == |poly| && CrcOfPrefix(poly, parts, |parts|, c)
    ensures forall data :: Describes(poly, parts, data) ==> ToBigEndian(c) == Digest(poly, Concat(data))
  {
    forall data | Describes(poly, parts, data) ensures ToBigEndian(c) == Digest(poly, Concat(data)) {
      assert data[..|parts|] == data;
    }
  }

  /** The result is the digest of the concatenation of whatever the parts describe. */
  ghost predicate DigestsWhole(poly: Word, parts: seq<PartChecksum>, r: Result<seq<Byte>>)
    requires IsPolynomial(poly)
  {
    forall data :: Describes(poly, parts, data) ==> r == Ok(Digest(poly, Concat(data)))
  }

  /** The entry point, with its rejections in the order the code makes them.  When every part
      is well formed and describes some byte string, the result is the digest of their
      concatenation. */
  method FullObject(a: Algorithm, parts: seq<PartChecksum>) returns (r: Result<seq<Byte>>)
    ensures parts == [] ==> r == Err(InvalidDigest)
    ensures parts != [] && (a.SHA1? || a.SHA256?) ==> r == Err(InvalidCombination)
    ensures parts != [] && a.Unknown? ==> r == Err(InvalidAlgorithm)
    ensures parts != [] && IsCrc(a) ==> (r.Ok? <==> WellFormed(DigestSize(a), parts))
    ensures parts != [] && IsCrc(a) && r.Err? ==> FirstError(DigestSize(a), parts, r.error)
    ensures parts != [] && IsCrc(a) ==> DigestsWhole(Polynomial(a), parts, r)
  {
    if parts == [] {
      return Err(InvalidDigest);
    }
    match a {
      case CRC32 | CRC32C | CRC64NVME =>
        var poly := Polynomial(a);
        r := CombineParts(poly, parts);
        assert DigestsWhole(poly, parts, r);
      case SHA1 | SHA256 => r := Err(InvalidCombination);
      case Unknown(_) => r := Err(InvalidAlgorithm);
    }
  }
}
