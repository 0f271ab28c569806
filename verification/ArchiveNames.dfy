/** The names of archive entries and their order (backupfmt/archive.go, backupfmt/validate.go). */
module ArchiveNames {

  const FORMAT_ENTRY := "format.json"
  const MANIFEST_ENTRY := "manifest.json"
  const NAME_LENGTH := 28
  const FIRST_LONG_INDEX := 100_000_000

  // ---------------------------------------------------------------------------
  // String order
  // ---------------------------------------------------------------------------

  /** Go's comparison of strings. */
  predicate Less(a: string, b: string) {
    b != [] && (a == [] || a[0] < b[0] || (a[0] == b[0] && Less(a[1..], b[1..])))
  }

  lemma {:induction false} LessIrreflexive(a: string)
    ensures !Less(a, a)
  {
    if a != [] { LessIrreflexive(a[1..]); }
  }

  lemma {:induction false} LessTransitive(a: string, b: string, c: string)
    requires Less(a, b) && Less(b, c)
    ensures Less(a, c)
  {
    if a != [] && a[0] == b[0] && b[0] == c[0] { LessTransitive(a[1..], b[1..], c[1..]); }
  }

  /** A difference within the first parts of equal length decides. */
  lemma {:induction false} LessFirst(a: string, x: string, b: string, y: string)
    requires |a| == |b| && Less(a, b)
    ensures Less(a + x, b + y)
  {
    assert (a + x)[0] == a[0] && (b + y)[0] == b[0];
    if a[0] == b[0] {
      assert (a + x)[1..] == a[1..] + x && (b + y)[1..] == b[1..] + y;
      LessFirst(a[1..], x, b[1..], y);
    }
  }

  lemma {:induction false} LessAfter(a: string, x: string, y: string)
    requires Less(x, y)
    ensures Less(a + x, a + y)
  {
    if a == [] {
      assert a + x == x && a + y == y;
    } else {
      assert (a + x)[0] == a[0] == (a + y)[0];
      assert (a + x)[1..] == a[1..] + x && (a + y)[1..] == a[1..] + y;
      LessAfter(a[1..], x, y);
    }
  }

  // ---------------------------------------------------------------------------
  // Padded numbers
  // ---------------------------------------------------------------------------

  function Digit(d: nat): (c: char)
    requires d < 10
    ensures IsDigit(c)
  {
    ('0' as int + d) as char
  }

  predicate IsDigit(c: char) {
    '0' <= c <= '9'
  }

  predicate AllDigits(s: string) {
    forall i :: 0 <= i < |s| ==> IsDigit(s[i])
  }

  /** The decimal digits of `n`, padded with zeros to at least `width` (the %0*d of Go). */
  function Padded(n: nat, width: nat): (s: string)
    ensures |s| >= width && AllDigits(s)
    decreases n, width
  {
    if n == 0 && width == 0 then ""
    else if n == 0 then Padded(0, width - 1) + [Digit(0)]
    else Padded(n / 10, if width == 0 then 0 else width - 1) + [Digit(n % 10)]
  }

  function Pow10(k: nat): (p: nat)
    ensures p > 0
  {
    if k == 0 then 1 else 10 * Pow10(k - 1)
  }

  /** A number has exactly `width` digits as long as it has no more. */
  lemma {:induction false} PaddedWidth(n: nat, width: nat)
    ensures |Padded(n, width)| == width <==> n < Pow10(width)
    decreases n, width
  {
    if n == 0 {
      if width > 0 { PaddedWidth(0, width - 1); }
    } else if width > 0 {
      PaddedWidth(n / 10, width - 1);
    }
  }

  lemma {:induction false} PaddedOrder(n: nat, m: nat, width: nat)
    requires n < m < Pow10(width)
    ensures Less(Padded(n, width), Padded(m, width))
    decreases width
  {
    var a, b := Padded(n / 10, width - 1), Padded(m / 10, width - 1);
    PaddedWidth(n / 10, width - 1);
    PaddedWidth(m / 10, width - 1);
    assert Padded(n, width) == a + [Digit(n % 10)];
    assert Padded(m, width) == b + [Digit(m % 10)];
    if n / 10 < m / 10 {
      PaddedOrder(n / 10, m / 10, width - 1);
      LessFirst(a, [Digit(n % 10)], b, [Digit(m % 10)]);
    } else {
      LessAfter(a, [Digit(n % 10)], [Digit(m % 10)]);
    }
  }

  // ---------------------------------------------------------------------------
  // Names of parts
  // ---------------------------------------------------------------------------

  /** fileRefPattern. */
  predicate IsRef(s: string) {
    |s| == 9 && s[0] == 'f' && AllDigits(s[1..])
  }

  /** The name that validatePhysicalPart expects of a part. */
  function PartName(ref: string, index: nat): string {
    "parts/" + ref + "/" + Padded(index, 8) + ".bin"
  }

  /** partEntryPattern. */
  predicate IsPartName(s: string) {
    && |s| == NAME_LENGTH && s[..6] == "parts/" && IsRef(s[6..15]) && s[15..16] == "/"
    && AllDigits(s[16..24]) && s[24..] == ".bin"
  }

  /** The reference in the name of a part. */
  function RefIn(s: string): string {
    if |s| >= 15 then s[6..15] else ""
  }

  /** A name that the builder gives to an entry. */
  predicate IsEntryName(s: string) {
    s == FORMAT_ENTRY || s == MANIFEST_ENTRY
    || (|s| >= NAME_LENGTH && s[..6] == "parts/" && IsRef(s[6..15]) && s[15..16] == "/"
        && AllDigits(s[16..|s| - 4]) && s[|s| - 4..] == ".bin")
  }

  lemma LongIndex()
    ensures Pow10(8) == FIRST_LONG_INDEX
  {
    assert Pow10(4) == 10000;
    assert Pow10(6) == 100 * Pow10(4);
    assert Pow10(8) == 100 * Pow10(6);
  }

  /** The name of a part is one the reader takes exactly while its index has eight digits. */
  lemma PartNameMatches(ref: string, index: nat)
    requires IsRef(ref)
    ensures IsPartName(PartName(ref, index)) <==> index < FIRST_LONG_INDEX
  {
    PaddedWidth(index, 8);
    LongIndex();
    var s := PartName(ref, index);
    assert |s| == 6 + 9 + 1 + |Padded(index, 8)| + 4;
    if index < FIRST_LONG_INDEX {
      assert s[..6] == "parts/" && s[6..15] == ref && s[15..16] == "/";
      assert s[16..24] == Padded(index, 8) && s[24..] == ".bin";
    }
  }

  lemma IndexOrder(i: nat, j: nat, width: nat)
    requires width == 8 && i < j < FIRST_LONG_INDEX
    ensures Less("/" + Padded(i, width) + ".bin", "/" + Padded(j, width) + ".bin")
  {
    LongIndex();
    PaddedOrder(i, j, width);
    PaddedWidth(i, width);
    PaddedWidth(j, width);
    var a, b := Padded(i, width), Padded(j, width);
    LessAfter("/", a, b);
    LessFirst("/" + a, ".bin", "/" + b, ".bin");
  }

  lemma PartNameOrder(r: string, i: nat, q: string, j: nat)
    requires IsRef(r) && IsRef(q) && i < FIRST_LONG_INDEX && j < FIRST_LONG_INDEX
    requires Less(r, q) || (r == q && i < j)
    ensures Less(PartName(r, i), PartName(q, j))
  {
    var x, y := "/" + Padded(i, 8) + ".bin", "/" + Padded(j, 8) + ".bin";
    if r == q {
      LessIrreflexive(r);
      IndexOrder(i, j, 8);
      LessAfter(r, x, y);
    } else {
      LessFirst(r, x, q, y);
    }
    LessAfter("parts/", r + x, q + y);
    assert PartName(r, i) == "parts/" + (r + x) && PartName(q, j) == "parts/" + (q + y);
  }

  lemma OtherNames(s: string)
    requires IsPartName(s)
    ensures s != MANIFEST_ENTRY && s != FORMAT_ENTRY && Less("", s)
  {
  }
}
