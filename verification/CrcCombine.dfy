/** Combining the CRCs of consecutive byte strings into the CRC of their concatenation
    (s3checksum/combine_crc.go).  The reference is the bit-serial definition of a reflected
    CRC with all-ones preset and final complement, as section 8 of RFC 1952 (CRC-32) and
    section 12.1 of RFC 3720 (CRC32C) give it. */
module CrcCombine {
  import opened CrcWords

  // ---------------------------------------------------------------------------
  // Reference: the CRC of a byte string
  // ---------------------------------------------------------------------------

  /** One bit time of the reflected shift register with no input. */
  ghost function Step(poly: Word, c: Word): (r: Word)
    requires |poly| == |c| && |c| > 0
    ensures |r| == |c|
  {
    if c[0] then Xor(ShiftRight(c), poly) else ShiftRight(c)
  }

  /** `n` bit times. */
  ghost function Steps(poly: Word, n: nat, c: Word): (r: Word)
    requires |poly| == |c| && |c| > 0
    ensures |r| == |c|
  {
    if n == 0 then c else Steps(poly, n - 1, Step(poly, c))
  }

  /** Eight bit times: the register after one more zero byte. */
  ghost function ZeroByte(poly: Word, c: Word): (r: Word)
    requires |poly| == |c| && |c| > 0
    ensures |r| == |c|
  {
    var n := 8;
    Steps(poly, n, c)
  }

  /** A byte placed in the low eight bits of a word. */
  ghost function Widen(b: Byte, w: nat): (r: Word)
    requires w >= 8
    ensures |r| == w
  {
    b + Zero(w - 8)
  }

  /** The register after absorbing `data`, starting from `c`. */
  ghost function Register(poly: Word, c: Word, data: seq<Byte>): (r: Word)
    requires |poly| == |c| && |c| >= 8
    ensures |r| == |c|
    decreases data
  {
    if data == [] then c
    else Register(poly, ZeroByte(poly, Xor(c, Widen(data[0], |c|))), data[1..])
  }

  /** The finalized CRC. */
  ghost function Crc(poly: Word, data: seq<Byte>): (r: Word)
    requires |poly| >= 8
    ensures |r| == |poly|
  {
    Xor(Register(poly, Ones(|poly|), data), Ones(|poly|))
  }

  lemma StepLinear(poly: Word, a: Word, b: Word)
    requires |poly| == |a| == |b| && |a| > 0
    ensures Step(poly, Xor(a, b)) == Xor(Step(poly, a), Step(poly, b))
  {
    var l, r := Step(poly, Xor(a, b)), Xor(Step(poly, a), Step(poly, b));
    forall i | 0 <= i < |a| ensures l[i] == r[i] {
    }
    assert l == r;
  }

  lemma {:induction false} StepsLinear(poly: Word, n: nat, a: Word, b: Word)
    requires |poly| == |a| == |b| && |a| > 0
    ensures Steps(poly, n, Xor(a, b)) == Xor(Steps(poly, n, a), Steps(poly, n, b))
  {
    if n > 0 {
      StepLinear(poly, a, b);
      StepsLinear(poly, n - 1, Step(poly, a), Step(poly, b));
    }
  }

  lemma {:induction false} StepsAdd(poly: Word, m: nat, n: nat, c: Word)
    requires |poly| == |c| && |c| > 0
    ensures Steps(poly, m + n, c) == Steps(poly, n, Steps(poly, m, c))
  {
    if m > 0 { StepsAdd(poly, m - 1, n, Step(poly, c)); }
  }

  /** A difference in the starting register is carried, unmixed with the data, through
      eight bit times per byte. */
  lemma {:induction false} RegisterLinear(poly: Word, a: Word, b: Word, data: seq<Byte>)
    requires |poly| == |a| == |b| && |a| >= 8
    ensures Register(poly, Xor(a, b), data) == Xor(Register(poly, a, data), Steps(poly, 8 * |data|, b))
    decreases data
  {
    if data != [] {
      var x := Widen(data[0], |a|);
      XorSwapLast(a, b, x);
      ZeroByteLinear(poly, Xor(a, x), b);
      RegisterLinear(poly, ZeroByte(poly, Xor(a, x)), ZeroByte(poly, b), data[1..]);
      ZeroBytesCount(poly, |data| - 1, b);
    }
  }

  lemma ZeroByteLinear(poly: Word, a: Word, b: Word)
    requires |poly| == |a| == |b| && |a| > 0
    ensures ZeroByte(poly, Xor(a, b)) == Xor(ZeroByte(poly, a), ZeroByte(poly, b))
  {
    var n := 8;
    StepsLinear(poly, n, a, b);
  }

  lemma ZeroBytesCount(poly: Word, n: nat, c: Word)
    requires |poly| == |c| && |c| > 0
    ensures Steps(poly, 8 * n, ZeroByte(poly, c)) == Steps(poly, 8 * (n + 1), c)
  {
    var k := 8;
    StepsAdd(poly, k, 8 * n, c);
    assert k + 8 * n == 8 * (n + 1);
  }

  lemma {:induction false} RegisterConcat(poly: Word, c: Word, a: seq<Byte>, b: seq<Byte>)
    requires |poly| == |c| && |c| >= 8
    ensures Register(poly, c, a + b) == Register(poly, Register(poly, c, a), b)
    decreases a
  {
    if a == [] {
      assert a + b == b;
    } else {
      assert (a + b)[1..] == a[1..] + b;
      RegisterConcat(poly, ZeroByte(poly, Xor(c, Widen(a[0], |c|))), a[1..], b);
    }
  }

  /** The CRC of a concatenation from the CRCs of its halves and the length of the second. */
  lemma CrcConcat(poly: Word, a: seq<Byte>, b: seq<Byte>)
    requires |poly| >= 8
    ensures Crc(poly, a + b) == Xor(Steps(poly, 8 * |b|, Crc(poly, a)), Crc(poly, b))
  {
    var ones := Ones(|poly|);
    var ra, rb := Register(poly, ones, a), Register(poly, ones, b);
    var shifted := Steps(poly, 8 * |b|, Crc(poly, a));
    calc {
      Register(poly, ones, a + b);
      { RegisterConcat(poly, ones, a, b); }
      Register(poly, ra, b);
      { XorLaws(ones, ra, ones); XorLaws(ra, ones, ones); assert Xor(ones, Xor(ra, ones)) == ra; }
      Register(poly, Xor(ones, Crc(poly, a)), b);
      { RegisterLinear(poly, ones, Crc(poly, a), b); }
      Xor(rb, shifted);
    }
    XorLaws(shifted, rb, ones);
    XorLaws(rb, shifted, ones);
  }

  // ---------------------------------------------------------------------------
  // The squaring loop
  // ---------------------------------------------------------------------------

  /** `m` is the matrix of `n` bit times. */
  ghost predicate Advances(m: seq<Word>, poly: Word, n: nat) {
    && IsMatrix(m, |poly|) && |poly| > 0
    && forall v: Word {:trigger Times(m, v)} :: |v| == |poly| ==> Times(m, v) == Steps(poly, n, v)
  }

  /** The matrix built from the polynomial and the shifted unit rows. */
  ghost predicate IsStepMatrix(m: seq<Word>, poly: Word) {
    && IsMatrix(m, |poly|) && |poly| > 0
    && m[0] == poly
    && forall i :: 1 <= i < |poly| ==> m[i] == Unit(|poly|, i - 1)
  }

  lemma {:induction false} StepMatrixTail(m: seq<Word>, poly: Word, v: Word, k: nat)
    requires IsStepMatrix(m, poly) && |v| == |poly| && 1 <= k <= |v|
    ensures forall i :: 0 <= i < |v| ==> TimesFrom(m, v, k)[i] == (k <= i + 1 < |v| && v[i + 1])
    decreases |v| - k
  {
    if k < |v| { StepMatrixTail(m, poly, v, k + 1); }
  }

  lemma StepMatrixAdvancesOne(m: seq<Word>, poly: Word)
    requires IsStepMatrix(m, poly)
    ensures Advances(m, poly, 1)
  {
    forall v: Word | |v| == |poly| ensures Times(m, v) == Steps(poly, 1, v) {
      StepMatrixTail(m, poly, v, 1);
      assert TimesFrom(m, v, 1) == ShiftRight(v);
      XorLaws(poly, ShiftRight(v), poly);
      assert Steps(poly, 1, v) == Steps(poly, 0, Step(poly, v)) == Step(poly, v);
    }
  }

  lemma SquareAdvancesTwiceAt(square: seq<Word>, m: seq<Word>, poly: Word, n: nat, v: Word)
    requires IsSquareOf(square, m, |poly|) && Advances(m, poly, n) && |v| == |poly|
    ensures Times(square, v) == Steps(poly, 2 * n, v)
  {
    var once := Times(m, v);
    SquareIsSelfComposition(square, m, v);
    AdvancesAt(m, poly, n, v);
    AdvancesAt(m, poly, n, once);
    StepsAdd(poly, n, n, v);
  }

  lemma AdvancesAt(m: seq<Word>, poly: Word, n: nat, v: Word)
    requires Advances(m, poly, n) && |v| == |poly|
    ensures Times(m, v) == Steps(poly, n, v) && |Times(m, v)| == |poly|
  {
  }

  lemma SquareAdvancesTwice(square: seq<Word>, m: seq<Word>, poly: Word, n: nat)
    requires IsSquareOf(square, m, |poly|) && Advances(m, poly, n)
    ensures Advances(square, poly, 2 * n)
  {
    forall v: Word | |v| == |poly| ensures Times(square, v) == Steps(poly, 2 * n, v) {
      SquareAdvancesTwiceAt(square, m, poly, n, v);
    }
  }

  method MatrixTimes(matrix: array<Word>, vector: Word) returns (sum: Word)
    requires IsMatrix(matrix[..], |vector|)
    ensures sum == Times(matrix[..], vector)
  {
    var w := |vector|;
    sum := Zero(w);
    var rest := vector;
    var index := 0;
    ghost var m := matrix[..];
    TimesStart(m, vector);
    while rest != Zero(w)
      invariant Multiplying(m, vector, rest, sum, index)
      decreases w - index
    {
      MultiplyingNext(m, vector, rest, sum, index);
      if rest[0] {
        sum := Xor(sum, matrix[index]);
      }
      rest := ShiftRight(rest);
      index := index + 1;
    }
    MultiplyingDone(m, vector, rest, sum, index);
  }

  /** `sum` is the sum of the columns before `k` that the vector selects. */
  ghost predicate SummedTo(m: seq<Word>, v: Word, sum: Word, k: int) {
    && IsMatrix(m, |v|) && 0 <= k <= |v| && |sum| == |v|
    && Times(m, v) == Xor(sum, TimesFrom(m, v, k))
  }

  /** What the loop of a multiplication keeps: `rest` is what is left of the vector. */
  ghost predicate Multiplying(m: seq<Word>, v: Word, rest: Word, sum: Word, k: int) {
    SummedTo(m, v, sum, k) && rest == Shifted(v, k)
  }

  lemma MultiplyingNext(m: seq<Word>, v: Word, rest: Word, sum: Word, k: nat)
    requires Multiplying(m, v, rest, sum, k) && rest != Zero(|v|)
    ensures k < |v| == |m| && |rest| == |v| && |m[k]| == |sum|
    ensures Multiplying(m, v, ShiftRight(rest), if rest[0] then Xor(sum, m[k]) else sum, k + 1)
  {
    BitsLeft(v, k);
    TimesStep(m, v, sum, k);
  }

  lemma MultiplyingDone(m: seq<Word>, v: Word, rest: Word, sum: Word, k: nat)
    requires Multiplying(m, v, rest, sum, k) && rest == Zero(|v|)
    ensures sum == Times(m, v)
  {
    NoBitsLeft(m, v, k);
    XorLaws(sum, sum, sum);
  }

  lemma TimesStart(m: seq<Word>, v: Word)
    requires IsMatrix(m, |v|)
    ensures Multiplying(m, v, v, Zero(|v|), 0)
  {
    XorLaws(Times(m, v), Zero(|v|), Zero(|v|));
  }

  lemma TimesStep(m: seq<Word>, v: Word, sum: Word, k: nat)
    requires SummedTo(m, v, sum, k) && k < |v|
    ensures SummedTo(m, v, if v[k] then Xor(sum, m[k]) else sum, k + 1)
  {
    XorLaws(sum, m[k], TimesFrom(m, v, k + 1));
  }

  /** While a bit is left in the shifted vector, the column index is in range. */
  lemma BitsLeft(v: Word, k: nat)
    ensures Shifted(v, k) != Zero(|v|) ==> k < |v| && Shifted(v, k)[0] == v[k]
  {
    ShiftedBits(v, k);
    if k >= |v| {
      assert Shifted(v, k) == Zero(|v|);
    }
  }

  lemma NoBitsLeft(m: seq<Word>, v: Word, k: nat)
    requires IsMatrix(m, |v|) && k <= |v| && Shifted(v, k) == Zero(|v|)
    ensures TimesFrom(m, v, k) == Zero(|v|)
  {
    ShiftedBits(v, k);
    forall j | k <= j < |v| ensures !v[j] {
      assert !Shifted(v, k)[j - k];
    }
    NoColumnsSelected(m, v, k);
  }

  lemma {:induction false} NoColumnsSelected(m: seq<Word>, v: Word, k: nat)
    requires IsMatrix(m, |v|) && k <= |v| && forall j :: k <= j < |v| ==> !v[j]
    ensures TimesFrom(m, v, k) == Zero(|v|)
    decreases |v| - k
  {
    if k < |v| { NoColumnsSelected(m, v, k + 1); }
  }

  method MatrixSquare(square: array<Word>, matrix: array<Word>)
    requires square != matrix && square.Length == matrix.Length
    requires IsMatrix(matrix[..], matrix.Length)
    modifies square
    ensures IsSquareOf(square[..], matrix[..], matrix.Length)
    ensures matrix[..] == old(matrix[..])
  {
    for index := 0 to square.Length
      invariant matrix[..] == old(matrix[..])
      invariant forall i :: 0 <= i < index ==> square[i] == Times(matrix[..], matrix[i])
    {
      var column := MatrixTimes(matrix, matrix[index]);
      square[index] := column;
    }
  }

  /** The value combineCRC is meant to have: `n` zero bytes pushed through the register that
      holds `first`, then `second` added; lengths that are not positive leave `first` as it is. */
  ghost function Combined(poly: Word, first: Word, second: Word, n: int): (r: Word)
    requires |poly| == |first| == |second| && |poly| > 0
    ensures |r| == |poly|
  {
    if n <= 0 then first else Xor(Steps(poly, 8 * n, first), second)
  }

  /** `k` added up `n` times, kept apart from integer multiplication. */
  ghost function Product(k: nat, n: nat): nat {
    if n == 0 then 0 else k + Product(k, n - 1)
  }

  lemma {:induction false} ProductHalves(k: nat, n: nat)
    ensures Product(k, n) == (if n % 2 != 0 then k else 0) + Product(2 * k, n / 2)
  {
    if n >= 2 {
      ProductHalves(k, n - 2);
      assert (n - 2) / 2 == n / 2 - 1 && (n - 2) % 2 == n % 2;
      assert Product(k, n) == k + (k + Product(k, n - 2));
    } else if n == 1 {
      assert Product(k, 1) == k + Product(k, 0);
    }
  }

  lemma {:induction false} ProductEight(n: nat)
    ensures Product(8, n) == 8 * n
  {
    if n > 0 { ProductEight(n - 1); }
  }

  /** `k * n` bit times are still to be applied to `c` to reach `goal`. */
  ghost predicate Remaining(poly: Word, k: nat, n: nat, c: Word, goal: Word) {
    |poly| == |c| && |c| > 0 && Steps(poly, Product(k, n), c) == goal
  }

  lemma HalveSteps(poly: Word, k: nat, all: nat, rest: nat, odd: bool, c: Word, c': Word)
    requires |poly| == |c| && |c| > 0 && all == (if odd then k else 0) + rest
    requires c' == if odd then Steps(poly, k, c) else c
    ensures Steps(poly, rest, c') == Steps(poly, all, c)
  {
    if odd { StepsAdd(poly, k, rest, c); }
  }

  lemma Halve(poly: Word, k: nat, n: nat, c: Word, c': Word, goal: Word)
    requires Remaining(poly, k, n, c, goal)
    requires c' == if n % 2 != 0 then Steps(poly, k, c) else c
    ensures Remaining(poly, 2 * k, n / 2, c', goal)
  {
    var all, rest := Product(k, n), Product(2 * k, n / 2);
    ProductHalves(k, n);
    HalveSteps(poly, k, all, rest, n % 2 != 0, c, c');
  }

  /** The matrix advances `p` bit times, and with its square `n` is worth what is left to the goal. */
  ghost predicate Halving(m: seq<Word>, poly: Word, p: nat, n: nat, c: Word, goal: Word) {
    Advances(m, poly, p) && Remaining(poly, 2 * p, n, c, goal)
  }

  /** One half of the loop body: square `source` into `target` and apply the result when the
      low bit of the remaining length is set. */
  method SquareAndApply(target: array<Word>, source: array<Word>, c: Word, n: nat, poly: Word,
                        ghost p: nat, ghost goal: Word)
    returns (c': Word)
    requires target != source && target.Length == source.Length
    requires Halving(source[..], poly, p, n, c, goal)
    modifies target
    ensures Halving(target[..], poly, 2 * p, n / 2, c', goal)
  {
    MatrixSquare(target, source);
    SquareAdvancesTwice(target[..], source[..], poly, p);
    c' := c;
    if n % 2 != 0 {
      c' := MatrixTimes(target, c);
    }
    Halve(poly, 2 * p, n, c, c', goal);
  }

  method CombineCrc(first0: Word, second: Word, secondLength: int, poly: Word)
    returns (combined: Word)
    requires |first0| == |second| == |poly| && |poly| > 0
    ensures combined == Combined(poly, first0, second, secondLength)
  {
    if secondLength <= 0 {
      return first0;
    }
    var odd, even := BuildFourStepMatrix(poly);
    ghost var goal := Steps(poly, 8 * secondLength, first0);
    ProductEight(secondLength);
    var first := ApplyLength(odd, even, first0, secondLength, poly, goal);
    combined := Xor(first, second);
  }

  /** The matrix that the loop starts with: four bit times in `odd`. */
  method BuildFourStepMatrix(poly: Word) returns (odd: array<Word>, even: array<Word>)
    requires |poly| > 0
    ensures fresh(odd) && fresh(even) && odd != even && odd.Length == even.Length == |poly|
    ensures Advances(odd[..], poly, 4)
  {
    odd, even := BuildStepMatrix(poly);
    StepMatrixAdvancesOne(odd[..], poly);
    MatrixSquare(even, odd);
    SquareAdvancesTwice(even[..], odd[..], poly, 1);
    MatrixSquare(odd, even);
    SquareAdvancesTwice(odd[..], even[..], poly, 2);
  }

  /** The loop: the bits of the length are taken one after the other, with the matrices in turn. */
  method ApplyLength(odd: array<Word>, even: array<Word>, first0: Word, length: nat, poly: Word, ghost goal: Word)
    returns (first: Word)
    requires odd != even && odd.Length == even.Length && length > 0
    requires Halving(odd[..], poly, 4, length, first0, goal)
    modifies odd, even
    ensures first == goal
  {
    var n := length;
    first := first0;
    ghost var p: nat := 4;
    while true
      invariant n > 0 && Halving(odd[..], poly, p, n, first, goal)
      decreases n
    {
      first := SquareAndApply(even, odd, first, n, poly, p, goal);
      n := n / 2;
      if n == 0 {
        break;
      }
      first := SquareAndApply(odd, even, first, n, poly, 2 * p, goal);
      n := n / 2;
      p := 4 * p;
      if n == 0 {
        break;
      }
    }
  }

  method BuildStepMatrix(poly: Word) returns (odd: array<Word>, even: array<Word>)
    requires |poly| > 0
    ensures fresh(odd) && fresh(even) && odd != even
    ensures odd.Length == even.Length == |poly|
    ensures IsStepMatrix(odd[..], poly)
  {
    var width := |poly|;
    odd := new Word[width](i => []);
    even := new Word[width](i => []);
    odd[0] := poly;
    var row := [true] + seq(width - 1, i => false);
    for index := 1 to width
      invariant odd[0] == poly
      invariant row == Unit(width, index - 1)
      invariant forall i :: 1 <= i < index ==> odd[i] == Unit(width, i - 1)
    {
      odd[index] := row;
      row := ShiftLeft(row);
      assert row == Unit(width, index);
    }
  }
}
