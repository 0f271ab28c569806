/** Machine words as bit sequences, lowest bit first, and linear algebra over GF(2) on them.
    A width stands for both uint32 and uint64, so every fact here covers both instances of
    the generic CRC code. */
module CrcWords {

  type Word = seq<bool>

  type Byte = b: seq<bool> | |b| == 8 witness [false, false, false, false, false, false, false, false]

  function Zero(w: nat): (r: Word)
    ensures |r| == w
  {
    seq(w, i => false)
  }

  ghost function Ones(w: nat): (r: Word)
    ensures |r| == w
  {
    seq(w, i => true)
  }

  /** The word with only bit `k` set. */
  ghost function Unit(w: nat, k: nat): (r: Word)
    ensures |r| == w
  {
    seq(w, i => i == k)
  }

  function Xor(a: Word, b: Word): (r: Word)
    requires |a| == |b|
    ensures |r| == |a|
    ensures forall i :: 0 <= i < |a| ==> r[i] == (a[i] != b[i])
  {
    seq(|a|, i requires 0 <= i < |a| => a[i] != b[i])
  }

  /** Logical shift right by one: bit 0 falls off and a zero enters at the top. */
  function ShiftRight(a: Word): (r: Word)
    ensures |r| == |a|
    ensures forall i :: 0 <= i < |a| ==> r[i] == (i + 1 < |a| && a[i + 1])
  {
    if a == [] then [] else a[1..] + [false]
  }

  /** Logical shift right by `k`. */
  ghost function Shifted(a: Word, k: nat): (r: Word)
    ensures |r| == |a|
  {
    if k == 0 then a else ShiftRight(Shifted(a, k - 1))
  }

  lemma {:induction false} ShiftedBits(a: Word, k: nat)
    ensures forall i :: 0 <= i < |a| ==> Shifted(a, k)[i] == (i + k < |a| && a[i + k])
  {
    if k > 0 { ShiftedBits(a, k - 1); }
  }

  /** Logical shift left by one: the top bit falls off and a zero enters at bit 0. */
  function ShiftLeft(a: Word): (r: Word)
    ensures |r| == |a|
    ensures forall i :: 0 <= i < |a| ==> r[i] == (0 < i && a[i - 1])
  {
    if a == [] then [] else [false] + a[..|a| - 1]
  }

  lemma XorLaws(a: Word, b: Word, c: Word)
    requires |a| == |b| == |c|
    ensures Xor(a, b) == Xor(b, a)
    ensures Xor(Xor(a, b), c) == Xor(a, Xor(b, c))
    ensures Xor(a, a) == Zero(|a|)
    ensures Xor(a, Zero(|a|)) == a
    ensures Xor(Zero(|a|), a) == a
  {
    assert Xor(Xor(a, b), c) == Xor(a, Xor(b, c));
  }

  lemma XorSwapLast(a: Word, b: Word, c: Word)
    requires |a| == |b| == |c|
    ensures Xor(Xor(a, b), c) == Xor(Xor(a, c), b)
  {
    assert Xor(Xor(a, b), c) == Xor(Xor(a, c), b);
  }

  /** (a ^ b) ^ (c ^ d) == (a ^ c) ^ (b ^ d). */
  lemma XorExchange(a: Word, b: Word, c: Word, d: Word)
    requires |a| == |b| == |c| == |d|
    ensures Xor(Xor(a, b), Xor(c, d)) == Xor(Xor(a, c), Xor(b, d))
  {
    var l, r := Xor(Xor(a, b), Xor(c, d)), Xor(Xor(a, c), Xor(b, d));
    forall i | 0 <= i < |a| ensures l[i] == r[i] {
    }
    assert l == r;
  }

  /** A square matrix is one word per column. */
  ghost predicate IsMatrix(m: seq<Word>, w: nat) {
    |m| == w && forall i :: 0 <= i < w ==> |m[i]| == w
  }

  /** The sum of the columns `k..` that `v` selects. */
  ghost function TimesFrom(m: seq<Word>, v: Word, k: nat): (r: Word)
    requires IsMatrix(m, |v|) && k <= |v|
    ensures |r| == |v|
    decreases |v| - k
  {
    if k == |v| then Zero(|v|)
    else if v[k] then Xor(m[k], TimesFrom(m, v, k + 1))
    else TimesFrom(m, v, k + 1)
  }

  /** Matrix times vector over GF(2). */
  ghost function Times(m: seq<Word>, v: Word): (r: Word)
    requires IsMatrix(m, |v|)
    ensures |r| == |v|
  {
    TimesFrom(m, v, 0)
  }

  lemma {:induction false} TimesFromLinear(m: seq<Word>, a: Word, b: Word, k: nat)
    requires |a| == |b| && IsMatrix(m, |a|) && k <= |a|
    ensures TimesFrom(m, Xor(a, b), k) == Xor(TimesFrom(m, a, k), TimesFrom(m, b, k))
    decreases |a| - k
  {
    var w := |a|;
    if k == w {
      XorLaws(Zero(w), Zero(w), Zero(w));
    } else {
      TimesFromLinear(m, a, b, k + 1);
      var ta, tb := TimesFrom(m, a, k + 1), TimesFrom(m, b, k + 1);
      if a[k] && b[k] {
        XorExchange(m[k], ta, m[k], tb);
        XorLaws(m[k], m[k], m[k]);
        XorLaws(Xor(ta, tb), ta, tb);
      } else if a[k] {
        XorLaws(m[k], ta, tb);
      } else if b[k] {
        XorLaws(ta, m[k], tb);
        XorLaws(m[k], ta, tb);
      }
    }
  }

  /** Matrix-vector multiplication distributes over xor. */
  lemma TimesLinear(m: seq<Word>, a: Word, b: Word)
    requires |a| == |b| && IsMatrix(m, |a|)
    ensures Times(m, Xor(a, b)) == Xor(Times(m, a), Times(m, b))
  {
    TimesFromLinear(m, a, b, 0);
  }

  lemma {:induction false} TimesFromZero(m: seq<Word>, w: nat, k: nat)
    requires IsMatrix(m, w) && k <= w
    ensures TimesFrom(m, Zero(w), k) == Zero(w)
    decreases w - k
  {
    if k < w { TimesFromZero(m, w, k + 1); }
  }

  /** `square` holds the images of the columns of `m` under `m`. */
  ghost predicate IsSquareOf(square: seq<Word>, m: seq<Word>, w: nat) {
    && IsMatrix(m, w) && IsMatrix(square, w)
    && forall i :: 0 <= i < w ==> square[i] == Times(m, m[i])
  }

  lemma {:induction false} SquareFrom(square: seq<Word>, m: seq<Word>, v: Word, k: nat)
    requires IsSquareOf(square, m, |v|) && k <= |v|
    ensures TimesFrom(square, v, k) == Times(m, TimesFrom(m, v, k))
    decreases |v| - k
  {
    if k == |v| {
      TimesFromZero(m, |v|, 0);
    } else {
      SquareFrom(square, m, v, k + 1);
      if v[k] {
        TimesLinear(m, m[k], TimesFrom(m, v, k + 1));
      }
    }
  }

  /** Squaring a matrix is composing it with itself, on every vector. */
  lemma SquareIsSelfComposition(square: seq<Word>, m: seq<Word>, v: Word)
    requires IsSquareOf(square, m, |v|)
    ensures Times(square, v) == Times(m, Times(m, v))
  {
    SquareFrom(square, m, v, 0);
  }

  /** The word of width `w` whose unsigned value is `n` modulo 2^w. */
  function FromNat(n: nat, w: nat): (r: Word)
    ensures |r| == w
    decreases w
  {
    if w == 0 then [] else [n % 2 == 1] + FromNat(n / 2, w - 1)
  }
}
