/**
 The HAKMEM 169 bit count used on channel masks, against a plain count of the one bits.

 The argument follows the algorithm: the first two lines turn every octal digit into the
 number of ones in it, the third adds neighbouring digits into base-64 digits, and since
 64 is 1 modulo 63 the remainder is the sum of those.
 */
module BitCount {
  import opened Bits

  const THREES: nat := 0xDB6DB6DB   // octal 33333333333
  const SEVENS: nat := 0xC71C71C7   // octal 30707070707

  function CountWith(i: nat, threes: nat, sevens: nat): int {
    var halves := And(i / 2, threes);
    var count := i - halves - And(halves / 2, threes);
    if count < 0 then count else And(count + count / 8, sevens) % 63
  }

  function Count(i: nat): int {
    CountWith(i, THREES, SEVENS)
  }

  // ---------- masks and words by octal digits ----------

  function Threes(k: nat): nat {
    if k == 0 then 0 else 3 + 8 * Threes(k - 1)
  }

  function Sevens(k: nat): nat {
    if k == 0 then 3 else 7 + 64 * Sevens(k - 1)
  }

  function Pow8(k: nat): (p: nat)
    ensures p > 0
  {
    if k == 0 then 1 else 8 * Pow8(k - 1)
  }

  lemma AndHalf(a: nat, b: nat)
    ensures And(a, b) == (a % 2) * (b % 2) + 2 * And(a / 2, b / 2)
  {
  }

  lemma AndPair(x: nat, a: nat, y: nat, b: nat)
    requires x < 2 && y < 2
    ensures And(x + 2 * a, y + 2 * b) == x * y + 2 * And(a, b)
  {
    AndHalf(x + 2 * a, y + 2 * b);
  }

  lemma AndTriple(x: nat, x1: nat, x2: nat, a: nat, y: nat, y1: nat, y2: nat, b: nat)
    requires x < 2 && x1 < 2 && x2 < 2 && y < 2 && y1 < 2 && y2 < 2
    ensures And(x + 2 * (x1 + 2 * (x2 + 2 * a)), y + 2 * (y1 + 2 * (y2 + 2 * b)))
            == x * y + 2 * (x1 * y1) + 4 * (x2 * y2) + 8 * And(a, b)
  {
    AndPair(x2, a, y2, b);
    AndPair(x1, x2 + 2 * a, y1, y2 + 2 * b);
    AndPair(x, x1 + 2 * (x2 + 2 * a), y, y1 + 2 * (y2 + 2 * b));
  }

  lemma Octal(x: nat, a: nat)
    requires x < 8
    ensures x == x % 2 + 2 * (x / 2 % 2 + 2 * (x / 2 / 2)) && x / 2 / 2 < 2
    ensures x + 8 * a == x % 2 + 2 * (x / 2 % 2 + 2 * (x / 2 / 2 + 2 * a))
  {
  }

  /** `&` works on octal digits separately. */
  lemma AndOctal(x: nat, a: nat, y: nat, b: nat)
    requires x < 8 && y < 8
    ensures And(x + 8 * a, y + 8 * b) == And(x, y) + 8 * And(a, b)
  {
    Octal(x, a);
    Octal(y, b);
    Octal(x, 0);
    Octal(y, 0);
    AndTriple(x % 2, x / 2 % 2, x / 2 / 2, a, y % 2, y / 2 % 2, y / 2 / 2, b);
    AndTriple(x % 2, x / 2 % 2, x / 2 / 2, 0, y % 2, y / 2 % 2, y / 2 / 2, 0);
  }

  lemma AndThree(d: nat)
    requires d < 8
    ensures And(d, 3) == d % 4
  {
    AndHalf(d, 3);
    AndHalf(d / 2, 1);
  }

  lemma AndSeven(d: nat)
    requires d < 8
    ensures And(d, 7) == d
  {
    AndHalf(d, 7);
    AndHalf(d / 2, 3);
    AndHalf(d / 2 / 2, 1);
  }

  // ---------- lines 1 and 2: ones per octal digit ----------

  /** What the two subtractions leave of one octal digit. */
  function Ones(d: nat): nat { d - d / 2 - d / 4 }

  /** Each octal digit of `w` replaced by the number of ones in it. */
  function OnesPerDigit(w: nat, k: nat): nat {
    if k == 0 then 0 else Ones(w % 8) + 8 * OnesPerDigit(w / 8, k - 1)
  }

  lemma DigitSplit(d: nat, hi: nat)
    requires d < 8
    ensures (d + 8 * hi) % 8 == d && (d + 8 * hi) / 8 == hi
    ensures (d + 8 * hi) / 2 == (d / 2 + 4 * (hi % 2)) + 8 * (hi / 2)
  {
  }

  lemma OnesStep(d: nat, hi: nat, k: nat)
    requires d < 8 && k > 0
    ensures OnesPerDigit(d + 8 * hi, k) == Ones(d) + 8 * OnesPerDigit(hi, k - 1)
  {
    DigitSplit(d, hi);
  }

  /** `(w >> 1) & threes`, one octal digit at a time. */
  lemma HalveStep(d: nat, hi: nat, k: nat)
    requires k > 0 && d < 8
    ensures And((d + 8 * hi) / 2, Threes(k)) == d / 2 + 8 * And(hi / 2, Threes(k - 1))
  {
    hide And;
    var low := d / 2 + 4 * (hi % 2);
    DigitSplit(d, hi);
    AndOctal(low, hi / 2, 3, Threes(k - 1));
    AndThree(low);
  }

  ghost predicate Halved(w: nat, k: nat) {
    var f := And(w / 2, Threes(k));
    w == f + And(f / 2, Threes(k)) + OnesPerDigit(w, k)
  }

  lemma HalvedStep(d: nat, hi: nat, k: nat)
    requires k > 0 && d < 8 && Halved(hi, k - 1)
    ensures Halved(d + 8 * hi, k)
  {
    hide And, OnesPerDigit;
    HalveStep(d, hi, k);
    HalveStep(d / 2, And(hi / 2, Threes(k - 1)), k);
    OnesStep(d, hi, k);
  }

  lemma {:induction false} HalveDigits(w: nat, k: nat)
    requires w < Pow8(k)
    ensures Halved(w, k)
  {
    if k > 0 {
      HalveDigits(w / 8, k - 1);
      HalvedStep(w % 8, w / 8, k);
    }
  }

  // ---------- line 3: adding neighbours, modulo 63 ----------

  lemma CountHalf(w: nat)
    ensures CountOnes(w) == w % 2 + CountOnes(w / 2)
  {
  }

  lemma CountPair(x: nat, a: nat)
    requires x < 2
    ensures CountOnes(x + 2 * a) == x + CountOnes(a)
  {
    CountHalf(x + 2 * a);
  }

  lemma CountOctal(d: nat, hi: nat)
    requires d < 8
    ensures CountOnes(d + 8 * hi) == Ones(d) + CountOnes(hi)
  {
    hide CountOnes;
    var x, x1, x2 := d % 2, d / 2 % 2, d / 2 / 2;
    Octal(d, hi);
    CountPair(x2, hi);
    CountPair(x1, x2 + 2 * hi);
    CountPair(x, x1 + 2 * (x2 + 2 * hi));
  }

  /** One base-64 digit of `(count + (count >> 3)) & sevens`: two neighbouring octal digits, added. */
  lemma NeighbourStep(h: nat, h2: nat, a: nat, b: nat, n: nat)
    requires n > 0 && a <= 3 && b <= 3 && h == a + 8 * (b + 8 * h2) && h2 % 8 <= 3
    ensures And(h + h / 8, Sevens(n)) == a + b + 64 * And(h2 + h2 / 8, Sevens(n - 1))
  {
    var c, c2 := h2 % 8, h2 / 8;
    var t := h2 + c2;
    assert h / 8 == b + 8 * h2;
    assert h + h / 8 == (a + b) + 8 * ((b + c) + 8 * t);
    AndOctal(a + b, (b + c) + 8 * t, 7, 8 * Sevens(n - 1));
    AndOctal(b + c, t, 0, Sevens(n - 1));
    AndSeven(a + b);
  }

  lemma Casting(c: nat, v: nat, m: nat)
    requires v % 63 == m % 63
    ensures (c + 64 * v) % 63 == (c + m) % 63
  {
    var q, r := v / 63, m / 63;
    assert c + 64 * v == (c + m) + 63 * (v + q - r);
    Modulo(c + m, v + q - r);
  }

  lemma Modulo(x: int, y: int)
    ensures (x + 63 * y) % 63 == x % 63
  {
  }

  /** The third line, on digits `h`, gives `c` modulo 63. */
  ghost predicate AddsTo(h: nat, n: nat, c: nat) {
    And(h + h / 8, Sevens(n)) % 63 == c % 63
  }

  lemma AddCore(a: nat, b: nat, h2: nat, c: nat, n: nat)
    requires n > 0 && a <= 3 && b <= 3 && h2 % 8 <= 3 && AddsTo(h2, n - 1, c)
    ensures AddsTo(a + 8 * (b + 8 * h2), n, a + (b + c))
  {
    NeighbourStep(a + 8 * (b + 8 * h2), h2, a, b, n);
    Casting(a + b, And(h2 + h2 / 8, Sevens(n - 1)), c);
  }

  lemma LowDigit(w: nat, k: nat)
    requires k > 0
    ensures OnesPerDigit(w, k) % 8 <= 3
  {
    LowOf(Ones(w % 8), OnesPerDigit(w / 8, k - 1));
  }

  lemma LowOf(c: int, rest: int)
    requires 0 <= c <= 3
    ensures (c + 8 * rest) % 8 == c
  {
  }

  lemma DigitsOfTwo(w: nat, d: nat, e: nat, rest: nat, k: nat)
    requires d < 8 && e < 8 && w == d + 8 * (e + 8 * rest)
    ensures OnesPerDigit(w, k + 2) == Ones(d) + 8 * (Ones(e) + 8 * OnesPerDigit(rest, k))
  {
    OnesStep(d, e + 8 * rest, k + 2);
    OnesStep(e, rest, k + 1);
  }

  lemma CountOfTwo(w: nat, d: nat, e: nat, rest: nat)
    requires d < 8 && e < 8 && w == d + 8 * (e + 8 * rest)
    ensures CountOnes(w) == Ones(d) + (Ones(e) + CountOnes(rest))
  {
    hide CountOnes;
    CountOctal(d, e + 8 * rest);
    CountOctal(e, rest);
  }

  lemma AddsItself(h: nat)
    requires h <= 3
    ensures AddsTo(h, 0, h)
  {
    AndThree(h);
  }

  lemma Zeros()
    ensures OnesPerDigit(0, 0) == 0 && CountOnes(0) == 0
  {
  }

  lemma AddOne(w: nat)
    requires w < 8
    ensures AddsTo(OnesPerDigit(w, 1), 0, CountOnes(w))
  {
    hide AddsTo, OnesPerDigit, CountOnes;
    Zeros();
    OnesStep(w, 0, 1);
    CountOctal(w, 0);
    AddsItself(Ones(w));
  }

  lemma AddStep(w: nat, d: nat, e: nat, rest: nat, k: nat, n: nat)
    requires d < 8 && e < 8 && w == d + 8 * (e + 8 * rest) && k > 0 && n > 0
    requires AddsTo(OnesPerDigit(rest, k), n - 1, CountOnes(rest))
    ensures AddsTo(OnesPerDigit(w, k + 2), n, CountOnes(w))
  {
    hide AddsTo, OnesPerDigit, CountOnes;
    LowDigit(rest, k);
    AddCore(Ones(d), Ones(e), OnesPerDigit(rest, k), CountOnes(rest), n);
    DigitsOfTwo(w, d, e, rest, k);
    CountOfTwo(w, d, e, rest);
  }

  lemma {:induction false} AddNeighbours(w: nat, n: nat)
    requires w < Pow8(2 * n + 1)
    ensures AddsTo(OnesPerDigit(w, 2 * n + 1), n, CountOnes(w))
  {
    if n == 0 {
      assert Pow8(1) == 8;
      AddOne(w);
    } else {
      var k := 2 * n - 1;
      SplitTwo(w, k);
      AddNeighbours(w / 8 / 8, n - 1);
      AddStep(w, w % 8, w / 8 % 8, w / 8 / 8, k, n);
    }
  }

  lemma SplitTwo(w: nat, k: nat)
    requires w < Pow8(k + 2)
    ensures w == w % 8 + 8 * (w / 8 % 8 + 8 * (w / 8 / 8)) && w / 8 / 8 < Pow8(k)
  {
    assert Pow8(k + 2) == 8 * (8 * Pow8(k));
  }

  lemma {:induction false} CountBelow(w: nat, k: nat)
    requires w < Pow2(k)
    ensures CountOnes(w) <= k
  {
    if w > 0 { CountBelow(w / 2, k - 1); }
  }

  lemma CountFromParts(i: nat, threes: nat, sevens: nat, h: nat, c: nat)
    requires var f := And(i / 2, threes); i == f + And(f / 2, threes) + h
    requires And(h + h / 8, sevens) % 63 == c % 63 && c < 63
    ensures CountWith(i, threes, sevens) == c
  {
  }

  lemma CountWithExact(i: nat, n: nat)
    requires i < Pow8(2 * n + 1) && CountOnes(i) < 63
    ensures CountWith(i, Threes(2 * n + 1), Sevens(n)) == CountOnes(i)
  {
    hide And, OnesPerDigit, CountOnes;
    HalveDigits(i, 2 * n + 1);
    AddNeighbours(i, n);
    CountFromParts(i, Threes(2 * n + 1), Sevens(n), OnesPerDigit(i, 2 * n + 1), CountOnes(i));
  }

  lemma ThreesValue()
    ensures Threes(11) == THREES
  {
  }

  lemma SevensValue()
    ensures Sevens(5) == SEVENS
  {
  }

  lemma Ranges()
    ensures Pow8(11) == 0x2_0000_0000 && Pow2(31) == 0x8000_0000
  {
    var p := Pow2(8);
    assert p == 0x100;
    assert Pow2(16) == 0x100 * p;
    assert Pow2(24) == 0x100 * Pow2(16);
    assert Pow2(31) == 0x80 * Pow2(24);
    assert Pow8(6) == 0x40000;
  }

  /** The count is right for every non-negative `int`. */
  lemma CountIsExact(i: nat)
    requires i < 0x8000_0000
    ensures Count(i) == CountOnes(i)
  {
    Ranges();
    CountBelow(i, 31);
    CountWithExact(i, 5);
    ThreesValue();
    SevensValue();
  }
}
