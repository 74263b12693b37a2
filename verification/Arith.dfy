/** Arithmetic that the models of several files share. */
module Arith {

  type Byte = b: nat | b < 256

  lemma Commute(a: nat, b: nat)
    ensures a * b == b * a
  {
  }

  lemma Assoc(a: nat, b: nat, c: nat)
    ensures a * (b * c) == (a * b) * c
  {
  }

  lemma Distribute(a: nat, b: nat, c: nat)
    ensures a * (b + c) == a * b + a * c
  {
  }

  lemma Group(v: nat, p: nat, q: nat)
    ensures p * (v * q) == v * (p * q)
  {
  }

  lemma AtLeast(p: nat, x: nat)
    requires x >= 1
    ensures p * x >= p
  {
  }

  lemma OneMore(p: nat, x: nat, y: nat)
    requires x < y
    ensures p * x + p <= p * y
  {
    assert p * y == p * x + p * (y - x);
    AtLeast(p, y - x);
  }

  lemma MulLe(a: nat, a': nat, b: nat, b': nat)
    requires a <= a' && b <= b'
    ensures a * b <= a' * b'
  {
    assert a * b <= a' * b;
    assert a' * b <= a' * b';
  }

  // ----- powers

  /** base^e. */
  function Power(base: nat, e: nat): (p: nat)
    ensures base >= 1 ==> p >= 1
  {
    if e == 0 then 1 else base * Power(base, e - 1)
  }

  lemma {:induction false} PowerSum(base: nat, d: nat, e: nat)
    ensures Power(base, d + e) == Power(base, d) * Power(base, e)
  {
    if d > 0 {
      PowerSum(base, d - 1, e);
      Assoc(base, Power(base, d - 1), Power(base, e));
    }
  }

  lemma {:induction false} PowerMonotone(base: nat, d: nat, e: nat)
    requires base >= 1 && d <= e
    ensures Power(base, d) <= Power(base, e)
  {
    if d < e {
      PowerMonotone(base, d, e - 1);
      MulLe(1, base, Power(base, e - 1), Power(base, e - 1));
    }
  }

  function Sign(d: int): int {
    if d > 0 then 1 else if d < 0 then -1 else 0
  }

  lemma PowersOfTwo()
    ensures Power(2, 0) == 1 && Power(2, 1) == 2 && Power(2, 2) == 4 && Power(2, 3) == 8
    ensures Power(2, 4) == 16 && Power(2, 5) == 32 && Power(2, 6) == 64 && Power(2, 7) == 128
  {
    assert Power(2, 1) == 2 * Power(2, 0);
    assert Power(2, 2) == 2 * Power(2, 1);
    assert Power(2, 3) == 2 * Power(2, 2);
    assert Power(2, 4) == 2 * Power(2, 3);
    assert Power(2, 5) == 2 * Power(2, 4);
    assert Power(2, 6) == 2 * Power(2, 5);
    assert Power(2, 7) == 2 * Power(2, 6);
  }

  // ----- streams of bits

  /** Bit i of values of w bits each, end to end, the first bit of a value the most significant; zero past the end. */
  function BitOf(v: seq<nat>, w: nat, i: nat): (b: nat)
    requires w >= 1
    ensures b <= 1
  {
    if i / w < |v| then v[i / w] / Power(2, w - 1 - i % w) % 2 else 0
  }

  /** Value j, zero past the end. */
  function At(v: seq<nat>, j: nat): nat {
    if j < |v| then v[j] else 0
  }

  lemma BitAt(v: seq<nat>, w: nat, j: nat, i: nat)
    requires i < w
    ensures BitOf(v, w, w * j + i) == At(v, j) / Power(2, w - 1 - i) % 2
  {
    QuotientIs(w * j + i, w, j, i);
    hide Power;
  }

  /** The number that n bits from bit `at` on denote. */
  function Field(v: seq<nat>, w: nat, at: nat, n: nat): nat
    requires w >= 1
  {
    if n == 0 then 0 else 2 * Field(v, w, at, n - 1) + BitOf(v, w, at + n - 1)
  }

  lemma {:induction false} FieldBound(v: seq<nat>, w: nat, at: nat, n: nat)
    requires w >= 1
    ensures Field(v, w, at, n) < Power(2, n)
  {
    if n > 0 {
      FieldBound(v, w, at, n - 1);
    }
  }

  /** Values that are taken off move the rest. */
  lemma {:induction false} FieldDrop(v: seq<nat>, w: nat, m: nat, at: nat, n: nat)
    requires w >= 1 && m <= |v|
    ensures Field(v[m..], w, at, n) == Field(v, w, at + w * m, n)
  {
    if n > 0 {
      FieldDrop(v, w, m, at, n - 1);
      BitDrop(v, w, m, at + n - 1);
    }
  }

  lemma BitDrop(v: seq<nat>, w: nat, m: nat, i: nat)
    requires w >= 1 && m <= |v|
    ensures BitOf(v[m..], w, i) == BitOf(v, w, i + w * m)
  {
    var q, r := i / w, i % w;
    assert i + w * m == w * (q + m) + r;
    QuotientIs(i + w * m, w, q + m, r);
  }

  lemma QuotientIs(x: nat, w: nat, q: nat, r: nat)
    requires w >= 1 && x == w * q + r && r < w
    ensures x / w == q && x % w == r
  {
    var p := x / w;
    assert x == w * p + x % w;
    if p < q {
      OneMore(w, p, q);
    } else if q < p {
      OneMore(w, q, p);
    }
  }

  /** Dividing twice is dividing by the product. */
  lemma Quotients(a: nat, b: nat, c: nat)
    requires b >= 1 && c >= 1
    ensures b * c >= 1 && a / b / c == a / (b * c)
  {
    var q, r := a / b, a % b;
    var p, t := q / c, q % c;
    Regrouped(a, b, c, q, r, p, t);
    QuotientIs(a, b * c, p, b * t + r);
  }

  lemma Regrouped(a: nat, b: nat, c: nat, q: nat, r: nat, p: nat, t: nat)
    requires a == b * q + r && q == c * p + t && r < b && t < c
    ensures b * c >= 1 && a == b * c * p + (b * t + r) && b * t + r < b * c
  {
    Distribute(b, c * p, t);
    Assoc(b, c, p);
    OneMore(b, t, c);
  }

  lemma HalfOf(a: nat, n: nat)
    requires n >= 1
    ensures a / n == 2 * (a / (2 * n)) + a / n % 2
  {
    var q, r := a / n, a % n;
    assert a == n * q + r && q == 2 * (q / 2) + q % 2;
    assert n * (2 * (q / 2) + q % 2) == 2 * n * (q / 2) + n * (q % 2);
    QuotientIs(a, 2 * n, q / 2, n * (q % 2) + r);
  }

  lemma Halves(a: Byte)
    ensures a == 2 * (a / 2) + a % 2 && a / 2 == 2 * (a / 4) + a / 2 % 2 && a / 4 == 2 * (a / 8) + a / 4 % 2
    ensures a / 8 == 2 * (a / 16) + a / 8 % 2 && a / 16 == 2 * (a / 32) + a / 16 % 2
    ensures a / 32 == 2 * (a / 64) + a / 32 % 2 && a / 64 == 2 * (a / 128) + a / 64 % 2
    ensures a / 128 == a / 128 % 2
  {
    HalfOf(a, 2);
    HalfOf(a, 4);
    HalfOf(a, 8);
    HalfOf(a, 16);
    HalfOf(a, 32);
    HalfOf(a, 64);
  }

  /** The parts into which shifts and masks take a byte, as sums of its bits. */
  lemma ByteParts(a: Byte)
    ensures a / 4 == 32 * (a / 128 % 2) + 16 * (a / 64 % 2) + 8 * (a / 32 % 2) + 4 * (a / 16 % 2)
                     + 2 * (a / 8 % 2) + a / 4 % 2
    ensures a % 4 == 2 * (a / 2 % 2) + a % 2
    ensures a / 16 == 8 * (a / 128 % 2) + 4 * (a / 64 % 2) + 2 * (a / 32 % 2) + a / 16 % 2
    ensures a % 16 == 8 * (a / 8 % 2) + 4 * (a / 4 % 2) + 2 * (a / 2 % 2) + a % 2
    ensures a / 64 == 2 * (a / 128 % 2) + a / 64 % 2
    ensures a % 64 == 32 * (a / 32 % 2) + 16 * (a / 16 % 2) + 8 * (a / 8 % 2) + 4 * (a / 4 % 2)
                      + 2 * (a / 2 % 2) + a % 2
  {
    Halves(a);
  }

  lemma FieldSix(v: seq<nat>, w: nat, at: nat)
    requires w >= 1
    ensures Field(v, w, at, 6)
      == 32 * BitOf(v, w, at) + 16 * BitOf(v, w, at + 1) + 8 * BitOf(v, w, at + 2) + 4 * BitOf(v, w, at + 3)
         + 2 * BitOf(v, w, at + 4) + BitOf(v, w, at + 5)
  {
    hide BitOf;
    assert Field(v, w, at, 1) == 2 * Field(v, w, at, 0) + BitOf(v, w, at);
    assert Field(v, w, at, 2) == 2 * Field(v, w, at, 1) + BitOf(v, w, at + 1);
    assert Field(v, w, at, 3) == 2 * Field(v, w, at, 2) + BitOf(v, w, at + 2);
    assert Field(v, w, at, 4) == 2 * Field(v, w, at, 3) + BitOf(v, w, at + 3);
    assert Field(v, w, at, 5) == 2 * Field(v, w, at, 4) + BitOf(v, w, at + 4);
  }

  lemma FieldEight(v: seq<nat>, w: nat, at: nat)
    requires w >= 1
    ensures Field(v, w, at, 8) == 4 * Field(v, w, at, 6) + 2 * BitOf(v, w, at + 6) + BitOf(v, w, at + 7)
  {
    hide BitOf;
    assert Field(v, w, at, 7) == 2 * Field(v, w, at, 6) + BitOf(v, w, at + 6);
  }

  /** Characters of a text. */
  ghost predicate Among(c: Byte, text: string) {
    exists i | 0 <= i < |text| :: text[i] as int == c
  }
}
