/** Numbers as sequences of 32-bit words, least significant first, and the word-by-word recurrences of
    src/dtoa.c with the value each of them computes. */
module Words {
  import opened Arith

  const BASE: nat := 0x1_0000_0000

  type Word = x: nat | x < BASE

  function Val(s: seq<Word>): nat {
    if s == [] then 0 else s[0] + BASE * Val(s[1..])
  }

  lemma {:induction false} ValConcat(s: seq<Word>, t: seq<Word>)
    ensures Val(s + t) == Val(s) + Power(BASE, |s|) * Val(t)
  {
    if s == [] {
      assert s + t == t;
    } else {
      ValConcat(s[1..], t);
      assert (s + t)[1..] == s[1..] + t;
      Scale(Power(BASE, |s| - 1), Val(t));
    }
  }

  lemma Scale(p: nat, v: nat)
    ensures (BASE * p) * v == BASE * (p * v)
  {
  }

  lemma {:induction false} ValBound(s: seq<Word>)
    ensures Val(s) < Power(BASE, |s|)
  {
    if s != [] {
      ValBound(s[1..]);
    }
  }

  lemma {:induction false} ValZeros(s: seq<Word>)
    requires forall i | 0 <= i < |s| :: s[i] == 0
    ensures Val(s) == 0
  {
    if s != [] {
      ValZeros(s[1..]);
    }
  }

  /** Leading zero words do not count. */
  lemma ValTrim(s: seq<Word>, n: nat)
    requires n <= |s| && forall i | n <= i < |s| :: s[i] == 0
    ensures Val(s) == Val(s[..n])
  {
    assert s == s[..n] + s[n..];
    ValConcat(s[..n], s[n..]);
    ValZeros(s[n..]);
  }

  /** The top word on its own. */
  lemma ValTop(s: seq<Word>)
    requires s != []
    ensures Val(s) == Val(s[..|s| - 1]) + Power(BASE, |s| - 1) * s[|s| - 1]
    ensures Val(s[..|s| - 1]) < Power(BASE, |s| - 1)
  {
    var n := |s| - 1;
    assert s == s[..n] + [s[n]];
    ValConcat(s[..n], [s[n]]);
    assert Val([s[n]]) == s[n];
    ValBound(s[..n]);
  }

  /** A number with fewer words than one whose top word is not zero is smaller. */
  lemma ShorterIsLess(s: seq<Word>, t: seq<Word>)
    requires |s| < |t| && t[|t| - 1] != 0
    ensures Val(s) < Val(t)
  {
    ValBound(s);
    PowerMonotone(BASE, |s|, |t| - 1);
    ValTop(t);
    AtLeast(Power(BASE, |t| - 1), t[|t| - 1]);
  }

  /** The comparison of the highest differing word decides. */
  lemma TopDecides(s: seq<Word>, t: seq<Word>, i: nat)
    requires |s| == |t| && i < |s| && s[i] < t[i] && s[i + 1..] == t[i + 1..]
    ensures Val(s) < Val(t)
  {
    assert s == s[..i + 1] + s[i + 1..] && t == t[..i + 1] + t[i + 1..];
    ValConcat(s[..i + 1], s[i + 1..]);
    ValConcat(t[..i + 1], t[i + 1..]);
    ValTop(s[..i + 1]);
    ValTop(t[..i + 1]);
    assert s[..i + 1][..i] == s[..i] && t[..i + 1][..i] == t[..i];
    OneMore(Power(BASE, i), s[i], t[i]);
  }

  // ----- multiply by a word and add

  /** The words of s * m + carry; the last one is the carry out. */
  function MulAdd(s: seq<Word>, m: Word, carry: Word): (r: seq<Word>)
    ensures |r| == |s| + 1
  {
    if s == [] then [carry] else
      MulAddFits(s[0], m, carry);
      var y := s[0] * m + carry;
      [y % BASE] + MulAdd(s[1..], m, y / BASE)
  }

  /** One step of the multiplication fits in 64 bits, and its carry in 32. */
  lemma MulAddFits(x: Word, m: Word, carry: nat)
    requires carry < BASE
    ensures x * m + carry < BASE * BASE && (x * m + carry) / BASE < BASE
  {
    MulLe(x, BASE - 1, m, BASE - 1);
  }

  lemma {:induction false} MulAddVal(s: seq<Word>, m: Word, carry: Word)
    ensures Val(MulAdd(s, m, carry)) == Val(s) * m + carry
  {
    if s == [] {
      assert Val([carry]) == carry;
    } else {
      MulAddFits(s[0], m, carry);
      var y := s[0] * m + carry;
      MulAddVal(s[1..], m, y / BASE);
      assert MulAdd(s, m, carry)[1..] == MulAdd(s[1..], m, y / BASE);
      Horner(s[0], Val(s[1..]), m);
    }
  }

  lemma Horner(x: nat, v: nat, m: nat)
    ensures (x + BASE * v) * m == x * m + BASE * (v * m)
  {
    Scale(v, m);
  }

  // ----- add a multiple into an accumulator

  /** The words of acc + s * y + carry, carry out last: one row of the schoolbook product. */
  function Row(acc: seq<Word>, s: seq<Word>, y: Word, carry: Word): (r: seq<Word>)
    requires |acc| == |s|
    ensures |r| == |s| + 1
  {
    if s == [] then [carry] else
      RowFits(acc[0], s[0], y, carry);
      var z := s[0] * y + acc[0] + carry;
      [z % BASE] + Row(acc[1..], s[1..], y, z / BASE)
  }

  lemma RowFits(a: Word, x: Word, y: Word, carry: nat)
    requires carry < BASE
    ensures x * y + a + carry < BASE * BASE && (x * y + a + carry) / BASE < BASE
  {
    MulLe(x, BASE - 1, y, BASE - 1);
  }

  lemma {:induction false} RowVal(acc: seq<Word>, s: seq<Word>, y: Word, carry: Word)
    requires |acc| == |s|
    ensures Val(Row(acc, s, y, carry)) == Val(acc) + Val(s) * y + carry
  {
    if s == [] {
      assert Val([carry]) == carry;
    } else {
      RowFits(acc[0], s[0], y, carry);
      var z := s[0] * y + acc[0] + carry;
      RowVal(acc[1..], s[1..], y, z / BASE);
      assert Row(acc, s, y, carry)[1..] == Row(acc[1..], s[1..], y, z / BASE);
      Horner(s[0], Val(s[1..]), y);
    }
  }

  // ----- subtract a multiple

  /** What one 64-bit subtraction leaves: the low word of x - sub, and whether it borrowed. */
  function LowDiff(x: Word, sub: nat): Word
    requires sub <= BASE
  {
    (x + BASE - sub) % BASE
  }

  function Borrow(x: Word, sub: nat): nat
    requires sub <= BASE
  {
    if x < sub then 1 else 0
  }

  /** What a step takes from its word: the low word of x * q + carry, and the borrow. */
  function StepSub(x: Word, q: nat, borrow: nat, carry: nat): (sub: nat)
    requires borrow <= 1
    ensures sub <= BASE
  {
    (x * q + carry) % BASE + borrow
  }

  function StepCarry(x: Word, q: nat, carry: nat): (c: nat)
    requires q < BASE && carry < BASE
    ensures c < BASE
  {
    MulAddFits(x, q, carry);
    (x * q + carry) / BASE
  }

  lemma StepSplits(x: Word, q: nat, borrow: nat, carry: nat)
    requires borrow <= 1 && q < BASE && carry < BASE
    ensures Times(x, q) + carry + borrow == StepSub(x, q, borrow, carry) + BASE * StepCarry(x, q, carry)
  {
  }

  /** The words of b - q * s - borrow - carry, modulo BASE^|s|. */
  function SubMul(b: seq<Word>, s: seq<Word>, q: nat, borrow: nat, carry: nat): (r: seq<Word>)
    requires |b| == |s| && borrow <= 1 && q < BASE && carry < BASE
    ensures |r| == |s|
  {
    if s == [] then [] else
      var sub := StepSub(s[0], q, borrow, carry);
      [LowDiff(b[0], sub)] + SubMul(b[1..], s[1..], q, Borrow(b[0], sub), StepCarry(s[0], q, carry))
  }

  /** What is still owed after the last word. */
  function Owed(b: seq<Word>, s: seq<Word>, q: nat, borrow: nat, carry: nat): nat
    requires |b| == |s| && borrow <= 1 && q < BASE && carry < BASE
  {
    if s == [] then borrow + carry else
      var sub := StepSub(s[0], q, borrow, carry);
      Owed(b[1..], s[1..], q, Borrow(b[0], sub), StepCarry(s[0], q, carry))
  }

  /** Multiplication under a name, for proofs that only use its laws. */
  function Times(a: nat, b: nat): nat {
    a * b
  }

  lemma TimesHorner(x: nat, v: nat, m: nat)
    ensures Times(x + BASE * v, m) == Times(x, m) + BASE * Times(v, m)
  {
    Horner(x, v, m);
  }

  lemma TimesScale(p: nat, v: nat)
    ensures Times(BASE * p, v) == BASE * Times(p, v)
  {
    Scale(p, v);
  }

  lemma BorrowSplits(x: Word, sub: nat)
    requires sub <= BASE
    ensures LowDiff(x, sub) + sub == x + BASE * Borrow(x, sub)
  {
  }

  lemma {:induction false} SubMulTimes(b: seq<Word>, s: seq<Word>, q: nat, borrow: nat, carry: nat)
    requires |b| == |s| && borrow <= 1 && q < BASE && carry < BASE
    ensures Val(SubMul(b, s, q, borrow, carry)) + Times(Val(s), q) + borrow + carry
            == Val(b) + Times(Power(BASE, |s|), Owed(b, s, q, borrow, carry))
  {
    hide StepSub, StepCarry, LowDiff;
    if s == [] {
    } else {
      hide Times;
      var sub, carry' := StepSub(s[0], q, borrow, carry), StepCarry(s[0], q, carry);
      var borrow' := Borrow(b[0], sub);
      SubMulTimes(b[1..], s[1..], q, borrow', carry');
      assert SubMul(b, s, q, borrow, carry)[1..] == SubMul(b[1..], s[1..], q, borrow', carry');
      StepSplits(s[0], q, borrow, carry);
      BorrowSplits(b[0], sub);
      TimesHorner(s[0], Val(s[1..]), q);
      TimesScale(Power(BASE, |s| - 1), Owed(b, s, q, borrow, carry));
    }
  }

  lemma SubMulVal(b: seq<Word>, s: seq<Word>, q: nat, borrow: nat, carry: nat)
    requires |b| == |s| && borrow <= 1 && q < BASE && carry < BASE
    ensures Val(SubMul(b, s, q, borrow, carry)) + Val(s) * q + borrow + carry
            == Val(b) + Power(BASE, |s|) * Owed(b, s, q, borrow, carry)
  {
    hide SubMul, Owed, Val, Power;
    SubMulTimes(b, s, q, borrow, carry);
  }

  /** When q * s does not exceed b, nothing is owed and the words are those of b - q * s. */
  lemma SubMulExact(b: seq<Word>, s: seq<Word>, q: nat)
    requires |b| == |s| && q < BASE && Val(s) * q <= Val(b)
    ensures Val(SubMul(b, s, q, 0, 0)) == Val(b) - Val(s) * q
  {
    SubMulVal(b, s, q, 0, 0);
    ValBound(SubMul(b, s, q, 0, 0));
    var owed := Owed(b, s, q, 0, 0);
    if owed > 0 {
      AtLeast(Power(BASE, |s|), owed);
      assert false;
    }
  }
}
