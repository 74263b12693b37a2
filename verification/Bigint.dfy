/** The multiple-precision integers of src/dtoa.c (Pack_32 with 64-bit intermediates): word arrays changed in
    place by carry and borrow loops, each method proved against the value it computes. */
module Bigints {
  import opened Arith
  import opened Words

  const TWO31: nat := 0x8000_0000
  const TWO64: nat := 0x1_0000_0000_0000_0000

  class Bigint {
    const k: nat
    const x: array<Word>
    var sign: bool
    var wds: nat

    /** Balloc: the words are whatever the free list left in them. */
    constructor (k: nat)
      ensures this.k == k && x.Length == Power(2, k) && fresh(x)
      ensures wds == 0 && !sign
    {
      this.k := k;
      x := new Word[Power(2, k)];
      sign, wds := false, 0;
    }

    ghost predicate Valid()
      reads this
    {
      x.Length == Power(2, k) && wds <= x.Length
    }

    /** No leading zero word. Zero is one zero word, or no word at all over a zero first word. */
    ghost predicate Normal()
      reads this, x
    {
      Valid() && (wds > 1 ==> x[wds - 1] != 0) && (wds == 0 ==> x[0] == 0)
    }

    function Value(): nat
      requires Valid()
      reads this, x
    {
      Val(x[..wds])
    }

    /** The test for zero: the first word is zero, and there is no second one. */
    predicate IsZero()
      requires Valid()
      reads this, x
    {
      x[0] == 0 && wds <= 1
    }
  }

  /** A result that is one of the given objects, or new. */
  twostate predicate SameOrNew(b: Bigint, new r: Bigint)
    reads {}
  {
    r == b || (fresh(r) && fresh(r.x))
  }

  lemma ZeroIff(s: seq<Word>, first: Word, wds: nat)
    requires |s| == wds && (wds >= 1 ==> s[0] == first)
    requires (wds > 1 ==> s[wds - 1] != 0) && (wds == 0 ==> first == 0)
    ensures first == 0 && wds <= 1 <==> Val(s) == 0
  {
    if wds > 1 {
      ValTop(s);
      AtLeast(Power(BASE, wds - 1), s[wds - 1]);
    }
  }

  // ----- multadd

  /** The carry loop of multadd: at least one word is multiplied. */
  method MultAddWords(x: array<Word>, wds: nat, m: nat, a: nat) returns (carry: Word)
    requires 1 <= x.Length && wds <= x.Length && m < TWO31 && a < TWO31
    modifies x
    ensures var n := if wds == 0 then 1 else wds;
      MulAdd(old(x[..n]), m, a) == x[..n] + [carry] && x[n..] == old(x[n..])
  {
    hide MulAdd;
    ghost var n := if wds == 0 then 1 else wds;
    ghost var s0 := x[..n];
    var i := 0;
    carry := a;
    while i == 0 || i < wds
      invariant 0 <= i <= n
      invariant MulAdd(s0, m, a) == x[..i] + MulAdd(s0[i..], m, carry)
      invariant x[i..n] == s0[i..] && x[n..] == old(x[n..])
      decreases n - i
    {
      assert x[i] == s0[i] by { assert x[i] == x[i..n][0]; }
      MulAddStep(s0, i, m, carry);
      var y := x[i] * m + carry;
      assert y < TWO64;
      carry := y / BASE;
      x[i] := y % BASE;
      assert x[..i + 1] == x[..i] + [y % BASE];
      i := i + 1;
    }
    MulAddEnd(s0, m, carry);
  }

  lemma MulAddStep(s: seq<Word>, i: nat, m: Word, carry: Word)
    requires i < |s|
    ensures var y := s[i] * m + carry;
      && y < TWO64 && y / BASE < BASE
      && MulAdd(s[i..], m, carry) == [y % BASE] + MulAdd(s[i + 1..], m, y / BASE)
  {
    MulAddFits(s[i], m, carry);
    assert s[i..][1..] == s[i + 1..];
  }

  lemma MulAddEnd(s: seq<Word>, m: Word, carry: Word)
    ensures MulAdd(s[|s|..], m, carry) == [carry]
  {
  }

  /** b * m + a, in place if there is room for the carry. */
  method MultAdd(b: Bigint, m: nat, a: nat) returns (r: Bigint)
    requires b.Valid() && m < TWO31 && a < TWO31
    requires b.wds >= 1 || (b.x[0] == 0 && a == 0)
    modifies b, b.x
    ensures SameOrNew(b, r) && r.Valid()
    ensures r.Value() == old(b.Value()) * m + a
    ensures old(b.Normal()) && m >= 1 ==> r.Normal()
    ensures old(b.wds) >= 1 ==> r.wds >= 1
  {
    var wds := b.wds;
    ghost var n := if wds == 0 then 1 else wds;
    ghost var x0 := b.x[..n];
    var carry := MultAddWords(b.x, wds, m, a);
    MultAddDone(x0, m, a, b.x[..n], carry, wds);
    r := b;
    if carry != 0 {
      if wds >= b.x.Length {
        var b1 := new Bigint(b.k + 1);
        CopyWords(b, b1);
        r := b1;
      }
      r.x[wds] := carry;
      r.wds := wds + 1;
      assert r.x[..wds + 1] == b.x[..n] + [carry];
    }
  }

  lemma MultAddDone(x0: seq<Word>, m: Word, a: Word, low: seq<Word>, carry: Word, wds: nat)
    requires MulAdd(x0, m, a) == low + [carry] && |low| == |x0| == (if wds == 0 then 1 else wds)
    requires wds == 0 ==> x0[0] == 0 && a == 0
    ensures wds >= 1 ==> Val(low + [carry]) == Val(x0) * m + a
    ensures wds >= 1 && carry == 0 ==> Val(low) == Val(x0) * m + a
    ensures wds == 0 ==> low[0] == 0 && carry == 0
    ensures m >= 1 && carry == 0 && x0[|x0| - 1] != 0 ==> low[|low| - 1] != 0
  {
    MulAddVal(x0, m, a);
    if carry == 0 {
      ValTrim(low + [carry], |low|);
      assert (low + [carry])[..|low|] == low;
    }
    if wds == 0 {
      assert MulAdd(x0, m, a) == [0, 0] by {
        assert MulAdd(x0[1..], m, 0) == [0];
      }
    }
    if m >= 1 && carry == 0 && x0[|x0| - 1] != 0 && low[|low| - 1] == 0 {
      var n := |low| - 1;
      ValTrim(low, n);
      ValBound(low[..n]);
      ValTop(x0);
      AtLeast(Power(BASE, n), x0[n]);
      MulLe(Val(x0), Val(x0), 1, m);
      assert false;
    }
  }

  /** Bcopy. */
  method CopyWords(b: Bigint, b1: Bigint)
    requires b.Valid() && b1.Valid() && b != b1 && b.x != b1.x && b.wds <= b1.x.Length
    modifies b1, b1.x
    ensures b1.sign == b.sign && b1.wds == b.wds && b1.Valid()
    ensures b1.x[..b.wds] == b.x[..b.wds]
    ensures b.x[..] == old(b.x[..])
  {
    b1.sign, b1.wds := b.sign, b.wds;
    var i := 0;
    while i < b.wds
      invariant 0 <= i <= b.wds && b1.x[..i] == b.x[..i]
      invariant b.x[..] == old(b.x[..])
      invariant b1.sign == b.sign && b1.wds == b.wds == old(b.wds)
      modifies b1.x
    {
      b1.x[i] := b.x[i];
      i := i + 1;
    }
  }

  // ----- mult

  /** One row of the schoolbook product, added in place at word `at`. */
  method MultRow(xa: array<Word>, wa: nat, y: Word, xc: array<Word>, at: nat)
    requires xa != xc && 1 <= wa <= xa.Length && at + wa < xc.Length
    modifies xc
    ensures xc[at..at + wa + 1] == Row(old(xc[at..at + wa]), xa[..wa], y, 0)
    ensures xc[..at] == old(xc[..at]) && xc[at + wa + 1..] == old(xc[at + wa + 1..])
  {
    hide Row;
    ghost var s0, acc := xa[..wa], xc[at..at + wa];
    var j := 0;
    var carry: Word := 0;
    while j < wa
      invariant 0 <= j <= wa && xa[..wa] == s0
      invariant Row(acc, s0, y, 0) == xc[at..at + j] + Row(acc[j..], s0[j..], y, carry)
      invariant xc[..at] == old(xc[..at]) && xc[at + j..at + wa] == acc[j..]
      invariant xc[at + wa + 1..] == old(xc[at + wa + 1..])
    {
      assert xc[at + j] == acc[j] by { assert xc[at + j] == xc[at + j..at + wa][0]; }
      assert xa[j] == s0[j];
      RowStepAt(acc, s0, j, y, carry);
      var z := xa[j] * y + xc[at + j] + carry;
      assert z < TWO64;
      carry := z / BASE;
      xc[at + j] := z % BASE;
      assert xc[at..at + j + 1] == xc[at..at + j] + [z % BASE];
      j := j + 1;
    }
    RowEnd(acc, s0, y, carry);
    xc[at + wa] := carry;
    assert xc[at..at + wa + 1] == xc[at..at + wa] + [carry];
  }

  lemma RowStepAt(acc: seq<Word>, s: seq<Word>, j: nat, y: Word, carry: Word)
    requires |acc| == |s| && j < |s|
    ensures var z := s[j] * y + acc[j] + carry;
      && z < TWO64 && z / BASE < BASE
      && Row(acc[j..], s[j..], y, carry) == [z % BASE] + Row(acc[j + 1..], s[j + 1..], y, z / BASE)
  {
    RowFits(acc[j], s[j], y, carry);
    assert acc[j..][1..] == acc[j + 1..] && s[j..][1..] == s[j + 1..];
  }

  lemma RowEnd(acc: seq<Word>, s: seq<Word>, y: Word, carry: Word)
    requires |acc| == |s|
    ensures Row(acc[|s|..], s[|s|..], y, carry) == [carry]
  {
  }

  lemma RowStep(low: seq<Word>, acc: seq<Word>, s: seq<Word>, y: Word)
    requires |acc| == |s|
    ensures Val(low + Row(acc, s, y, 0)) == Val(low + acc) + Val(s) * (Power(BASE, |low|) * y)
  {
    hide Val, Row, Power;
    ValConcat(low, Row(acc, s, y, 0));
    ValConcat(low, acc);
    RowVal(acc, s, y, 0);
    ScaleSum(Power(BASE, |low|), Val(acc), Val(s), y, Val(Row(acc, s, y, 0)));
  }

  lemma ScaleSum(p: nat, a: nat, v: nat, y: nat, r: nat)
    requires r == a + v * y
    ensures p * r == p * a + v * (p * y)
  {
    Distribute(p, a, v * y);
    Group(v, p, y);
  }

  /** The exact product, in a new object without leading zero words. */
  method Mult(a0: Bigint, b0: Bigint) returns (c: Bigint)
    requires a0.Valid() && b0.Valid() && (a0.wds >= 1 || b0.wds >= 1)
    ensures fresh(c) && fresh(c.x) && c.Normal()
    ensures c.Value() == a0.Value() * b0.Value()
  {
    hide Val, Power;
    var a, b := a0, b0;
    if a.wds < b.wds {
      a, b := b, a;
      Commute(Val(a.x[..a.wds]), Val(b.x[..b.wds]));
    }
    var k, wa, wb := a.k, a.wds, b.wds;
    var wc := wa + wb;
    Pow2Next(k);
    if wc > a.x.Length {
      k := k + 1;
    }
    c := new Bigint(k);
    ClearWords(c.x, wc);
    MultRows(a.x, wa, b.x, wb, c.x);
    var top := TrimWords(c.x, wc);
    ValTrim(c.x[..wc], top);
    assert c.x[..wc][..top] == c.x[..top];
    c.wds := top;
  }

  lemma Pow2Next(k: nat)
    ensures Power(2, k + 1) == 2 * Power(2, k)
  {
  }

  /** The loop over the words of the second factor; a zero word adds no row. */
  method MultRows(xa: array<Word>, wa: nat, xb: array<Word>, wb: nat, xc: array<Word>)
    requires xa != xc && xb != xc && wb <= wa <= xa.Length && wb <= xb.Length && wa + wb <= xc.Length
    requires forall j | 0 <= j < wa + wb :: xc[j] == 0
    modifies xc
    ensures Val(xc[..wa + wb]) == Val(xa[..wa]) * Val(xb[..wb])
  {
    hide Val, Row, Power;
    ghost var sa, sb := xa[..wa], xb[..wb];
    ProductStart(xc[..wa], sa, sb);
    var i := 0;
    while i < wb
      invariant 0 <= i <= wb && xa[..wa] == sa && xb[..wb] == sb
      invariant Val(xc[..i + wa]) == Val(sa) * Val(sb[..i])
      invariant forall j | i + wa <= j < wa + wb :: xc[j] == 0
    {
      var y := xb[i];
      assert y == sb[i];
      ghost var low, acc := xc[..i], xc[i..i + wa];
      assert xc[..i + wa] == low + acc;
      if y != 0 {
        ProductStep(low, acc, sa, sb, i);
        ghost var rest := xc[i + wa + 1..];
        MultRow(xa, wa, y, xc, i);
        assert xc[..i + 1 + wa] == low + Row(acc, sa, y, 0);
        RestKept(xc[..], rest, i + wa + 1, wa + wb);
      } else {
        ProductSkip(low + acc, sa, sb, i);
        assert xc[..i + 1 + wa] == low + acc + [0];
      }
      i := i + 1;
    }
    assert sb[..wb] == sb;
  }

  lemma RestKept(x: seq<Word>, rest: seq<Word>, from: nat, to: nat)
    requires from <= to <= |x| && x[from..] == rest && forall j | 0 <= j < to - from :: rest[j] == 0
    ensures forall j | from <= j < to :: x[j] == 0
  {
    forall j | from <= j < to ensures x[j] == 0 {
      assert x[j] == rest[j - from];
    }
  }

  lemma ProductStart(zeros: seq<Word>, sa: seq<Word>, sb: seq<Word>)
    requires forall j | 0 <= j < |zeros| :: zeros[j] == 0
    ensures Val(zeros) == Val(sa) * Val(sb[..0])
  {
    ValZeros(zeros);
  }

  /** A row for word i of the second factor extends the product to i + 1 words of it. */
  lemma ProductStep(low: seq<Word>, acc: seq<Word>, sa: seq<Word>, sb: seq<Word>, i: nat)
    requires |acc| == |sa| && i < |sb| && |low| == i
    requires Val(low + acc) == Val(sa) * Val(sb[..i])
    ensures Val(low + Row(acc, sa, sb[i], 0)) == Val(sa) * Val(sb[..i + 1])
  {
    hide Row, Val, Power;
    RowStep(low, acc, sa, sb[i]);
    NextWord(sb, i);
    Distribute(Val(sa), Val(sb[..i]), Power(BASE, i) * sb[i]);
  }

  lemma ProductSkip(product: seq<Word>, sa: seq<Word>, sb: seq<Word>, i: nat)
    requires i < |sb| && sb[i] == 0 && Val(product) == Val(sa) * Val(sb[..i])
    ensures Val(product + [0]) == Val(sa) * Val(sb[..i + 1])
  {
    NextWord(sb, i);
    ValTrim(product + [0], |product|);
    assert (product + [0])[..|product|] == product;
  }

  lemma NextWord(s: seq<Word>, i: nat)
    requires i < |s|
    ensures Val(s[..i + 1]) == Val(s[..i]) + Power(BASE, i) * s[i]
  {
    ValTop(s[..i + 1]);
    assert s[..i + 1][..i] == s[..i];
  }

  method ClearWords(x: array<Word>, n: nat)
    requires n <= x.Length
    modifies x
    ensures forall j | 0 <= j < n :: x[j] == 0
  {
    var i := 0;
    while i < n
      invariant 0 <= i <= n && forall j | 0 <= j < i :: x[j] == 0
    {
      x[i] := 0;
      i := i + 1;
    }
  }

  /** Zero words at the top are no longer counted. */
  method TrimWords(x: array<Word>, n: nat) returns (top: nat)
    requires n <= x.Length
    ensures top <= n && (top > 0 ==> x[top - 1] != 0)
    ensures forall j | top <= j < n :: x[j] == 0
  {
    top := n;
    while top > 0 && x[top - 1] == 0
      invariant top <= n && forall j | top <= j < n :: x[j] == 0
    {
      top := top - 1;
    }
  }

  // ----- lshift

  lemma Pow2Values()
    ensures Power(2, 8) == 256 && Power(2, 16) == 65536 && Power(2, 32) == BASE
  {
    PowerSum(2, 4, 4);
    PowerSum(2, 8, 8);
    PowerSum(2, 16, 16);
  }

  /** Whole words of a shift. */
  lemma {:induction false} Pow2Words(n: nat)
    ensures Power(2, 32 * n) == Power(BASE, n)
  {
    if n > 0 {
      Pow2Words(n - 1);
      PowerSum(2, 32, 32 * (n - 1));
      Pow2Values();
    }
  }

  lemma ShiftFactors(s: nat)
    requires 1 <= s < 32
    ensures Power(2, s) * Power(2, 32 - s) == BASE && Power(2, s) < BASE && Power(2, 32 - s) >= 2
  {
    PowerSum(2, s, 32 - s);
    Pow2Values();
    AtLeast(2, Power(2, 31 - s));
    MulLe(Power(2, s), Power(2, s), 2, Power(2, 32 - s));
  }

  /** A word shifted left by s bits over the bits z shifted out before, and the bits it shifts out itself. */
  lemma ShiftWord(x: Word, p: nat, q: nat, z: nat)
    requires p >= 1 && q >= 1 && p * q == BASE && z < p
    ensures (x * p) % BASE + z == (x * p + z) % BASE
    ensures x / q == (x * p + z) / BASE && x / q < p
  {
    var h, l := x / q, x % q;
    ShiftParts(x, p, q, h, l);
    ShiftMod(x * p, h, l * p, z, p);
  }

  lemma ShiftParts(x: Word, p: nat, q: nat, h: nat, l: nat)
    requires p >= 1 && q >= 1 && p * q == BASE && h == x / q && l == x % q
    ensures x * p == BASE * h + l * p && l * p + p <= BASE && h < p
  {
    assert x == q * h + l;
    ShiftSplit(p, q, h, l);
    OneMore(p, l, q);
    Commute(p, l);
    if h >= p {
      MulLe(p, h, q, q);
      Commute(q, h);
    }
  }

  lemma ShiftMod(xp: nat, h: nat, lp: nat, z: nat, p: nat)
    requires xp == BASE * h + lp && lp + p <= BASE && z < p
    ensures xp % BASE + z == (xp + z) % BASE && (xp + z) / BASE == h
  {
  }

  lemma ShiftSplit(p: nat, q: nat, h: nat, l: nat)
    requires p * q == BASE
    ensures (q * h + l) * p == BASE * h + l * p
  {
    assert (q * h + l) * p == (q * h) * p + l * p;
    assert (q * h) * p == (p * q) * h;
  }

  /** The loop that shifts by 1 to 31 bits. */
  method ShiftWords(x: array<Word>, wds: nat, s: nat, x1: array<Word>, n: nat) returns (z: Word)
    requires x != x1 && 1 <= wds <= x.Length && 1 <= s < 32 && n + wds <= x1.Length
    modifies x1
    ensures Power(2, s) < BASE && MulAdd(x[..wds], Power(2, s), 0) == x1[n..n + wds] + [z]
    ensures x1[..n] == old(x1[..n])
  {
    hide MulAdd, Power;
    ghost var s0, low := x[..wds], x1[..n];
    ShiftFactors(s);
    var p, q := Power(2, s), Power(2, 32 - s);
    z := 0;
    var i := 0;
    while i < wds
      invariant 0 <= i <= wds && z < p
      invariant x[..wds] == s0 && x1[..n] == low
      invariant MulAdd(s0, p, 0) == x1[n..n + i] + MulAdd(s0[i..], p, z)
    {
      assert s0[i] == x[i];
      ShiftWord(x[i], p, q, z);
      MulAddStep(s0, i, p, z);
      var w := (x[i] * p) % BASE + z;
      x1[n + i] := w;
      assert x1[n..n + i + 1] == x1[n..n + i] + [w];
      z := x[i] / q;
      i := i + 1;
    }
    MulAddEnd(s0, p, z);
  }

  /** The capacity is doubled until it is large enough. */
  method RoomFor(k: nat, maxwds: nat, n1: nat) returns (k1: nat)
    requires maxwds == Power(2, k)
    ensures n1 <= Power(2, k1)
  {
    k1 := k;
    var i := maxwds;
    while n1 > i
      invariant i == Power(2, k1)
      decreases n1 - i
    {
      i := i * 2;
      k1 := k1 + 1;
    }
  }

  /** The shift by s bits over n cleared words, with the word shifted out at the top if it is not zero. */
  method LShiftInto(b: Bigint, n: nat, s: nat, b1: Bigint)
    requires b.Valid() && b.wds >= 1 && b1.Valid() && b1 != b && b1.x != b.x && 1 <= s < 32
    requires n + b.wds + 1 <= b1.x.Length && forall j | 0 <= j < n :: b1.x[j] == 0
    modifies b1, b1.x
    ensures b1.Valid() && b1.wds >= 1 && b1.Value() == Val(b.x[..b.wds]) * Power(2, 32 * n + s)
    ensures b.x[b.wds - 1] != 0 ==> b1.x[b1.wds - 1] != 0
  {
    hide Val, Power, MulAdd;
    var wds := n + b.wds;
    ghost var low, words := b1.x[..n], b.x[..b.wds];
    var z := ShiftWords(b.x, b.wds, s, b1.x, n);
    ghost var out := b1.x[n..wds];
    LShiftBits(low, words, n, s, out, z);
    b1.x[wds] := z;
    assert b1.x[..wds] == low + out;
    assert b1.x[..wds + 1] == low + (out + [z]);
    b1.wds := if z != 0 then wds + 1 else wds;
  }

  /** b * 2^k, in a new object. */
  method LShift(b: Bigint, k: nat) returns (b1: Bigint)
    requires b.Valid() && b.wds >= 1
    ensures fresh(b1) && fresh(b1.x) && b1.Valid() && b1.wds >= 1
    ensures b1.Value() == b.Value() * Power(2, k)
    ensures b.x[b.wds - 1] != 0 ==> b1.x[b1.wds - 1] != 0
  {
    hide Val, Power, MulAdd;
    var n, s := k / 32, k % 32;
    var k1 := RoomFor(b.k, b.x.Length, n + b.wds + 1);
    b1 := new Bigint(k1);
    ClearWords(b1.x, n);
    if s != 0 {
      LShiftInto(b, n, s, b1);
    } else {
      ghost var low := b1.x[..n];
      ShiftCopy(b.x, b.wds, b1.x, n);
      assert b1.x[..n + b.wds] == low + b.x[..b.wds];
      LShiftWords(low, b.x[..b.wds], n);
      b1.wds := n + b.wds;
    }
  }

  /** Value and top word of a shift by whole words and s bits. */
  lemma LShiftBits(low: seq<Word>, words: seq<Word>, n: nat, s: nat, out: seq<Word>, z: Word)
    requires |low| == n && (forall j | 0 <= j < n :: low[j] == 0) && words != [] && |out| == |words|
    requires 1 <= s < 32 && Power(2, s) < BASE && MulAdd(words, Power(2, s), 0) == out + [z]
    ensures Val(low + (out + [z])) == Val(words) * Power(2, 32 * n + s)
    ensures z == 0 ==> Val(low + out) == Val(words) * Power(2, 32 * n + s)
    ensures words[|words| - 1] != 0 && z == 0 ==> out[|out| - 1] != 0
  {
    hide Power;
    ValZeros(low);
    MulAddVal(words, Power(2, s), 0);
    MultAddDone(words, Power(2, s), 0, out, z, |words|);
    ValConcat(low, out + [z]);
    PowerSum(2, 32 * n, s);
    Pow2Words(n);
    Group(Val(words), Power(BASE, n), Power(2, s));
    if z == 0 {
      ValTrim(low + (out + [z]), n + |out|);
      assert (low + (out + [z]))[..n + |out|] == low + out;
    }
  }

  lemma LShiftWords(low: seq<Word>, words: seq<Word>, n: nat)
    requires |low| == n && (forall j | 0 <= j < n :: low[j] == 0)
    ensures Val(low + words) == Val(words) * Power(2, 32 * n)
  {
    ValZeros(low);
    ValConcat(low, words);
    Pow2Words(n);
  }

  method ShiftCopy(x: array<Word>, wds: nat, x1: array<Word>, n: nat)
    requires x != x1 && wds <= x.Length && n + wds <= x1.Length
    modifies x1
    ensures x1[n..n + wds] == x[..wds] && x1[..n] == old(x1[..n])
  {
    var i := 0;
    while i < wds
      invariant 0 <= i <= wds && x1[n..n + i] == x[..i] && x1[..n] == old(x1[..n])
    {
      x1[n + i] := x[i];
      assert x1[n..n + i + 1] == x1[n..n + i] + [x[i]];
      i := i + 1;
    }
  }

  // ----- cmp

  /** What cmp says: the number of words first, then the value. */
  function CmpWords(a: seq<Word>, b: seq<Word>): int {
    if |a| != |b| then |a| - |b| else Sign(Val(a) - Val(b))
  }

  /** On numbers without leading zero words this is the order of values - except that a zero of no words
      counts as smaller than a zero of one word. */
  lemma CmpMeaning(a: seq<Word>, b: seq<Word>)
    requires |a| > 1 ==> a[|a| - 1] != 0
    requires |b| > 1 ==> b[|b| - 1] != 0
    requires |b| >= 1
    ensures CmpWords(a, b) < 0 <==> Val(a) < Val(b) || (|a| == 0 && Val(b) == 0)
    ensures CmpWords(a, b) == 0 <==> Val(a) == Val(b) && !(|a| == 0 && Val(b) == 0)
    ensures CmpWords(a, b) > 0 <==> Val(a) > Val(b)
  {
    if |a| < |b| && |b| > 1 {
      ShorterIsLess(a, b);
    } else if |a| > |b| {
      ShorterIsLess(b, a);
    } else if |a| < |b| {
      assert a == [] && Val(b[1..]) == 0;
    }
  }

  method Cmp(a: Bigint, b: Bigint) returns (r: int)
    requires a.Valid() && b.Valid() && (a.wds >= 1 || b.wds >= 1)
    ensures r == CmpWords(a.x[..a.wds], b.x[..b.wds])
  {
    if a.wds != b.wds {
      return a.wds - b.wds;
    }
    var n := b.wds;
    var i := n;
    while i > 0
      invariant 0 <= i <= n && a.x[i..n] == b.x[i..n]
    {
      i := i - 1;
      if a.x[i] != b.x[i] {
        assert a.x[..n][i + 1..] == a.x[i + 1..n] && b.x[..n][i + 1..] == b.x[i + 1..n];
        if a.x[i] < b.x[i] {
          TopDecides(a.x[..n], b.x[..n], i);
          return -1;
        }
        TopDecides(b.x[..n], a.x[..n], i);
        return 1;
      }
    }
    assert a.x[..n] == b.x[..n];
    return 0;
  }

  // ----- subtraction loops

  /** The 64-bit difference x - u - v, wrapped. */
  function Sub64(x: Word, u: Word, v: nat): nat
    requires v <= 1
  {
    (x + TWO64 - u - v) % TWO64
  }

  lemma Sub64Words(x: Word, u: Word, v: nat)
    requires v <= 1
    ensures Sub64(x, u, v) % BASE == LowDiff(x, u + v)
    ensures (Sub64(x, u, v) / BASE) % 2 == Borrow(x, u + v)
  {
  }

  /** b - q * S over n words, in place. */
  method SubMulWords(bx: array<Word>, sx: array<Word>, n: nat, q: Word)
    requires bx != sx && n <= bx.Length && n <= sx.Length
    modifies bx
    ensures bx[..n] == SubMul(old(bx[..n]), sx[..n], q, 0, 0) && bx[n..] == old(bx[n..])
  {
    hide SubMul, Sub64;
    ghost var b0, s0 := bx[..n], sx[..n];
    var borrow, carry := 0, 0;
    var i := 0;
    while i < n
      invariant 0 <= i <= n && 0 <= borrow <= 1 && 0 <= carry < BASE
      invariant sx[..n] == s0 && bx[i..n] == b0[i..] && bx[n..] == old(bx[n..])
      invariant SubMul(b0, s0, q, 0, 0) == bx[..i] + SubMul(b0[i..], s0[i..], q, borrow, carry)
    {
      assert bx[i] == b0[i] by { assert bx[i] == bx[i..n][0]; }
      assert sx[i] == s0[i];
      SubMulStep(b0, s0, i, q, borrow, carry);
      var ys := sx[i] * q + carry;
      assert ys < TWO64;
      carry := ys / BASE;
      var y := Sub64(bx[i], ys % BASE, borrow);
      borrow := (y / BASE) % 2;
      bx[i] := y % BASE;
      assert bx[..i + 1] == bx[..i] + [y % BASE];
      i := i + 1;
    }
    SubMulEnd(b0, s0, q, borrow, carry);
  }

  lemma SubMulStep(b: seq<Word>, s: seq<Word>, i: nat, q: Word, borrow: nat, carry: Word)
    requires |b| == |s| && i < |b| && borrow <= 1
    ensures var ys := s[i] * q + carry;
      && ys < TWO64 && ys / BASE < BASE
      && var y := Sub64(b[i], ys % BASE, borrow);
      SubMul(b[i..], s[i..], q, borrow, carry)
        == [y % BASE] + SubMul(b[i + 1..], s[i + 1..], q, (y / BASE) % 2, ys / BASE)
  {
    hide Sub64;
    MulAddFits(s[i], q, carry);
    Sub64Words(b[i], (s[i] * q + carry) % BASE, borrow);
    assert b[i..][1..] == b[i + 1..] && s[i..][1..] == s[i + 1..];
  }

  lemma SubMulEnd(b: seq<Word>, s: seq<Word>, q: Word, borrow: nat, carry: Word)
    requires |b| == |s| && borrow <= 1
    ensures SubMul(b[|s|..], s[|s|..], q, borrow, carry) == []
  {
  }

  /** a - b over wa words into c, where b has wb of them. */
  method DiffWords(xa: array<Word>, wa: nat, xb: array<Word>, wb: nat, xc: array<Word>)
    requires xc != xa && xc != xb && 1 <= wb <= wa <= xa.Length && wb <= xb.Length && wa <= xc.Length
    requires Val(xb[..wb]) <= Val(xa[..wa])
    modifies xc
    ensures Val(xc[..wa]) == Val(xa[..wa]) - Val(xb[..wb])
  {
    hide SubMul, Sub64, Val;
    ghost var a0, s0 := xa[..wa], Padded(xb[..wb], wa);
    var i, borrow := DiffLow(xa, wa, xb, wb, xc);
    while i < wa
      invariant wb <= i <= wa && 0 <= borrow <= 1 && xa[..wa] == a0 && xb[..wb] == s0[..wb]
      invariant SubMul(a0, s0, 1, 0, 0) == xc[..i] + SubMul(a0[i..], s0[i..], 1, borrow, 0)
    {
      assert xa[i] == a0[i] && s0[i] == 0;
      SubMulStep(a0, s0, i, 1, borrow, 0);
      var y := Sub64(xa[i], 0, borrow);
      borrow := (y / BASE) % 2;
      xc[i] := y % BASE;
      assert xc[..i + 1] == xc[..i] + [y % BASE];
      i := i + 1;
    }
    SubMulEnd(a0, s0, 1, borrow, 0);
    SubMulExact(a0, s0, 1);
    assert xc[..wa] == SubMul(a0, s0, 1, 0, 0);
  }

  /** The words of t with zero words up to n. */
  ghost function Padded(t: seq<Word>, n: nat): (s: seq<Word>)
    requires |t| <= n
    ensures |s| == n && s[..|t|] == t && (forall j | |t| <= j < n :: s[j] == 0) && Val(s) == Val(t)
  {
    var s := t + seq(n - |t|, _ => 0);
    ValTrim(s, |t|);
    assert s[..|t|] == t;
    s
  }

  /** The first loop of diff: as long as both numbers have words. */
  method DiffLow(xa: array<Word>, wa: nat, xb: array<Word>, wb: nat, xc: array<Word>) returns (i: nat, borrow: nat)
    requires xc != xa && xc != xb && 1 <= wb <= wa <= xa.Length && wb <= xb.Length && wa <= xc.Length
    modifies xc
    ensures i == wb && borrow <= 1
    ensures var a0, s0 := xa[..wa], Padded(xb[..wb], wa);
      SubMul(a0, s0, 1, 0, 0) == xc[..wb] + SubMul(a0[wb..], s0[wb..], 1, borrow, 0)
  {
    hide SubMul, Sub64, Val;
    ghost var a0, s0 := xa[..wa], Padded(xb[..wb], wa);
    i, borrow := 0, 0;
    while i < wb
      invariant 0 <= i <= wb && 0 <= borrow <= 1 && xa[..wa] == a0 && xb[..wb] == s0[..wb]
      invariant SubMul(a0, s0, 1, 0, 0) == xc[..i] + SubMul(a0[i..], s0[i..], 1, borrow, 0)
    {
      assert xa[i] == a0[i] && xb[i] == s0[i];
      SubMulStep(a0, s0, i, 1, borrow, 0);
      var y := Sub64(xa[i], xb[i], borrow);
      borrow := (y / BASE) % 2;
      xc[i] := y % BASE;
      assert xc[..i + 1] == xc[..i] + [y % BASE];
      i := i + 1;
    }
  }

  /** |a - b|, with the sign set when a is the smaller. */
  method Diff(a0: Bigint, b0: Bigint) returns (c: Bigint)
    requires a0.Normal() && b0.Normal() && a0.wds >= 1 && b0.wds >= 1
    ensures fresh(c) && fresh(c.x) && c.Normal() && c.wds >= 1
    ensures c.sign <==> a0.Value() < b0.Value()
    ensures c.Value() == (if c.sign then b0.Value() - a0.Value() else a0.Value() - b0.Value())
  {
    hide Val;
    var a, b := a0, b0;
    CmpMeaning(a.x[..a.wds], b.x[..b.wds]);
    var i := Cmp(a, b);
    if i == 0 {
      c := new Bigint(0);
      c.wds := 1;
      c.x[0] := 0;
      ValZeros(c.x[..1]);
      return;
    }
    if i < 0 {
      a, b := b, a;
    }
    NotShorter(a.x[..a.wds], b.x[..b.wds]);
    c := new Bigint(a.k);
    c.sign := i < 0;
    DiffWords(a.x, a.wds, b.x, b.wds, c.x);
    var wa := TrimDifference(c.x, a.wds);
    c.wds := wa;
  }

  lemma NotShorter(a: seq<Word>, b: seq<Word>)
    requires Val(a) > Val(b) && (|b| > 1 ==> b[|b| - 1] != 0) && |a| >= 1
    ensures |b| <= |a|
  {
    if |a| < |b| {
      ShorterIsLess(a, b);
    }
  }

  /** The loop over zero words at the top of a difference stops, since the difference is not zero. */
  method TrimDifference(x: array<Word>, n: nat) returns (wa: nat)
    requires n <= x.Length && Val(x[..n]) > 0
    ensures 1 <= wa <= n && x[wa - 1] != 0 && Val(x[..wa]) == Val(x[..n])
  {
    hide Val;
    wa := n;
    if n == 0 {
      ValZeros(x[..n]);
    }
    while x[wa - 1] == 0
      invariant 1 <= wa <= n && Val(x[..wa]) == Val(x[..n])
      decreases wa
    {
      if wa == 1 {
        ValZeros(x[..wa]);
      }
      ValTrim(x[..wa], wa - 1);
      assert x[..wa][..wa - 1] == x[..wa - 1];
      wa := wa - 1;
    }
  }

  // ----- pow5mult and its cache

  /** (base^2)^e = base^(2e). */
  lemma {:induction false} PowerSquare(base: nat, e: nat)
    ensures Power(base * base, e) == Power(base, 2 * e)
  {
    if e > 0 {
      PowerSquare(base, e - 1);
      assert Power(base, 2 * e) == base * (base * Power(base, 2 * e - 2));
      Assoc(base, base, Power(base, 2 * e - 2));
    }
  }

  lemma PowersOf5()
    ensures Power(5, 1) == 5 && Power(5, 2) == 25 && Power(5, 3) == 125 && Power(5, 4) == 625
  {
    assert Power(5, 1) == 5 * Power(5, 0);
    assert Power(5, 2) == 5 * Power(5, 1);
    assert Power(5, 3) == 5 * Power(5, 2);
    assert Power(5, 4) == 5 * Power(5, 3);
  }

  /** (5^4)^e = 5^(4e). */
  lemma PowerOf625(e: nat)
    ensures Power(625, e) == Power(5, 4 * e)
  {
    PowerSquare(25, e);
    PowerSquare(5, 2 * e);
  }

  /** Node i of the cache holds 625^(2^i). */
  function Cached(i: nat): (v: nat)
    ensures v >= 1
  {
    Power(625, Power(2, i))
  }

  lemma CachedNext(i: nat)
    ensures Cached(i + 1) == Cached(i) * Cached(i)
  {
    PowerSum(625, Power(2, i), Power(2, i));
  }

  lemma FirstCached()
    ensures Cached(0) == 625
  {
    assert Power(2, 0) == 1 && Power(625, 1) == 625 * Power(625, 0);
  }

  /** The global list p5s, grown on demand at its end. */
  class PowerCache {
    var p5s: seq<Bigint>

    constructor ()
      ensures p5s == [] && Valid()
    {
      p5s := [];
    }

    ghost predicate Valid()
      reads this, p5s, set i | 0 <= i < |p5s| :: p5s[i].x
    {
      forall i | 0 <= i < |p5s| :: p5s[i].Normal() && p5s[i].wds >= 1 && p5s[i].Value() == Cached(i)
    }

    ghost predicate Extends(before: seq<Bigint>)
      reads this
    {
      |p5s| >= |before| && p5s[..|before|] == before
    }

    /** The object is not a node of the list. */
    ghost predicate Apart(b: Bigint)
      reads this
    {
      forall i | 0 <= i < |p5s| :: p5s[i] != b && p5s[i].x != b.x
    }

    /** The value of the node that comes next: 625, or the square of the last node. */
    method NextNode() returns (next: Bigint)
      requires Valid()
      ensures fresh(next) && fresh(next.x) && next.Normal() && next.wds >= 1 && next.Value() == Cached(|p5s|)
    {
      hide Val, Cached;
      var i := |p5s|;
      if i == 0 {
        next := new Bigint(1);
        next.x[0] := 625;
        next.wds := 1;
        OneWord(next.x[..1]);
        FirstCached();
      } else {
        CachedNext(i - 1);
        next := Mult(p5s[i - 1], p5s[i - 1]);
        NotZero(next);
      }
    }

    /** Node i of the list, added if the list ends before it. */
    method Node(i: nat) returns (p5: Bigint)
      requires Valid() && i <= |p5s|
      modifies this
      ensures Valid() && i < |p5s| && p5 == p5s[i]
      ensures Extends(old(p5s))
      ensures forall j | |old(p5s)| <= j < |p5s| :: fresh(p5s[j]) && fresh(p5s[j].x)
    {
      if i == |p5s| {
        hide Val, Cached;
        var next := NextNode();
        p5s := p5s + [next];
      }
      p5 := p5s[i];
    }

    method TimesNode(b: Bigint, j: nat) returns (c: Bigint)
      requires Valid() && j < |p5s| && b.Normal()
      ensures Valid() && Apart(c) && c.Normal() && fresh(c) && fresh(c.x)
      ensures c.Value() == b.Value() * Cached(j)
    {
      hide Val, Cached;
      c := Mult(b, p5s[j]);
    }

    /** The loop over the bits of k: b * 625^k. */
    method SquareAndMultiply(b0: Bigint, k0: nat) returns (b: Bigint)
      requires Valid() && Apart(b0) && b0.Normal() && k0 >= 1
      modifies this
      ensures Valid() && Apart(b) && b.Normal() && (b == b0 || (fresh(b) && fresh(b.x)))
      ensures b.Value() == ToGo(old(b0.Value()), Cached(0), k0)
      ensures Extends(old(p5s))
    {
      hide Val, Cached, ToGo, Valid;
      b := b0;
      var k, j := k0, 0;
      ghost var v := b.Value();
      var p5 := Node(j);
      while true
        invariant k >= 1 && Valid() && j < |p5s| && Apart(b) && b.Normal()
        invariant b == b0 || (fresh(b) && fresh(b.x))
        invariant Extends(old(p5s))
        invariant b.Value() == v
        invariant ToGo(v, Cached(j), k) == ToGo(old(b0.Value()), Cached(0), k0)
        decreases k
      {
        SquareStep(v, Cached(j), k);
        if k % 2 == 1 {
          b := TimesNode(b, j);
          v := v * Cached(j);
        }
        k := k / 2;
        if k == 0 {
          break;
        }
        CachedNext(j);
        j := j + 1;
        p5 := Node(j);
      }
    }

    /** b * 5^k. */
    method Pow5Mult(b0: Bigint, k0: nat) returns (b: Bigint)
      requires Valid() && Apart(b0) && b0.Normal() && b0.wds >= 1
      modifies this, b0, b0.x
      ensures Valid() && Apart(b) && b.Normal() && SameOrNew(b0, b)
      ensures b.Value() == old(b0.Value()) * Power(5, k0)
      ensures Extends(old(p5s))
    {
      hide Val, Cached, Power;
      b := b0;
      Pow5Split(b.Value(), k0);
      var i := k0 % 4;
      if i != 0 {
        PowersOf5();
        b := MultAdd(b, if i == 1 then 5 else if i == 2 then 25 else 125, 0);
      }
      var k := k0 / 4;
      if k != 0 {
        b := SquareAndMultiply(b, k);
      }
    }
  }

  /** What square-and-multiply with v in hand, the factor c and the exponent k comes to. */
  ghost function ToGo(v: nat, c: nat, k: nat): nat {
    v * Power(c, k)
  }

  /** The two low bits of the exponent, and the rest as a power of 625. */
  lemma Pow5Split(v: nat, k: nat)
    ensures v * Power(5, k) == ToGo(v * Power(5, k % 4), Cached(0), k / 4)
    ensures k / 4 == 0 ==> v * Power(5, k) == v * Power(5, k % 4)
    ensures v * Power(5, 0) == v
  {
    PowerSum(5, k % 4, 4 * (k / 4));
    PowerOf625(k / 4);
    assert Power(2, 0) == 1 && Cached(0) == Power(625, 1) == 625 * Power(625, 0) == 625;
    Assoc(v, Power(5, k % 4), Power(625, k / 4));
  }

  /** One bit of square-and-multiply. */
  lemma SquareStep(v: nat, c: nat, k: nat)
    requires k >= 1
    ensures k % 2 == 1 ==> ToGo(v, c, k) == ToGo(v * c, c * c, k / 2)
    ensures k % 2 == 0 ==> ToGo(v, c, k) == ToGo(v, c * c, k / 2)
    ensures k == 1 ==> ToGo(v, c, k) == v * c
  {
    PowerSquare(c, k / 2);
    if k % 2 == 1 {
      Assoc(v, c, Power(c, k - 1));
    }
  }

  lemma OneWord(s: seq<Word>)
    requires |s| == 1
    ensures Val(s) == s[0]
  {
  }

  lemma NotZero(b: Bigint)
    requires b.Valid() && b.Value() >= 1
    ensures b.wds >= 1
  {
  }

  // ----- quorem

  const TWO27: nat := 0x800_0000

  /** hi0bits: the leading zero bits of a 32-bit word. */
  method Hi0Bits(x0: Word) returns (k: nat)
    ensures x0 == 0 ==> k == 32
    ensures x0 >= 1 ==> k <= 31 && BASE / 2 <= x0 * Power(2, k) < BASE
  {
    assert Power(2, 0) == 1 && Power(2, 1) == 2 && Power(2, 2) == 4 && Power(2, 4) == 16;
    Pow2Values();
    hide Power;
    k := 0;
    var x := x0;
    if x < 0x1_0000 {
      k := 16;
      x := x * 0x1_0000;
    }
    assert x == x0 * Power(2, k);
    k, x := HalfStep(x0, x, k, 8, 0x100_0000);
    k, x := HalfStep(x0, x, k, 4, 0x1000_0000);
    k, x := HalfStep(x0, x, k, 2, 0x4000_0000);
    if x < 0x8000_0000 {
      if x < 0x4000_0000 {
        return 32;
      }
      PowerSum(2, k, 1);
      Assoc(x0, Power(2, k), 2);
      k := k + 1;
    }
  }

  /** One rung of the ladder: shift by n bits if the word stays below 2^32. */
  method HalfStep(x0: Word, x: Word, k: nat, n: nat, limit: nat) returns (k': nat, x': Word)
    requires 1 <= n <= 8 && limit * Power(2, n) == BASE && x == x0 * Power(2, k)
    ensures x' == x0 * Power(2, k') && x' % 1 == 0
    ensures k' == (if x < limit then k + n else k) && x' == (if x < limit then x * Power(2, n) else x)
  {
    k', x' := k, x;
    if x < limit {
      OneMore(Power(2, n), x, limit);
      Commute(x, Power(2, n));
      Commute(limit, Power(2, n));
      PowerSum(2, k, n);
      Assoc(x0, Power(2, k), Power(2, n));
      k', x' := k + n, x * Power(2, n);
    }
  }

  /** dshift: the shift that, on top of p2 bits, leaves four leading zero bits in the top word of b. */
  method DShift(b: Bigint, p2: nat) returns (rv: nat)
    requires b.Valid() && b.wds >= 1 && b.x[b.wds - 1] >= 1
    ensures rv < 32
    ensures forall s: seq<Word> | s != [] && s[|s| - 1] >= 1 && Val(s) == b.Value() * Power(2, p2 + rv) :: Aligned(s)
  {
    hide Val, Power, Aligned;
    var top := b.x[b.wds - 1];
    var k := Hi0Bits(top);
    rv := (k - 4 - p2) % 32;
    forall s: seq<Word> | s != [] && s[|s| - 1] >= 1 && Val(s) == b.Value() * Power(2, p2 + rv) ensures Aligned(s) {
      ShiftAligns(b.x[..b.wds], k, p2 + rv, s);
    }
  }

  /** Shifting a number whose top word has k leading zero bits by k - 4 bits, give or take whole words. */
  lemma ShiftAligns(b: seq<Word>, k: nat, t: nat, s: seq<Word>)
    requires b != [] && k <= 31 && BASE / 2 <= b[|b| - 1] * Power(2, k) < BASE
    requires (t - k + 4) % 32 == 0 && s != [] && s[|s| - 1] >= 1 && Val(s) == Val(b) * Power(2, t)
    ensures Aligned(s)
  {
    hide Val, Power;
    var n, top := |b| - 1, b[|b| - 1];
    ValTop(b);
    var unit, v := Power(BASE, n), Val(b);
    Pow2Divides(k);
    TopRange(unit, top, v, Power(2, k));
    var m := (t - k + 4) / 32;
    assert t + 4 == k + 32 * m;
    ShiftedWords(k, t, m, n);
    ScaleRange(unit, v, Power(2, k), Power(2, t), Power(BASE, m));
    AlignByValue(s, n + m);
  }

  /** Shifting by k bits and m words is shifting by the t bits and four more. */
  lemma ShiftedWords(k: nat, t: nat, m: nat, n: nat)
    requires t + 4 == k + 32 * m
    ensures 16 * Power(2, t) == Power(2, k) * Power(BASE, m)
    ensures Power(BASE, n + m) == Power(BASE, n) * Power(BASE, m)
  {
    hide Power;
    PowerSum(2, t, 4);
    PowerSum(2, k, 32 * m);
    Pow2Words(m);
    PowerSum(BASE, n, m);
    SmallPowers();
  }

  lemma Pow2Divides(k: nat)
    requires k <= 32
    ensures BASE % Power(2, k) == 0
  {
    hide Power;
    PowerSum(2, k, 32 - k);
    Pow2Values();
    var p, q := Power(2, k), Power(2, 32 - k);
    Commute(p, q);
    DivideBy(BASE, p, q);
  }

  lemma SmallPowers()
    ensures Power(2, 4) == 16 && Power(BASE, 0) == 1
  {
    assert Power(2, 4) == 2 * Power(2, 3) && Power(2, 3) == 2 * Power(2, 2);
    assert Power(2, 2) == 2 * Power(2, 1) && Power(2, 1) == 2 * Power(2, 0);
  }

  lemma TopRange(unit: nat, top: nat, v: nat, p: nat)
    requires unit * top <= v < unit * top + unit && BASE / 2 <= top * p < BASE && p >= 1 && BASE % p == 0
    ensures unit * (BASE / 2) <= v * p < unit * BASE
  {
    MulLe(unit * top, v, p, p);
    assert (unit * top) * p == unit * (top * p);
    MulLe(unit, unit, BASE / 2, top * p);
    // v + 1 <= unit * (top + 1), and (top + 1) * p <= BASE since p divides BASE
    MulLe(v + 1, unit * (top + 1), p, p);
    assert (unit * (top + 1)) * p == unit * ((top + 1) * p);
    var d := BASE / p;
    assert BASE == d * p;
    if top + 1 > d {
      MulLe(d, top, p, p);
      assert false;
    }
    MulLe(top + 1, d, p, p);
    MulLe(unit, unit, (top + 1) * p, BASE);
    assert v * p + p == (v + 1) * p;
  }

  lemma ScaleRange(unit: nat, v: nat, pk: nat, pt: nat, w: nat)
    requires unit * (BASE / 2) <= v * pk < unit * BASE && pt * 16 == pk * w && w >= 1
    ensures TWO27 * (unit * w) <= v * pt < 2 * TWO27 * (unit * w)
  {
    Assoc(v, pt, 16);
    Assoc(v, pk, w);
    ScaleUp(unit * (BASE / 2), v * pk, unit * BASE, w);
    ScaleConst(unit, BASE / 2, w);
    ScaleConst(unit, BASE, w);
  }

  lemma ScaleUp(low: nat, v: nat, high: nat, w: nat)
    requires low <= v < high && w >= 1
    ensures low * w <= v * w < high * w
  {
    MulLe(low, v, w, w);
    Commute(v, w);
    Commute(high, w);
    OneMore(w, v, high);
  }

  lemma ScaleConst(unit: nat, c: nat, w: nat)
    ensures (unit * c) * w == c * (unit * w)
  {
    Commute(unit, c);
    Assoc(c, unit, w);
  }

  /** A number in [2^27, 2^28) * BASE^m without leading zero words has m + 1 of them, and an aligned top. */
  lemma AlignByValue(s: seq<Word>, m: nat)
    requires s != [] && s[|s| - 1] >= 1
    requires TWO27 * Power(BASE, m) <= Val(s) < 2 * TWO27 * Power(BASE, m)
    ensures Aligned(s)
  {
    hide Val, Power;
    var n, top := |s| - 1, s[|s| - 1];
    ValTop(s);
    ValBound(s);
    if n < m {
      PowerMonotone(BASE, n + 1, m);
    } else if n > m {
      PowerMonotone(BASE, m + 1, n);
      PowNext(m);
      AtLeast(Power(BASE, n), top);
    }
    TopInRange(Power(BASE, n), top, Val(s[..n]), Val(s));
  }

  lemma PowNext(m: nat)
    ensures Power(BASE, m + 1) == BASE * Power(BASE, m)
  {
  }

  lemma TopInRange(p: nat, top: nat, low: nat, v: nat)
    requires v == low + p * top && low < p
    ensures TWO27 * p <= v < 2 * TWO27 * p ==> TWO27 <= top < 2 * TWO27
  {
    if top < TWO27 {
      OneMore(p, top, TWO27);
      Commute(p, TWO27);
    } else {
      MulLe(p, p, TWO27, top);
      if top >= 2 * TWO27 {
        MulLe(p, p, 2 * TWO27, top);
      }
    }
  }

  /** A top word in [2^27, 2^28) - and one digit's worth of room: b < 10 * S fits in as many words as S. */
  ghost predicate Aligned(s: seq<Word>) {
    s != [] && TWO27 <= s[|s| - 1] < 2 * TWO27
  }

  lemma FitsInDivisor(b: seq<Word>, s: seq<Word>)
    requires Aligned(s) && Val(b) < 10 * Val(s) && (|b| > 1 ==> b[|b| - 1] != 0)
    ensures |b| <= |s|
  {
    hide Val, Power;
    var n := |s| - 1;
    ValTop(s);
    PowNext(n);
    DigitRoom(Power(BASE, n), s[n], Val(s[..n]), Val(s));
    if |b| > |s| {
      ValTop(b);
      PowerMonotone(BASE, |s|, |b| - 1);
      AtLeast(Power(BASE, |b| - 1), b[|b| - 1]);
    }
  }

  lemma DigitRoom(p: nat, st: nat, sl: nat, vs: nat)
    requires vs == sl + p * st && sl < p && st < 2 * TWO27
    ensures 10 * vs < BASE * p
  {
    MulLe(p, p, st, 2 * TWO27 - 1);
    Commute(p, 2 * TWO27 - 1);
  }

  /** The guess: top word by top word, the divisor's one too large. */
  function Guess(bt: Word, st: Word): nat {
    bt / (st + 1 as nat)
  }

  /** The guess never exceeds the quotient, and falls short of it by at most one. */
  lemma GuessClose(b: seq<Word>, s: seq<Word>, q: nat)
    requires |b| == |s| && Aligned(s)
    requires q == Guess(b[|b| - 1], s[|s| - 1])
    requires Val(b) < 10 * Val(s)
    ensures Times(Val(s), q) <= Val(b) < Times(Val(s), q + 2) && q <= 9
  {
    hide Val, Power, Guess, Times;
    var n := |s| - 1;
    ValTop(b);
    ValTop(s);
    GuessRange(Power(BASE, n), b[n], s[n], Val(b[..n]), Val(s[..n]), q, Val(b), Val(s));
  }

  lemma GuessRange(p: nat, bt: Word, st: Word, bl: nat, sl: nat, q: nat, vb: nat, vs: nat)
    requires vb == bl + p * bt && vs == sl + p * st && bl < p && sl < p
    requires q == Guess(bt, st) && st >= TWO27 && vb < 10 * vs
    ensures Times(vs, q) <= vb < Times(vs, q + 2) && q <= 9
  {
    GuessLow(p, bt, st, bl, sl, q);
    GuessIsDigit(p, bt, st, bl, sl);
    DigitGuess(bt, st);
    GuessHigh(p, bt, st, bl, sl, q);
  }

  lemma GuessLow(p: nat, bt: nat, st: nat, bl: nat, sl: nat, q: nat)
    requires sl < p && q == bt / (st + 1)
    ensures (sl + p * st) * q <= bl + p * bt
  {
    assert (st + 1) * q <= bt;
    MulLe(p, p, (st + 1) * q, bt);
    MulLe(sl, p, q, q);
    assert (sl + p * st) * q == sl * q + p * (st * q) by {
      assert (p * st) * q == p * (st * q);
    }
    assert p * ((st + 1) * q) == p * (st * q) + p * q;
  }

  lemma GuessIsDigit(p: nat, bt: nat, st: nat, bl: nat, sl: nat)
    requires bl + p * bt < 10 * (sl + p * st) && sl < p
    ensures bt < 10 * (st + 1)
  {
    if bt >= 10 * (st + 1) {
      MulLe(p, p, 10 * (st + 1), bt);
      TenTimes(p, st);
    }
  }

  lemma TenTimes(p: nat, st: nat)
    ensures p * (10 * (st + 1)) == 10 * (p * st) + 10 * p
  {
  }

  lemma GuessHigh(p: nat, bt: nat, st: nat, bl: nat, sl: nat, q: nat)
    requires bl < p && q == bt / (st + 1) && st >= TWO27 && bt < 10 * (st + 1)
    ensures bl + p * bt < (sl + p * st) * (q + 2)
  {
    GuessAbove(bt, st, q);
    GuessTop(p, bt, st, q);
    MulLe(p * st, sl + p * st, q + 2, q + 2);
  }

  lemma GuessTop(p: nat, bt: nat, st: nat, q: nat)
    requires bt + 1 <= st * (q + 2)
    ensures p * bt + p <= (p * st) * (q + 2)
  {
    MulLe(p, p, bt + 1, st * (q + 2));
    Distribute(p, bt, 1);
    Assoc(p, st, q + 2);
  }

  lemma DigitGuess(bt: nat, st: nat)
    requires bt < 10 * (st + 1)
    ensures bt / (st + 1) <= 9
  {
    var q := bt / (st + 1);
    if q >= 10 {
      MulLe(10, q, st + 1, st + 1);
    }
  }

  lemma GuessAbove(bt: nat, st: nat, q: nat)
    requires q == bt / (st + 1) && st >= TWO27 && bt < 10 * (st + 1)
    ensures bt + 1 <= st * (q + 2)
  {
    DigitGuess(bt, st);
    assert bt < (st + 1) * q + (st + 1);
    Distribute(st, q, 2);
    Commute(st + 1, q);
    Distribute(q, st, 1);
    Commute(q, st);
  }

  /** Trimming after a subtraction: down to one word, or to none when there was only one. */
  method TrimRemainder(b: Bigint, n: nat)
    requires b.Valid() && n < b.x.Length
    modifies b`wds
    ensures b.Valid()
    ensures b.x[n] != 0 ==> b.wds == old(b.wds)
    ensures b.x[n] == 0 ==>
      && b.wds <= n && (n >= 1 ==> b.wds >= 1)
      && (b.wds > 1 ==> b.x[b.wds - 1] != 0) && (forall j | b.wds <= j <= n :: b.x[j] == 0)
  {
    if b.x[n] == 0 {
      var m := n;
      while m > 1 && b.x[m - 1] == 0
        invariant m <= n && (n >= 1 ==> m >= 1) && forall j | m <= j <= n :: b.x[j] == 0
      {
        m := m - 1;
      }
      b.wds := m;
    }
  }

  /** One subtraction of q * S from b, with the trim that follows it. */
  method SubtractMultiple(b: Bigint, S: Bigint, q: Word)
    requires b.Valid() && S.Valid() && b != S && b.x != S.x && b.wds == S.wds >= 1
    requires Times(S.Value(), q) <= b.Value()
    modifies b, b.x
    ensures b.Normal() && b.wds <= S.wds
    ensures b.Value() == old(b.Value()) - Times(S.Value(), q)
    ensures S.wds > 1 ==> b.wds >= 1
    ensures S.wds == 1 && b.Value() == 0 ==> b.wds == 0
  {
    hide Val, SubMul;
    var n := S.wds - 1;
    SubMulExact(b.x[..n + 1], S.x[..n + 1], q);
    hide Times;
    SubMulWords(b.x, S.x, n + 1, q);
    ghost var words := b.x[..n + 1];
    TrimRemainder(b, n);
    if b.x[n] == 0 {
      ValTrim(words, b.wds);
      assert words[..b.wds] == b.x[..b.wds];
    } else if n == 0 {
      OneWord(words);
    }
  }

  /** The digit b / S; b becomes b % S. */
  method QuoRem(b: Bigint, S: Bigint) returns (q: nat)
    requires b.Normal() && S.Normal() && b != S && b.x != S.x
    requires Aligned(S.x[..S.wds]) && b.Value() < 10 * S.Value()
    modifies b, b.x
    ensures b.Normal() && b.wds <= S.wds && q <= 9
    ensures q == old(b.Value()) / S.Value() && b.Value() == old(b.Value()) % S.Value()
    ensures b.Value() == 0 && old(b.Value()) > 0 ==> (b.wds == 0 <==> S.wds == 1)
  {
    hide Val, Aligned, Times, Guess;
    ghost var b0, s0 := b.Value(), S.Value();
    TimesSmall(s0);
    AlignedTop(S.x[..S.wds]);
    FitsInDivisor(b.x[..b.wds], S.x[..S.wds]);
    var n := S.wds;
    if b.wds < n {
      ShorterIsLess(b.x[..b.wds], S.x[..n]);
      DivideBy(b0, s0, 0);
      return 0;
    }
    q := Guess(b.x[n - 1], S.x[n - 1]);
    GuessClose(b.x[..n], S.x[..n], q);
    if q != 0 {
      SubtractMultiple(b, S, q);
    }
    q := Correct(b, S, q, b0);
  }

  /** The correction: at most one more S fits. */
  method Correct(b: Bigint, S: Bigint, q0: nat, ghost b0: nat) returns (q: nat)
    requires b.Normal() && S.Normal() && b != S && b.x != S.x && b.wds <= S.wds
    requires Aligned(S.x[..S.wds]) && q0 <= 9 && b0 < 10 * S.Value()
    requires b.Value() + Times(S.Value(), q0) == b0 && b0 < Times(S.Value(), q0 + 2)
    requires b.Value() == 0 && b0 > 0 ==> (b.wds == 0 <==> S.wds == 1)
    modifies b, b.x
    ensures b.Normal() && b.wds <= S.wds && q <= 9
    ensures q == b0 / S.Value() && b.Value() == b0 % S.Value()
    ensures b.Value() == 0 && b0 > 0 ==> (b.wds == 0 <==> S.wds == 1)
  {
    hide Val, Aligned, Times;
    ghost var s0 := S.Value();
    TimesSmall(s0);
    AlignedTop(S.x[..S.wds]);
    q := q0;
    var c := Cmp(b, S);
    CmpMeaning(b.x[..b.wds], S.x[..S.wds]);
    CorrectStep(b.Value(), s0, q0, b0);
    if c >= 0 {
      q := q + 1;
      SubtractMultiple(b, S, 1);
    }
    DivideBy(b0, s0, q);
  }

  lemma TimesSmall(s: nat)
    ensures Times(s, 0) == 0 && Times(s, 1) == s
  {
  }

  lemma CorrectStep(b: nat, s: nat, q: nat, b0: nat)
    requires b + Times(s, q) == b0 && b0 < Times(s, q + 2)
    ensures Times(s, q + 1) == Times(s, q) + s && b < 2 * s
    ensures b >= s && b0 < 10 * s ==> q + 1 <= 9
  {
    Distribute(s, q, 1);
    Distribute(s, q, 2);
    if b >= s && q >= 9 {
      MulLe(s, s, 9, q);
    }
  }

  lemma AlignedTop(s: seq<Word>)
    requires Aligned(s)
    ensures s != [] && 1 <= s[|s| - 1] < 2 * TWO27 && Val(s) >= 1
  {
    ValTop(s);
    AtLeast(Power(BASE, |s| - 1), s[|s| - 1]);
  }

  lemma DivideBy(b: nat, s: nat, q: nat)
    requires Times(s, q) <= b < Times(s, q) + s
    ensures q == b / s && b - Times(s, q) == b % s
  {
    var q' := b / s;
    assert b == s * q' + b % s;
    if q' < q {
      OneMore(s, q', q);
    } else if q < q' {
      OneMore(s, q, q');
    }
  }
}
