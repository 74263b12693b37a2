/** The digit loops of dtoa in src/dtoa.c over multiple-precision integers. */
module Dtoa {
  import opened Arith
  import opened Words
  import opened Bigints
  import D = Digits

  /** Numbers the loops work on: without leading zero words, not zero. */
  ghost predicate Positive(b: Bigint)
    reads b, b.x
  {
    b.Normal() && b.wds >= 1 && b.Value() >= 1
  }

  ghost predicate Divisor(S: Bigint)
    reads S, S.x
  {
    S.Normal() && S.wds >= 1 && Aligned(S.x[..S.wds])
  }

  ghost predicate Distinct(a: Bigint, b: Bigint) {
    a != b && a.x != b.x
  }

  /** Multiplication by ten, of a positive number. */
  method TimesTen(b: Bigint) returns (r: Bigint)
    requires Positive(b)
    modifies b, b.x
    ensures r == b || (fresh(r) && fresh(r.x))
    ensures Positive(r) && r.Value() == 10 * old(b.Value())
  {
    r := MultAdd(b, 10, 0);
  }

  /** Whether the last digit is rounded up: the doubled remainder is compared with the divisor, and an odd digit decides
      a tie. */
  method RoundUp(b: Bigint, S: Bigint, dig: nat) returns (up: bool)
    requires Positive(b) && S.Normal() && S.wds >= 1
    ensures up <==> D.RoundsUp(b.Value(), S.Value(), dig)
  {
    hide Val;
    TopNotZero(b.x[..b.wds]);
    var b2 := LShift(b, 1);
    assert Power(2, 1) == 2 * Power(2, 0) == 2;
    var j := Cmp(b2, S);
    CmpMeaning(b2.x[..b2.wds], S.x[..S.wds]);
    up := j > 0 || (j == 0 && dig % 2 == 1);
  }

  lemma TopNotZero(s: seq<Word>)
    requires s != [] && (|s| > 1 ==> s[|s| - 1] != 0) && Val(s) >= 1
    ensures s[|s| - 1] != 0
  {
    if |s| == 1 {
      OneWord(s);
    }
  }

  /** How the remainder compares with the divisor less the upper error bound; greater, if the bound is the larger. */
  method HighTest(b: Bigint, S: Bigint, mhi: Bigint) returns (j1: int)
    requires b.Normal() && S.Normal() && S.wds >= 1 && Positive(mhi)
    requires b.Value() == 0 ==> (b.wds == 0 <==> S.wds == 1)
    ensures Sign(j1) == D.HighCmp(b.Value(), S.Value(), mhi.Value(), S.wds == 1)
  {
    hide Val;
    var delta := Diff(S, mhi);
    if delta.sign {
      return 1;
    }
    j1 := Cmp(b, delta);
    CmpMeaning(b.x[..b.wds], delta.x[..delta.wds]);
    NoWords(b);
  }

  lemma NoWords(b: Bigint)
    requires b.Valid()
    ensures b.wds == 0 ==> b.Value() == 0
  {
  }

  /** The digits so far with one more, and the loop's rounding labels. */
  method RoundoffDigits(d: seq<nat>) returns (out: seq<nat>, up: bool)
    ensures (out, up) == D.Roundoff(d)
  {
    var s := |d|;
    assert d[..s] == d;
    while s > 0 && d[s - 1] == 9
      invariant 0 <= s <= |d| && D.Roundoff(d) == D.Roundoff(d[..s])
    {
      assert d[..s][..s - 1] == d[..s - 1];
      s := s - 1;
    }
    if s == 0 {
      return [1], true;
    }
    assert d[..s][..s - 1] == d[..s - 1];
    return d[..s - 1] + [d[s - 1] + 1], false;
  }

  method StripZeros(d: seq<nat>) returns (out: seq<nat>)
    requires d != [] && d[0] != 0
    ensures out == D.Strip(d)
  {
    var s := |d|;
    assert d[..s] == d;
    while d[s - 1] == 0
      invariant 1 <= s <= |d| && D.Strip(d) == D.Strip(d[..s])
      decreases s
    {
      assert d[..s][..s - 1] == d[..s - 1];
      s := s - 1;
    }
    out := d[..s];
  }

  /** The tests of one pass of the loop with error bounds, after the quotient digit was taken. */
  method TestDigit(b: Bigint, S: Bigint, mlo: Bigint, mhi: Bigint, dig: nat, closed: bool) returns (x: int)
    requires b.Normal() && S.Normal() && S.wds >= 1 && Positive(mlo) && Positive(mhi)
    requires b.Value() == 0 ==> (b.wds == 0 <==> S.wds == 1)
    ensures x == D.Last(dig, b.Value(), S.Value(), mlo.Value(), mhi.Value(), closed, S.wds == 1)
  {
    hide Val;
    var j := Cmp(b, mlo);
    CmpMeaning(b.x[..b.wds], mlo.x[..mlo.wds]);
    var j1 := HighTest(b, S, mhi);
    if j1 == 0 && closed {
      return if dig == 9 || j > 0 then dig + 1 else dig;
    }
    if j < 0 || (j == 0 && closed) {
      NoWords(b);
      ZeroIff(b.x[..b.wds], b.x[0], b.wds);
      if !b.IsZero() && j1 > 0 {
        var up := RoundUp(b, S, dig);
        return if up then dig + 1 else dig;
      }
      return dig;
    }
    return if j1 > 0 then dig + 1 else -1;
  }

  /** The end of the loop: the carry out of a 9, or the rounding of a cut-off digit string. */
  method RoundLast(digits: seq<nat>, b: Bigint, S: Bigint) returns (out: seq<nat>, up: bool)
    requires Positive(b) && S.Normal() && S.wds >= 1 && digits != [] && digits[0] != 0
    ensures (out, up) == D.Finish(D.Gen(digits, true, b.Value()), S.Value())
  {
    var dig := digits[|digits| - 1];
    var roundsUp := RoundUp(b, S, dig);
    if roundsUp {
      out, up := RoundoffDigits(digits);
    } else {
      out := StripZeros(digits);
      up := false;
    }
  }

  method RoundNine(digits: seq<nat>, x: nat, ghost s: nat) returns (out: seq<nat>, up: bool)
    ensures (out, up) == D.Finish(D.Gen(digits + [x], false, 0), s)
  {
    assert (digits + [x])[..|digits|] == digits;
    if x == 10 {
      out, up := RoundoffDigits(digits + [9]);
    } else {
      out, up := digits + [x], false;
    }
  }

  /** Digits already written, and what the loop still has to say. */
  ghost function Then(digits: seq<nat>, g: D.Gen): D.Gen {
    D.Gen(digits + g.digits, g.cut, g.rem)
  }

  lemma ThenMore(digits: seq<nat>, dig: nat, g: D.Gen)
    ensures Then(digits, Then([dig], g)) == Then(digits + [dig], g)
    ensures Then([], g) == g
  {
    assert digits + ([dig] + g.digits) == digits + [dig] + g.digits;
  }

  ghost predicate Apart(b: Bigint, S: Bigint, mlo: Bigint, mhi: Bigint) {
    && Distinct(b, S) && Distinct(mlo, S) && Distinct(mhi, S) && Distinct(b, mlo) && Distinct(b, mhi)
    && (mlo == mhi || Distinct(mlo, mhi))
  }

  /** The numbers the loop works on. */
  ghost predicate Ready(b: Bigint, S: Bigint, mlo: Bigint, mhi: Bigint)
    reads b, b.x, S, S.x, mlo, mlo.x, mhi, mhi.x
  {
    && Positive(b) && Divisor(S) && Positive(mlo) && Positive(mhi) && Apart(b, S, mlo, mhi)
    && b.Value() < 10 * S.Value()
  }

  /** What the loop makes of the numbers it holds. */
  ghost function Outcome(b: Bigint, S: Bigint, mlo: Bigint, mhi: Bigint, closed: bool, left: int): D.Gen
    requires Ready(b, S, mlo, mhi)
    reads b, b.x, S, S.x, mlo, mlo.x, mhi, mhi.x
  {
    D.Bounded(b.Value(), S.Value(), mlo.Value(), mhi.Value(), closed, S.wds == 1, left)
  }

  /** The numbers between a pass that did not stop and the next one. */
  ghost predicate Reduced(b: Bigint, S: Bigint, mlo: Bigint, mhi: Bigint)
    reads b, b.x, S, S.x, mlo, mlo.x, mhi, mhi.x
  {
    && Positive(b) && Divisor(S) && Positive(mlo) && Positive(mhi) && Apart(b, S, mlo, mhi)
    && b.Value() < S.Value()
  }

  /** What the loop will make of them. */
  ghost function Remaining(b: Bigint, S: Bigint, mlo: Bigint, mhi: Bigint, closed: bool, left: int): D.Gen
    requires Reduced(b, S, mlo, mhi)
    reads b, b.x, S, S.x, mlo, mlo.x, mhi, mhi.x
  {
    D.Bounded(10 * b.Value(), S.Value(), 10 * mlo.Value(), 10 * mhi.Value(), closed, S.wds == 1, left)
  }

  /** A pass of the loop up to its tests: the quotient digit, and the last digit if the loop stops (-1 if it
      goes on). */
  method Pass(b: Bigint, S: Bigint, mlo: Bigint, mhi: Bigint, closed: bool, ghost left: int)
    returns (dig: nat, x: int)
    requires Ready(b, S, mlo, mhi)
    modifies b, b.x
    ensures b.Valid() && S.Valid() && S.Value() == old(S.Value())
    ensures x >= 0 ==> old(Outcome(b, S, mlo, mhi, closed, left)) == D.Gen([x], false, 0)
    ensures x < 0 ==> Reduced(b, S, mlo, mhi)
    ensures x < 0 && left == 1 ==> old(Outcome(b, S, mlo, mhi, closed, left)) == D.Gen([dig], true, b.Value())
    ensures x < 0 && left != 1 ==>
      old(Outcome(b, S, mlo, mhi, closed, left)) == Then([dig], Remaining(b, S, mlo, mhi, closed, left - 1))
    ensures old(b.Value()) >= S.Value() ==> dig >= 1
  {
    hide Val, D.Bounded, D.Last, Aligned;
    D.BoundedStep(b.Value(), S.Value(), mlo.Value(), mhi.Value(), closed, S.wds == 1, left);
    dig := QuoRem(b, S);
    x := TestDigit(b, S, mlo, mhi, dig, closed);
    if x < 0 {
      NotZero(b);
    }
  }

  /** The numbers of the next pass. */
  method Advance(b0: Bigint, S: Bigint, mlo0: Bigint, mhi0: Bigint, ghost closed: bool, ghost left: int)
    returns (b: Bigint, mlo: Bigint, mhi: Bigint)
    requires Reduced(b0, S, mlo0, mhi0)
    modifies b0, b0.x, mlo0, mlo0.x, mhi0, mhi0.x
    ensures b == b0 || (fresh(b) && fresh(b.x))
    ensures mlo == mlo0 || (fresh(mlo) && fresh(mlo.x))
    ensures mhi == mhi0 || (fresh(mhi) && fresh(mhi.x))
    ensures Ready(b, S, mlo, mhi) && b.Valid() && S.Valid() && S.Value() == old(S.Value())
    ensures Outcome(b, S, mlo, mhi, closed, left) == old(Remaining(b0, S, mlo0, mhi0, closed, left))
  {
    hide Val, Aligned, D.Bounded;
    b, mlo, mhi := ScaleAll(b0, mlo0, mhi0);
  }

  lemma ReadyMeans(b: Bigint, S: Bigint, mlo: Bigint, mhi: Bigint)
    requires Ready(b, S, mlo, mhi)
    ensures b.Valid() && S.Valid()
  {
  }

  lemma ReducedMeans(b: Bigint, S: Bigint, mlo: Bigint, mhi: Bigint)
    requires Reduced(b, S, mlo, mhi)
    ensures Positive(b) && S.Normal() && S.wds >= 1
  {
  }

  /** Shortest output (no digit limit), or output with error bounds and a digit limit. */
  method BoundedDigits(b0: Bigint, S: Bigint, mlo0: Bigint, mhi0: Bigint, closed: bool, ilim: int)
    returns (out: seq<nat>, up: bool)
    requires Ready(b0, S, mlo0, mhi0) && S.Value() <= b0.Value()
    modifies b0, b0.x, mlo0, mlo0.x, mhi0, mhi0.x
    ensures (out, up) == D.Finish(old(Outcome(b0, S, mlo0, mhi0, closed, ilim)), S.Value())
  {
    hide Val, Ready, Outcome, Reduced, Remaining, Positive, Divisor, Apart, Distinct, Power, D.Finish, D.RoundsUp,
         D.Roundoff, D.Bounded;
    var b, mlo, mhi := b0, mlo0, mhi0;
    var digits: seq<nat> := [];
    var i := 1;
    ghost var whole := Outcome(b0, S, mlo0, mhi0, closed, ilim);
    ThenMore([], 0, whole);
    ReadyMeans(b, S, mlo, mhi);
    while true
      invariant b.Valid() && S.Valid() && i == |digits| + 1 && (digits != [] ==> digits[0] != 0)
      invariant Ready(b, S, mlo, mhi) && S.Value() == old(S.Value())
      invariant b == b0 || (fresh(b) && fresh(b.x))
      invariant mlo == mlo0 || (fresh(mlo) && fresh(mlo.x))
      invariant mhi == mhi0 || (fresh(mhi) && fresh(mhi.x))
      invariant digits == [] ==> b.Value() >= S.Value()
      invariant whole == Then(digits, Outcome(b, S, mlo, mhi, closed, ilim - |digits|))
      decreases |Outcome(b, S, mlo, mhi, closed, ilim - |digits|).digits|
    {
      var dig, x := Pass(b, S, mlo, mhi, closed, ilim - |digits|);
      if x >= 0 {
        out, up := RoundNine(digits, x, S.Value());
        return;
      }
      ghost var before := digits;
      digits := digits + [dig];
      if i == ilim {
        ReducedMeans(b, S, mlo, mhi);
        out, up := RoundLast(digits, b, S);
        return;
      }
      ThenMore(before, dig, Remaining(b, S, mlo, mhi, closed, ilim - |digits|));
      b, mlo, mhi := Advance(b, S, mlo, mhi, closed, ilim - |digits|);
      i := i + 1;
    }
  }

  /** The multiplications by ten between two passes; one object may hold both bounds. */
  method ScaleAll(b0: Bigint, mlo0: Bigint, mhi0: Bigint) returns (b: Bigint, mlo: Bigint, mhi: Bigint)
    requires Positive(b0) && Positive(mlo0) && Positive(mhi0)
    requires Distinct(b0, mlo0) && Distinct(b0, mhi0) && (mlo0 == mhi0 || Distinct(mlo0, mhi0))
    modifies b0, b0.x, mlo0, mlo0.x, mhi0, mhi0.x
    ensures b == b0 || (fresh(b) && fresh(b.x))
    ensures mlo == mlo0 || (fresh(mlo) && fresh(mlo.x))
    ensures mhi == mhi0 || (fresh(mhi) && fresh(mhi.x))
    ensures Distinct(b, mlo) && Distinct(b, mhi) && (mlo == mhi || Distinct(mlo, mhi))
    ensures Positive(b) && b.Value() == 10 * old(b0.Value())
    ensures Positive(mlo) && mlo.Value() == 10 * old(mlo0.Value())
    ensures Positive(mhi) && mhi.Value() == 10 * old(mhi0.Value())
  {
    hide Val;
    b := TimesTen(b0);
    if mlo0 == mhi0 {
      mhi := TimesTen(mhi0);
      mlo := mhi;
    } else {
      mlo := TimesTen(mlo0);
      mhi := TimesTen(mhi0);
    }
  }

  ghost predicate ExactReady(b: Bigint, S: Bigint)
    reads b, b.x, S, S.x
  {
    Positive(b) && Divisor(S) && Distinct(b, S) && b.Value() < 10 * S.Value()
  }

  /** A pass of the loop without error bounds: the quotient digit, and whether nothing is left. */
  method ExactPass(b: Bigint, S: Bigint, ghost left: nat) returns (dig: nat, done: bool)
    requires ExactReady(b, S) && left >= 1
    modifies b, b.x
    ensures b.Valid() && S.Valid() && S.Value() == old(S.Value()) && dig <= 9
    ensures done ==> old(D.Exact(b.Value(), S.Value(), left)) == D.Gen([dig], false, 0)
    ensures !done ==> Positive(b) && Divisor(S) && b.Value() < S.Value()
    ensures !done && left == 1 ==> old(D.Exact(b.Value(), S.Value(), left)) == D.Gen([dig], true, b.Value())
    ensures !done && left != 1 ==>
      old(D.Exact(b.Value(), S.Value(), left)) == Then([dig], D.Exact(10 * b.Value(), S.Value(), left - 1))
    ensures old(b.Value()) >= S.Value() ==> dig >= 1
  {
    hide Val, D.Exact, Aligned;
    D.ExactStep(b.Value(), S.Value(), left);
    dig := QuoRem(b, S);
    NoWords(b);
    ZeroIff(b.x[..b.wds], b.x[0], b.wds);
    done := b.IsZero();
    if !done {
      NotZero(b);
    }
  }

  /** The number of the next pass. */
  method ExactAdvance(b0: Bigint, S: Bigint) returns (b: Bigint)
    requires Positive(b0) && Divisor(S) && Distinct(b0, S) && b0.Value() < S.Value()
    modifies b0, b0.x
    ensures b == b0 || (fresh(b) && fresh(b.x))
    ensures ExactReady(b, S) && Distinct(b, S) && b.Valid() && S.Valid() && S.Value() == old(S.Value())
    ensures b.Value() == 10 * old(b0.Value())
  {
    hide Val, Aligned;
    b := TimesTen(b0);
  }

  lemma DivisorMeans(S: Bigint)
    requires Divisor(S)
    ensures S.Normal() && S.wds >= 1
  {
  }

  /** Output with a digit limit and no error bounds. */
  method ExactDigits(b0: Bigint, S: Bigint, ilim: nat) returns (out: seq<nat>, up: bool)
    requires ExactReady(b0, S) && ilim >= 1 && S.Value() <= b0.Value()
    modifies b0, b0.x
    ensures (out, up) == D.Finish(old(D.Exact(b0.Value(), S.Value(), ilim)), S.Value())
  {
    hide Val, D.Exact, D.Finish, ExactReady, Positive, Divisor, Power, D.Roundoff, D.RoundsUp;
    var b := b0;
    var digits: seq<nat> := [];
    var i := 1;
    NeedsDistinct(b, S);
    ghost var whole := D.Exact(b.Value(), S.Value(), ilim);
    ThenMore([], 0, whole);
    while true
      invariant b.Valid() && S.Valid() && b.Value() < 10 * S.Value()
      invariant 1 <= i == |digits| + 1 <= ilim && (digits != [] ==> digits[0] != 0)
      invariant ExactReady(b, S) && Distinct(b, S) && S.Value() == old(S.Value())
      invariant b == b0 || (fresh(b) && fresh(b.x))
      invariant digits == [] ==> b.Value() >= S.Value()
      invariant whole == Then(digits, D.Exact(b.Value(), S.Value(), ilim - |digits|))
      decreases ilim - i
    {
      var dig, done := ExactPass(b, S, ilim - |digits|);
      ghost var before := digits;
      digits := digits + [dig];
      if done {
        out, up := digits, false;
        NotTen(digits, dig, S.Value());
        return;
      }
      if i >= ilim {
        DivisorMeans(S);
        out, up := RoundLast(digits, b, S);
        return;
      }
      ThenMore(before, dig, D.Exact(10 * b.Value(), S.Value(), ilim - |digits|));
      b := ExactAdvance(b, S);
      i := i + 1;
    }
  }

  /** Fixed-digit output: b / S rounded to at most ilim digits, ties to even, without trailing zeros. */
  method FixedDigits(b: Bigint, S: Bigint, ilim: nat) returns (out: seq<nat>, up: bool)
    requires ExactReady(b, S) && ilim >= 1 && S.Value() <= b.Value()
    modifies b, b.x
    ensures D.RoundedTo((out, up), ilim, old(b.Value()), old(S.Value()))
  {
    hide Val, D.Exact, D.Finish, D.RoundedTo, Aligned;
    NeedsDistinct(b, S);
    D.FixedOutput(b.Value(), S.Value(), ilim);
    out, up := ExactDigits(b, S, ilim);
  }

  lemma NeedsDistinct(b: Bigint, S: Bigint)
    requires ExactReady(b, S)
    ensures Distinct(b, S) && b.Valid() && S.Valid() && b.Value() < 10 * S.Value()
  {
  }

  lemma NotTen(digits: seq<nat>, dig: nat, s: nat)
    requires digits != [] && digits[|digits| - 1] == dig <= 9
    ensures D.Finish(D.Gen(digits, false, 0), s) == (digits, false)
  {
  }

  /** A fixed format in which no digit of the number is left: labels no_digits and one_digit. */
  method FewDigits(b: Bigint, S: Bigint, ilim: int) returns (one: bool)
    requires ilim <= 0 && b.Normal() && Positive(S) && Distinct(b, S)
    modifies S, S.x
    ensures one <==> ilim == 0 && D.RoundsToTen(b.Value(), old(S.Value()))
  {
    hide Val;
    if ilim < 0 {
      return false;
    }
    var five := MultAdd(S, 5, 0);
    var c := Cmp(b, five);
    CmpMeaning(b.x[..b.wds], five.x[..five.wds]);
    one := c > 0;
  }

  // ----- what leads up to the loops

  function Shifted(v: nat, e: nat): nat {
    v * Power(2, e)
  }

  function Tenfold(lower: bool, v: nat): nat {
    if lower then 10 * v else v
  }

  function Doubled(twice: bool, v: nat): nat {
    if twice then 2 * v else v
  }

  lemma ShiftedPositive(v: nat, t: nat)
    requires v >= 1
    ensures Shifted(v, t) >= 1
  {
    AtLeast(v, Power(2, t));
  }

  /** Shifting left, when there is something to shift by. */
  method ShiftBy(b0: Bigint, t: nat) returns (b: Bigint)
    requires Positive(b0)
    ensures b == b0 || (fresh(b) && fresh(b.x))
    ensures Positive(b) && b.Value() == Shifted(b0.Value(), t)
    ensures b.x[b.wds - 1] >= 1
  {
    hide Val;
    TopNotZero(b0.x[..b0.wds]);
    ShiftedPositive(b0.Value(), t);
    b := b0;
    if t > 0 {
      b := LShift(b0, t);
    }
  }

  /** The divisor gets four leading zero bits, and the dividend the same shift more. */
  method AlignBoth(b0: Bigint, S0: Bigint, b2: nat, s2: nat) returns (b: Bigint, S: Bigint, shift: nat)
    requires Positive(b0) && Positive(S0) && Distinct(b0, S0)
    ensures b == b0 || (fresh(b) && fresh(b.x))
    ensures S == S0 || (fresh(S) && fresh(S.x))
    ensures Positive(b) && Divisor(S) && Distinct(b, S)
    ensures b.Value() == Shifted(b0.Value(), b2 + shift) && S.Value() == Shifted(S0.Value(), s2 + shift)
  {
    hide Val, Aligned;
    TopNotZero(S0.x[..S0.wds]);
    shift := DShift(S0, s2);
    b := ShiftBy(b0, b2 + shift);
    S := ShiftBy(S0, s2 + shift);
  }

  /** If the estimate of the exponent was one too high, the number is multiplied by ten, so is the error bound, where
      there is one, and the limit of digits is the one for the lower exponent. */
  method CheckEstimate(b0: Bigint, S: Bigint, mhi0: Bigint?, check: bool, ilim: int, ilim1: int)
    returns (b: Bigint, mhi: Bigint?, lower: bool, limit: int)
    requires Positive(b0) && S.Normal() && S.wds >= 1 && Distinct(b0, S)
    requires mhi0 != null ==> Positive(mhi0) && Distinct(b0, mhi0) && Distinct(mhi0, S)
    modifies b0, b0.x, mhi0, if mhi0 == null then {} else {mhi0.x}
    ensures b == b0 || (fresh(b) && fresh(b.x))
    ensures mhi == mhi0 || (fresh(mhi) && mhi != null && fresh(mhi.x))
    ensures Positive(b) && (mhi == null <==> mhi0 == null)
    ensures lower <==> check && old(b0.Value()) < S.Value()
    ensures b.Value() == Tenfold(lower, old(b0.Value())) && limit == if lower then ilim1 else ilim
    ensures mhi != null ==> Positive(mhi) && Distinct(b, mhi) && mhi.Value() == Tenfold(lower, old(mhi0.Value()))
  {
    hide Val;
    b, mhi, lower, limit := b0, mhi0, false, ilim;
    if check {
      var c := Cmp(b, S);
      CmpMeaning(b.x[..b.wds], S.x[..S.wds]);
      if c < 0 {
        lower := true;
        b := TimesTen(b);
        if mhi != null {
          mhi := TimesTen(mhi);
        }
        limit := ilim1;
      }
    }
  }

  /** The error bounds below and above: one object, or, for a power of two, the upper bound twice the lower. */
  method ErrorBounds(mhi0: Bigint, m2: nat, powerOfTwo: bool) returns (mlo: Bigint, mhi: Bigint)
    requires Positive(mhi0)
    ensures mlo == mhi0 || (fresh(mlo) && fresh(mlo.x))
    ensures mhi == mlo || (fresh(mhi) && fresh(mhi.x) && Distinct(mlo, mhi))
    ensures Positive(mlo) && Positive(mhi) && mlo.Value() == Shifted(mhi0.Value(), m2)
    ensures mhi.Value() == if powerOfTwo then 2 * mlo.Value() else mlo.Value()
  {
    hide Val;
    mlo := ShiftBy(mhi0, m2);
    mhi := mlo;
    if powerOfTwo {
      mhi := LShift(mlo, 1);
      assert Power(2, 1) == 2 * Power(2, 0) == 2;
    }
  }

  /** The same shift more for all of them is a common factor. */
  lemma CommonShift(v: nat, e: nat, shift: nat, lower: bool)
    ensures Power(2, shift) >= 1 && Shifted(v, e + shift) == Power(2, shift) * Shifted(v, e)
    ensures Tenfold(lower, Shifted(v, e + shift)) == Power(2, shift) * Tenfold(lower, Shifted(v, e))
  {
    hide Power;
    PowerSum(2, e, shift);
    Assoc(v, Power(2, e), Power(2, shift));
    Commute(Shifted(v, e), Power(2, shift));
    Group(10, Power(2, shift), Shifted(v, e));
    Commute(10, Shifted(v, e));
    Assoc(Power(2, shift), 10, Shifted(v, e));
    Assoc(10, Power(2, shift), Shifted(v, e));
    Commute(10, Power(2, shift));
  }

  /** The error bounds of the loop, in terms of those dtoa starts from. */
  lemma CommonBounds(m: nat, e: nat, shift: nat, lower: bool, twice: bool)
    ensures Shifted(Tenfold(lower, m), e + shift) == Power(2, shift) * Tenfold(lower, Shifted(m, e))
    ensures Doubled(twice, Power(2, shift) * Tenfold(lower, Shifted(m, e)))
      == Power(2, shift) * Doubled(twice, Tenfold(lower, Shifted(m, e)))
  {
    hide Power;
    CommonShift(m, e, shift, lower);
    Assoc(10, m, Power(2, e + shift));
    var w := Tenfold(lower, Shifted(m, e));
    Assoc(Power(2, shift), 2, w);
    Assoc(2, Power(2, shift), w);
    Commute(2, Power(2, shift));
  }

  /** The shortest decimal in the interval, and of those the nearest; farther only if it is a ten for a nine. Of two
      that are as near it is the even one, but for the upper end of a closed interval. */
  ghost predicate ShortestClosest(out: (seq<nat>, bool), b: nat, S: nat, mlo: nat, mhi: nat, closed: bool) {
    && D.Shortest(out, b, S, mlo, mhi, closed)
    && out.0 != [] && D.Ties(out, b, S, mlo, mhi, closed)
    && (!D.TenForNine(b, S, mlo, mhi, closed) ==> D.Closest(out, b, S, mlo, mhi, closed))
    && (D.TenForNine(b, S, mlo, mhi, closed) && b != 9 * S ==> !D.Closest(out, b, S, mlo, mhi, closed))
  }

  /** The value b 2^b2 / (S 2^s2) with error bounds of m 2^m2 in the same units, all ten times as large if the
      estimate of the exponent was too high: from the numbers that dtoa has prepared to the shortest digits. */
  method ShortestDigits(b0: Bigint, S0: Bigint, m0: Bigint, b2: nat, m2: nat, s2: nat, check: bool,
                        powerOfTwo: bool, closed: bool)
    returns (out: seq<nat>, up: bool, lower: bool)
    requires Positive(b0) && Positive(S0) && Positive(m0)
    requires Distinct(b0, S0) && Distinct(b0, m0) && Distinct(m0, S0)
    requires var b, S := Shifted(b0.Value(), b2), Shifted(S0.Value(), s2);
      b < 10 * S && if check then S <= 10 * b else S <= b
    modifies b0, b0.x, m0, m0.x
    ensures lower <==> check && Shifted(old(b0.Value()), b2) < Shifted(old(S0.Value()), s2)
    ensures var b, S, m := Tenfold(lower, Shifted(old(b0.Value()), b2)), Shifted(old(S0.Value()), s2),
                           Tenfold(lower, Shifted(old(m0.Value()), m2));
      ShortestClosest((out, up), b, S, m, Doubled(powerOfTwo, m), closed)
  {
    hide Val, Aligned, Power, ShortestClosest, D.Bounded, D.Finish, Shifted, Tenfold, Doubled;
    ghost var bv, sv, mv := b0.Value(), S0.Value(), m0.Value();
    var b, S, mlo, mhi, shift;
    b, S, mlo, mhi, lower, shift := Prepare(b0, S0, m0, b2, m2, s2, check, powerOfTwo);
    ghost var v, w, lo, hi := b.Value(), S.Value(), mlo.Value(), mhi.Value();
    ghost var oneWord := S.wds == 1;
    Prepared(bv, sv, mv, b2, m2, s2, check, powerOfTwo, shift, lower, v, w, lo, hi);
    out, up := BoundedDigits(b, S, mlo, mhi, closed, -1);
    ghost var m := Tenfold(lower, Shifted(mv, m2));
    LoopShortest((out, up), v, w, lo, hi, closed, oneWord, Power(2, shift), Tenfold(lower, Shifted(bv, b2)),
                 Shifted(sv, s2), m, Doubled(powerOfTwo, m));
  }

  lemma LoopShortest(out: (seq<nat>, bool), b: nat, S: nat, mlo: nat, mhi: nat, closed: bool, oneWord: bool, u: nat,
                     b': nat, S': nat, mlo': nat, mhi': nat)
    requires S <= b < 10 * S && 1 <= mlo <= mhi && u >= 1
    requires b == u * b' && S == u * S' && mlo == u * mlo' && mhi == u * mhi'
    requires out == D.Finish(D.Bounded(b, S, mlo, mhi, closed, oneWord, -1), S)
    ensures ShortestClosest(out, b', S', mlo', mhi', closed)
  {
    hide D.Shortest, D.Closest, D.TenForNine, D.Ties, D.Bounded, D.Finish;
    D.UnlimitedNotCut(b, S, mlo, mhi, closed, oneWord, -1);
    D.ShortestOutput(b, S, mlo, mhi, closed, oneWord, -1);
    D.ShortestScale(out, b', S', mlo', mhi', closed, u);
    D.ShortestClosest(b, S, mlo, mhi, closed, oneWord, -1);
    D.SomeDigits(out, b', S', mlo', mhi', closed);
    D.ShortestTies(b, S, mlo, mhi, closed, oneWord, -1);
    D.TiesScale(out, b', S', mlo', mhi', closed, u);
    D.ClosestScale(out, b', S', mlo', mhi', closed, u);
    Assoc(u, 9, S');
    Assoc(9, u, S');
    Commute(9, u);
    D.Ordered(u, b', 9 * S');
    D.Ordered(u, 9 * S', b');
  }

  /** The shifts and multiplications before the loop. */
  method Prepare(b0: Bigint, S0: Bigint, m0: Bigint, b2: nat, m2: nat, s2: nat, check: bool, powerOfTwo: bool)
    returns (b: Bigint, S: Bigint, mlo: Bigint, mhi: Bigint, lower: bool, shift: nat)
    requires Positive(b0) && Positive(S0) && Positive(m0)
    requires Distinct(b0, S0) && Distinct(b0, m0) && Distinct(m0, S0)
    modifies b0, b0.x, m0, m0.x
    ensures b == b0 || (fresh(b) && fresh(b.x))
    ensures mlo == m0 || (fresh(mlo) && fresh(mlo.x))
    ensures mhi == m0 || (fresh(mhi) && fresh(mhi.x))
    ensures Positive(b) && Divisor(S) && Positive(mlo) && Positive(mhi) && Apart(b, S, mlo, mhi)
    ensures lower <==> check && Shifted(old(b0.Value()), b2 + shift) < S.Value()
    ensures b.Value() == Tenfold(lower, Shifted(old(b0.Value()), b2 + shift))
    ensures S.Value() == Shifted(old(S0.Value()), s2 + shift)
    ensures mlo.Value() == Shifted(Tenfold(lower, old(m0.Value())), m2 + shift)
    ensures mhi.Value() == Doubled(powerOfTwo, mlo.Value())
  {
    hide Val, Aligned, Power, Shifted, Tenfold, Positive, Divisor;
    b, S, shift := AlignBoth(b0, S0, b2, s2);
    DivisorMeans(S);
    var m, limit;
    b, m, lower, limit := CheckEstimate(b, S, m0, check, -1, -1);
    mlo, mhi := ErrorBounds(m, m2 + shift, powerOfTwo);
  }

  /** The numbers of the loop are those it is meant to work on, times a common factor. */
  lemma Prepared(bv: nat, sv: nat, mv: nat, b2: nat, m2: nat, s2: nat, check: bool, powerOfTwo: bool, shift: nat,
                 lower: bool, b: nat, S: nat, mlo: nat, mhi: nat)
    requires Shifted(bv, b2) < 10 * Shifted(sv, s2)
    requires if check then Shifted(sv, s2) <= 10 * Shifted(bv, b2) else Shifted(sv, s2) <= Shifted(bv, b2)
    requires lower <==> check && Shifted(bv, b2 + shift) < S
    requires b == Tenfold(lower, Shifted(bv, b2 + shift)) && S == Shifted(sv, s2 + shift)
    requires mlo == Shifted(Tenfold(lower, mv), m2 + shift) && mhi == Doubled(powerOfTwo, mlo)
    ensures lower <==> check && Shifted(bv, b2) < Shifted(sv, s2)
    ensures var u, m := Power(2, shift), Tenfold(lower, Shifted(mv, m2));
      && u >= 1 && b == u * Tenfold(lower, Shifted(bv, b2)) && S == u * Shifted(sv, s2)
      && mlo == u * m && mhi == u * Doubled(powerOfTwo, m)
    ensures S <= b < 10 * S && mlo <= mhi
  {
    hide Power, Shifted;
    CommonShift(bv, b2, shift, false);
    CommonShift(sv, s2, shift, false);
    CommonOrder(Power(2, shift), Shifted(bv, b2), Shifted(sv, s2));
    CommonShift(bv, b2, shift, lower);
    CommonBounds(mv, m2, shift, lower, powerOfTwo);
    InRange(Power(2, shift), Shifted(bv, b2), Shifted(sv, s2), lower);
  }

  lemma CommonOrder(u: nat, b: nat, S: nat)
    requires u >= 1
    ensures u * b < u * S <==> b < S
  {
    D.Ordered(u, S, b);
  }

  lemma InRange(u: nat, b: nat, S: nat, lower: bool)
    requires u >= 1 && b < 10 * S && (if lower then b < S <= 10 * b else S <= b)
    ensures u * S <= u * Tenfold(lower, b) < 10 * (u * S)
  {
    var t := Tenfold(lower, b);
    D.Ordered(u, S, t);
    D.Ordered(u, 10 * S, t);
    Group(10, u, S);
    Assoc(u, 10, S);
    Commute(u, 10);
    Assoc(10, u, S);
  }

  // ----- fixed formats from the prepared numbers

  /** Output without error bounds, from the numbers that dtoa has prepared: b 2^b2 / (S 2^s2), ten times as large if
      the estimate of the exponent was too high, rounded to so many digits, ties to even. Where no digit is left of
      it, it rounds to a one in the next place, or to no digits. */
  method FixedFormat(b0: Bigint, S0: Bigint, b2: nat, s2: nat, check: bool, ilim: int, ilim1: int)
    returns (out: seq<nat>, up: bool, lower: bool)
    requires Positive(b0) && Positive(S0) && Distinct(b0, S0)
    requires var b, S := Shifted(b0.Value(), b2), Shifted(S0.Value(), s2);
      b < 10 * S && if check then S <= 10 * b else S <= b
    modifies b0, b0.x, S0, S0.x
    ensures lower <==> check && Shifted(old(b0.Value()), b2) < Shifted(old(S0.Value()), s2)
    ensures var b, S, limit := Tenfold(lower, Shifted(old(b0.Value()), b2)), Shifted(old(S0.Value()), s2),
                               if lower then ilim1 else ilim;
      if limit >= 1 then D.RoundedTo((out, up), limit, b, S)
      else (out, up) == if limit == 0 && D.RoundsToTen(b, S) then ([1], true) else ([], false)
  {
    hide Val, Aligned, Power, D.RoundedTo, D.RoundsToTen, Shifted, Tenfold;
    ghost var bv, sv := b0.Value(), S0.Value();
    var b, S, shift := AlignBoth(b0, S0, b2, s2);
    var none, limit;
    DivisorMeans(S);
    b, none, lower, limit := CheckEstimate(b, S, null, check, ilim, ilim1);
    Prepared(bv, sv, 1, b2, 0, s2, check, false, shift, lower, b.Value(), S.Value(), Shifted(Tenfold(lower, 1), shift),
             Doubled(false, Shifted(Tenfold(lower, 1), shift)));
    if limit >= 1 {
      ghost var v, w := b.Value(), S.Value();
      out, up := FixedDigits(b, S, limit);
      D.RoundedToScale((out, up), limit, Tenfold(lower, Shifted(bv, b2)), Shifted(sv, s2), Power(2, shift));
    } else {
      D.RoundsToTenScale(Tenfold(lower, Shifted(bv, b2)), Shifted(sv, s2), Power(2, shift));
      var one := FewDigits(b, S, limit);
      out, up := if one then [1] else [], one;
    }
  }
}
