/** Decimal digit generation of dtoa in src/dtoa.c, on numbers: what the digit loops produce, and what the
    decimal they produce means.

    The value to print is b / S with S <= b < 10 * S; decimals are read as N / T with T a power of ten. */
module Digits {
  import opened Arith

  /** The number a digit string denotes. */
  function Number(d: seq<nat>): nat {
    if d == [] then 0 else 10 * Number(d[..|d| - 1]) + d[|d| - 1]
  }

  lemma {:induction false} NumberCons(x: nat, d: seq<nat>)
    ensures Number([x] + d) == x * Power(10, |d|) + Number(d)
  {
    var s := [x] + d;
    if d == [] {
      assert s[..0] == [];
    } else {
      NumberCons(x, d[..|d| - 1]);
      assert s[..|s| - 1] == [x] + d[..|d| - 1];
      assert 10 * (x * Power(10, |d| - 1)) == x * (10 * Power(10, |d| - 1));
    }
  }

  // ----- the digit loops

  /** The digits produced, and the remainder in hand if they were cut off at the digit limit. The last digit
      may be 10: a 9 that was rounded up. */
  datatype Gen = Gen(digits: seq<nat>, cut: bool, rem: nat)

  predicate RoundsUp(r: nat, S: nat, dig: nat) {
    2 * r > S || (2 * r == S && dig % 2 == 1)
  }

  /** j1, the comparison of the remainder with S - mhi. When all three have one word, a zero remainder has no
      word at all and counts as smaller than a zero difference. */
  function HighCmp(r: nat, S: nat, mhi: nat, oneWord: bool): int {
    if mhi > S then 1
    else if r == 0 && mhi == S && oneWord then -1
    else Sign(r - (S - mhi))
  }

  /** The last digit, if the loop stops here with quotient digit `dig` and remainder r; -1 if it goes on. */
  function Last(dig: nat, r: nat, S: nat, mlo: nat, mhi: nat, closed: bool, oneWord: bool): (x: int)
    ensures x >= -1
  {
    var j, j1 := Sign(r - mlo), HighCmp(r, S, mhi, oneWord);
    if j1 == 0 && closed then
      if dig == 9 || j > 0 then dig + 1 else dig
    else if j < 0 || (j == 0 && closed) then
      if r != 0 && j1 > 0 && RoundsUp(r, S, dig) then dig + 1 else dig
    else if j1 > 0 then dig + 1
    else -1
  }

  /** The loop with error bounds: stop at the first digit string that is close enough from below or above, or
      at the digit limit. */
  function Bounded(b: nat, S: nat, mlo: nat, mhi: nat, closed: bool, oneWord: bool, left: int): (g: Gen)
    requires b < 10 * S && mlo >= 1 && mhi >= 1
    ensures |g.digits| >= 1
    decreases if mlo <= S then S - mlo + 1 else 0
  {
    var dig, r := b / S, b % S;
    var x := Last(dig, r, S, mlo, mhi, closed, oneWord);
    if x >= 0 then Gen([x], false, 0)
    else if left == 1 then Gen([dig], true, r)
    else
      var g := Bounded(10 * r, S, 10 * mlo, 10 * mhi, closed, oneWord, left - 1);
      Gen([dig] + g.digits, g.cut, g.rem)
  }

  /** The loop without error bounds: stop when nothing remains, or at the digit limit. */
  function Exact(b: nat, S: nat, left: nat): (g: Gen)
    requires b < 10 * S
    ensures 1 <= |g.digits| && (left >= 1 ==> |g.digits| <= left)
    decreases left
  {
    var dig, r := b / S, b % S;
    if r == 0 then Gen([dig], false, 0)
    else if left <= 1 then Gen([dig], true, r)
    else
      var g := Exact(10 * r, S, left - 1);
      Gen([dig] + g.digits, g.cut, g.rem)
  }

  /** Label roundoff: add one unit in the last place; trailing nines go, and all nines become a one, one place
      up. */
  function Roundoff(d: seq<nat>): (seq<nat>, bool) {
    if d == [] then ([1], true)
    else if d[|d| - 1] == 9 then Roundoff(d[..|d| - 1])
    else (d[..|d| - 1] + [d[|d| - 1] + 1], false)
  }

  function Strip(d: seq<nat>): seq<nat> {
    if d == [] || d[|d| - 1] != 0 then d else Strip(d[..|d| - 1])
  }

  /** The end of dtoa: the digits, and whether the exponent went up. */
  function Finish(g: Gen, S: nat): (seq<nat>, bool)
    requires g.digits != []
  {
    var n := |g.digits| - 1;
    if !g.cut then
      if g.digits[n] == 10 then Roundoff(g.digits[..n] + [9]) else (g.digits, false)
    else if RoundsUp(g.rem, S, g.digits[n]) then Roundoff(g.digits)
    else (Strip(g.digits), false)
  }

  // ----- the rounding interval

  /** N / T lies in the interval (b - mlo) / S .. (b + mhi) / S. */
  ghost predicate Inside(N: int, T: nat, b: nat, S: nat, mlo: nat, mhi: nat, closed: bool) {
    var d := N * S - b * T;
    if closed then -(mlo * T) <= d <= mhi * T else -(mlo * T) < d < mhi * T
  }

  /** Taking off the first digit: the rest of the decimal relates to ten times the remainder as the whole
      relates to b. */
  lemma InsideRest(dig: nat, r: nat, N: int, T: nat, S: nat, mlo: nat, mhi: nat, closed: bool)
    ensures Inside(dig * (10 * T) + N, 10 * T, S * dig + r, S, mlo, mhi, closed)
        <==> Inside(N, T, 10 * r, S, 10 * mlo, 10 * mhi, closed)
  {
    assert (dig * (10 * T) + N) * S == dig * (10 * T) * S + N * S;
    assert (S * dig + r) * (10 * T) == S * dig * (10 * T) + r * (10 * T);
    assert dig * (10 * T) * S == S * dig * (10 * T);
    assert r * (10 * T) == (10 * r) * T;
    assert mlo * (10 * T) == (10 * mlo) * T && mhi * (10 * T) == (10 * mhi) * T;
  }

  /** The conditions under which the loop goes on. */
  predicate GoesOn(r: nat, S: nat, mlo: nat, mhi: nat, closed: bool) {
    if closed then r > mlo && r + mhi < S else r >= mlo && r + mhi <= S
  }

  /** One unfolding of the loop. */
  lemma BoundedStep(b: nat, S: nat, mlo: nat, mhi: nat, closed: bool, oneWord: bool, left: int)
    requires b < 10 * S && mlo >= 1 && mhi >= 1
    ensures var dig, r := b / S, b % S; var x := Last(dig, r, S, mlo, mhi, closed, oneWord);
      && (b >= S ==> dig >= 1)
      && (x < 0 ==> r >= 1)
      && Bounded(b, S, mlo, mhi, closed, oneWord, left) ==
         if x >= 0 then Gen([x], false, 0)
         else if left == 1 then Gen([dig], true, r)
         else
           var g := Bounded(10 * r, S, 10 * mlo, 10 * mhi, closed, oneWord, left - 1);
           Gen([dig] + g.digits, g.cut, g.rem)
  {
  }

  lemma ExactStep(b: nat, S: nat, left: nat)
    requires b < 10 * S
    ensures var dig, r := b / S, b % S;
      && (b >= S ==> dig >= 1)
      && Exact(b, S, left) ==
         if r == 0 then Gen([dig], false, 0)
         else if left <= 1 then Gen([dig], true, r)
         else
           var g := Exact(10 * r, S, left - 1);
           Gen([dig] + g.digits, g.cut, g.rem)
  {
  }

  lemma StepCases(b: nat, S: nat, mlo: nat, mhi: nat, closed: bool, oneWord: bool, left: int)
    requires b < 10 * S && mlo >= 1 && mhi >= 1
    ensures var g := Bounded(b, S, mlo, mhi, closed, oneWord, left); var dig, r := b / S, b % S;
      && (|g.digits| > 1 || g.cut ==> GoesOn(r, S, mlo, mhi, closed) && g.digits[0] == dig)
      && (|g.digits| > 1 ==>
            g == (var h := Bounded(10 * r, S, 10 * mlo, 10 * mhi, closed, oneWord, left - 1);
                  Gen([dig] + h.digits, h.cut, h.rem)))
      && (|g.digits| == 1 && g.cut ==> g.rem == r && left == 1)
      && (|g.digits| == 1 && !g.cut ==> LastDigit(g.digits[0], dig, r, S, mlo, mhi, closed))
  {
  }

  /** A last digit is the quotient digit when that is close enough from below, or one more when that is close
      enough from above. */
  predicate LastDigit(x: nat, dig: nat, r: nat, S: nat, mlo: nat, mhi: nat, closed: bool) {
    || (x == dig && (if closed then r <= mlo else r < mlo))
    || (x == dig + 1 && (if closed then S <= r + mhi else S < r + mhi))
  }

  // ----- shortest output

  /** The digits found denote a decimal inside the interval; if they were cut off, they are the value
      truncated to as many digits as were asked for. */
  lemma {:induction false} BoundedValue(b: nat, S: nat, mlo: nat, mhi: nat, closed: bool, oneWord: bool, left: int)
    requires b < 10 * S && mlo >= 1 && mhi >= 1
    ensures var g := Bounded(b, S, mlo, mhi, closed, oneWord, left); var n := |g.digits| - 1;
      && (!g.cut ==> Inside(Number(g.digits), Power(10, n), b, S, mlo, mhi, closed))
      && (g.cut ==> Truncated(Number(g.digits), Power(10, n), b, S, g.rem) && n + 1 == left)
    decreases |Bounded(b, S, mlo, mhi, closed, oneWord, left).digits|
  {
    hide Bounded, Inside, Number, Truncated, Power;
    var g := Bounded(b, S, mlo, mhi, closed, oneWord, left);
    var dig, r := b / S, b % S;
    StepCases(b, S, mlo, mhi, closed, oneWord, left);
    if |g.digits| == 1 {
      OneDigit(g.digits, dig, r, b, S, mlo, mhi, closed);
    } else {
      var h := Bounded(10 * r, S, 10 * mlo, 10 * mhi, closed, oneWord, left - 1);
      BoundedValue(10 * r, S, 10 * mlo, 10 * mhi, closed, oneWord, left - 1);
      NumberCons(dig, h.digits);
      TenNext(|h.digits| - 1);
      InsideRest(dig, r, Number(h.digits), Power(10, |h.digits| - 1), S, mlo, mhi, closed);
      if h.cut {
        CutRest(dig, r, Number(h.digits), Power(10, |h.digits| - 1), S, h.rem);
      }
    }
  }

  lemma OneDigit(d: seq<nat>, dig: nat, r: nat, b: nat, S: nat, mlo: nat, mhi: nat, closed: bool)
    requires |d| == 1 && b == S * dig + r && r < S && (closed || (mlo >= 1 && mhi >= 1))
    ensures LastDigit(d[0], dig, r, S, mlo, mhi, closed) ==> Inside(Number(d), Power(10, 0), b, S, mlo, mhi, closed)
    ensures d[0] == dig ==> Truncated(Number(d), Power(10, 0), b, S, r)
  {
    assert d[..0] == [] && Number(d) == d[0];
    assert Power(10, 0) == 1;
    hide Number, Power;
    OneDigitAt(d[0], dig, r, b, S, mlo, mhi, closed);
  }

  lemma OneDigitAt(x: nat, dig: nat, r: nat, b: nat, S: nat, mlo: nat, mhi: nat, closed: bool)
    requires b == S * dig + r && r < S && (closed || (mlo >= 1 && mhi >= 1))
    ensures LastDigit(x, dig, r, S, mlo, mhi, closed) ==> Inside(x, 1, b, S, mlo, mhi, closed)
    ensures x == dig ==> x * S + r == b
  {
    Commute(dig, S);
    if x == dig + 1 {
      Commute(x, S);
      Distribute(S, dig, 1);
    }
  }

  /** N / T is b / S cut off, with rem / S units left over. */
  ghost predicate Truncated(N: nat, T: nat, b: nat, S: nat, rem: nat) {
    N * S + rem == b * T && rem < S
  }

  lemma CutRest(dig: nat, r: nat, N: nat, T: nat, S: nat, rem: nat)
    requires Truncated(N, T, 10 * r, S, rem)
    ensures Truncated(dig * (10 * T) + N, 10 * T, S * dig + r, S, rem)
  {
    assert (dig * (10 * T) + N) * S == dig * (10 * T) * S + N * S;
    assert (S * dig + r) * (10 * T) == S * dig * (10 * T) + r * (10 * T);
    assert dig * (10 * T) * S == S * dig * (10 * T);
    assert r * (10 * T) == (10 * r) * T;
  }

  /** No decimal with fewer places lies in the interval. */
  lemma {:induction false} FewerPlacesMiss(b: nat, S: nat, mlo: nat, mhi: nat, closed: bool, oneWord: bool, left: int,
                                           m: nat, N: int)
    requires b < 10 * S && mlo >= 1 && mhi >= 1
    requires m + 1 < |Bounded(b, S, mlo, mhi, closed, oneWord, left).digits|
    ensures !Inside(N, Power(10, m), b, S, mlo, mhi, closed)
    decreases m
  {
    hide Bounded, Inside;
    var dig, r := b / S, b % S;
    StepCases(b, S, mlo, mhi, closed, oneWord, left);
    if m == 0 {
      NoInteger(N, dig, r, b, S, mlo, mhi, closed);
    } else {
      FewerPlacesMiss(10 * r, S, 10 * mlo, 10 * mhi, closed, oneWord, left - 1, m - 1, N - dig * Power(10, m));
      InsideRest(dig, r, N - dig * Power(10, m), Power(10, m - 1), S, mlo, mhi, closed);
    }
  }

  lemma NoInteger(N: int, dig: nat, r: nat, b: nat, S: nat, mlo: nat, mhi: nat, closed: bool)
    requires b == S * dig + r && r < S && GoesOn(r, S, mlo, mhi, closed)
    ensures !Inside(N, Power(10, 0), b, S, mlo, mhi, closed)
  {
    var k := N - dig;
    assert N * S == S * dig + k * S;
    assert Power(10, 0) == 1;
    assert b * 1 == b && mlo * 1 == mlo && mhi * 1 == mhi;
    Multiples(k, S);
  }

  lemma Multiples(k: int, S: nat)
    ensures if k <= 0 then k * S <= 0 else k * S >= S
  {
  }

  /** After a digit that did not stop the loop, no digit is a 9 rounded up. */
  lemma {:induction false} DigitsInRange(b: nat, S: nat, mlo: nat, mhi: nat, closed: bool, oneWord: bool, left: int)
    requires b < 10 * S && mlo >= 1 && mhi >= 1
    ensures var d := Bounded(b, S, mlo, mhi, closed, oneWord, left).digits;
      && (forall i | 0 <= i < |d| :: d[i] <= 10)
      && (forall i | 0 < i < |d| :: d[i] <= 9)
      && ((|d| > 1 || (if closed then b + mhi < 10 * S else b + mhi <= 10 * S)) ==> d[0] <= 9)
      && (b >= S ==> d[0] >= 1)
    decreases |Bounded(b, S, mlo, mhi, closed, oneWord, left).digits|
  {
    hide Bounded;
    var d := Bounded(b, S, mlo, mhi, closed, oneWord, left).digits;
    var dig, r := b / S, b % S;
    StepCases(b, S, mlo, mhi, closed, oneWord, left);
    FirstDigit(b, S);
    if |d| > 1 {
      DigitsInRange(10 * r, S, 10 * mlo, 10 * mhi, closed, oneWord, left - 1);
      assert d[1..] == Bounded(10 * r, S, 10 * mlo, 10 * mhi, closed, oneWord, left - 1).digits;
      assert forall i | 0 < i < |d| :: d[i] == d[1..][i - 1];
    } else if d[0] == 10 {
      assert dig == 9;
    }
  }

  lemma FirstDigit(b: nat, S: nat)
    requires b < 10 * S
    ensures b / S <= 9 && (b >= S ==> b / S >= 1) && b == S * (b / S) + b % S
  {
  }

  /** Removing common factors of a decimal does not move it. */
  lemma InsideScaled(N: nat, T: nat, k: nat, b: nat, S: nat, mlo: nat, mhi: nat, closed: bool)
    requires k >= 1 && Inside(N * k, T * k, b, S, mlo, mhi, closed)
    ensures Inside(N, T, b, S, mlo, mhi, closed)
  {
    var d := N * S - b * T;
    assert (N * k) * S == (N * S) * k && b * (T * k) == (b * T) * k;
    assert (N * k) * S - b * (T * k) == d * k;
    assert mlo * (T * k) == (mlo * T) * k && mhi * (T * k) == (mhi * T) * k;
    CancelLow(d, mlo * T, k);
    CancelHigh(d, mhi * T, k);
  }

  lemma CancelLow(d: int, m: int, k: int)
    requires k >= 1
    ensures -(m * k) <= d * k ==> -m <= d
    ensures -(m * k) < d * k ==> -m < d
  {
    assert (d + m) * k == d * k + m * k;
    Cancel(d + m, k);
  }

  lemma CancelHigh(d: int, m: int, k: int)
    requires k >= 1
    ensures d * k <= m * k ==> d <= m
    ensures d * k < m * k ==> d < m
  {
    assert (m - d) * k == m * k - d * k;
    Cancel(m - d, k);
  }

  lemma Cancel(e: int, k: int)
    requires k >= 1
    ensures (e * k >= 0 ==> e >= 0) && (e * k > 0 ==> e > 0)
  {
    if e < 0 {
      assert e * k <= -1 * k;
    }
  }

  /** A decimal below one and inside the interval leaves one itself inside, since the value is at least one. */
  lemma OneInside(c: nat, T: nat, b: nat, S: nat, mlo: nat, mhi: nat, closed: bool)
    requires S <= b && c <= T && T >= 1 && mhi >= 1 && Inside(c, T, b, S, mlo, mhi, closed)
    ensures Inside(T, T, b, S, mlo, mhi, closed)
  {
    assert c * S <= T * S;
    assert T * S <= b * T by {
      assert T * S <= T * b;
    }
    assert mhi * T >= 1 by {
      assert mhi * T >= 1 * T;
    }
  }

  /** A decimal in lowest powers of ten: an integer, or a numerator over the power of its places. */
  lemma Lowest(c: nat, q: nat, p: nat, b: nat, S: nat, mlo: nat, mhi: nat, closed: bool)
    requires Inside(c * Power(10, q), Power(10, p), b, S, mlo, mhi, closed)
    ensures q >= p ==> Inside(c * Power(10, q - p), Power(10, 0), b, S, mlo, mhi, closed)
    ensures q < p ==> Inside(c, Power(10, p - q), b, S, mlo, mhi, closed)
  {
    hide Inside, Power;
    NumberNil();
    if q >= p {
      PowerSum(10, q - p, p);
      Assoc(c, Power(10, q - p), Power(10, p));
      InsideScaled(c * Power(10, q - p), 1, Power(10, p), b, S, mlo, mhi, closed);
    } else {
      PowerSum(10, p - q, q);
      InsideScaled(c, Power(10, p - q), Power(10, q), b, S, mlo, mhi, closed);
    }
  }

  /** No decimal c * 10^q / 10^p with fewer significant digits than the output lies in the interval. */
  lemma ShorterDecimalsMiss(b: nat, S: nat, mlo: nat, mhi: nat, closed: bool, oneWord: bool, left: int,
                            c: nat, q: nat, p: nat)
    requires S <= b < 10 * S && mlo >= 1 && mhi >= 1
    requires 1 <= c < Power(10, |Bounded(b, S, mlo, mhi, closed, oneWord, left).digits| - 1)
    ensures !Inside(c * Power(10, q), Power(10, p), b, S, mlo, mhi, closed)
  {
    hide Bounded, Inside, Power;
    var n := |Bounded(b, S, mlo, mhi, closed, oneWord, left).digits|;
    NumberNil();
    if Inside(c * Power(10, q), Power(10, p), b, S, mlo, mhi, closed) {
      Lowest(c, q, p, b, S, mlo, mhi, closed);
      if q >= p {
        FewerPlacesMiss(b, S, mlo, mhi, closed, oneWord, left, 0, c * Power(10, q - p));
      } else if p - q + 1 < n {
        FewerPlacesMiss(b, S, mlo, mhi, closed, oneWord, left, p - q, c);
      } else {
        PowerMonotone(10, n - 1, p - q);
        OneInside(c, Power(10, p - q), b, S, mlo, mhi, closed);
        InsideScaled(1, 1, Power(10, p - q), b, S, mlo, mhi, closed);
        FewerPlacesMiss(b, S, mlo, mhi, closed, oneWord, left, 0, 1);
      }
    }
  }

  /** The decimal that is printed, as a numerator over the power of ten of its places: a raised exponent is a
      factor of ten. */
  function Printed(out: (seq<nat>, bool)): nat {
    Number(out.0) * (if out.1 then 10 else 1)
  }

  predicate IsDigits(d: seq<nat>) {
    d != [] && d[0] >= 1 && forall i | 0 <= i < |d| :: d[i] <= 9
  }

  /** The digits of a decimal inside the rounding interval, such that no decimal with fewer significant digits
      lies in it. */
  ghost predicate Shortest(out: (seq<nat>, bool), b: nat, S: nat, mlo: nat, mhi: nat, closed: bool) {
    && IsDigits(out.0)
    && Inside(Printed(out), Power(10, |out.0| - 1), b, S, mlo, mhi, closed)
    && (forall c: nat, q: nat, p: nat | 1 <= c < Power(10, |out.0| - 1) ::
          !Inside(c * Power(10, q), Power(10, p), b, S, mlo, mhi, closed))
  }

  /** Only the proportions matter. */
  lemma InsideScale(N: nat, T: nat, b: nat, S: nat, mlo: nat, mhi: nat, closed: bool, u: nat)
    requires u >= 1
    ensures Inside(N, T, u * b, u * S, u * mlo, u * mhi, closed) <==> Inside(N, T, b, S, mlo, mhi, closed)
  {
    Group(N, u, S);
    Commute(N, u * S);
    assert N * (u * S) == u * (N * S);
    Assoc(u, b, T);
    Assoc(u, mlo, T);
    Assoc(u, mhi, T);
    Scaled(u, N * S, b * T, mlo * T, mhi * T);
  }

  lemma Scaled(u: nat, n: nat, m: nat, lo: nat, hi: nat)
    requires u >= 1
    ensures u * n - u * m <= u * hi <==> n - m <= hi
    ensures u * n - u * m < u * hi <==> n - m < hi
    ensures -(u * lo) <= u * n - u * m <==> m <= n + lo
    ensures -(u * lo) < u * n - u * m <==> m < n + lo
  {
    Ordered(u, n, m + hi);
    Ordered(u, m, n + lo);
    Distribute(u, m, hi);
    Distribute(u, n, lo);
  }

  lemma Ordered(u: nat, x: nat, y: nat)
    requires u >= 1
    ensures u * x <= u * y <==> x <= y
  {
    if x <= y {
      MulLe(u, u, x, y);
    } else {
      OneMore(u, y, x);
    }
  }

  lemma ShortestScale(out: (seq<nat>, bool), b: nat, S: nat, mlo: nat, mhi: nat, closed: bool, u: nat)
    requires u >= 1 && Shortest(out, u * b, u * S, u * mlo, u * mhi, closed)
    ensures Shortest(out, b, S, mlo, mhi, closed)
  {
    hide Inside, Printed, Power;
    InsideScale(Printed(out), Power(10, |out.0| - 1), b, S, mlo, mhi, closed, u);
    forall c: nat, q: nat, p: nat | 1 <= c < Power(10, |out.0| - 1)
      ensures !Inside(c * Power(10, q), Power(10, p), b, S, mlo, mhi, closed)
    {
      InsideScale(c * Power(10, q), Power(10, p), b, S, mlo, mhi, closed, u);
    }
  }

  /** Shortest output is what the loop with error bounds produces when nothing cuts it off. */
  lemma ShortestOutput(b: nat, S: nat, mlo: nat, mhi: nat, closed: bool, oneWord: bool, left: int)
    requires S <= b < 10 * S && mlo >= 1 && mhi >= 1
    requires !Bounded(b, S, mlo, mhi, closed, oneWord, left).cut
    ensures Shortest(Finish(Bounded(b, S, mlo, mhi, closed, oneWord, left), S), b, S, mlo, mhi, closed)
  {
    hide Bounded, Inside, Number, Power;
    var g := Bounded(b, S, mlo, mhi, closed, oneWord, left);
    BoundedValue(b, S, mlo, mhi, closed, oneWord, left);
    DigitsInRange(b, S, mlo, mhi, closed, oneWord, left);
    var out := Finish(g, S);
    if g.digits[|g.digits| - 1] == 10 {
      TenOutput(g);
    }
    forall c: nat, q: nat, p: nat | 1 <= c < Power(10, |out.0| - 1)
      ensures !Inside(c * Power(10, q), Power(10, p), b, S, mlo, mhi, closed)
    {
      ShorterDecimalsMiss(b, S, mlo, mhi, closed, oneWord, left, c, q, p);
    }
  }

  lemma TenOutput(g: Gen)
    requires g.digits == [10] && !g.cut
    ensures forall S: nat :: Finish(g, S) == ([1], true)
    ensures Printed(([1], true)) == Number([10])
  {
    assert g.digits[..0] + [9] == [9];
    assert Roundoff([9]) == Roundoff([9][..0]);
    assert [10][..0] == [] && [1][..0] == [];
  }

  // ----- nearest among the shortest

  /** How far N / T is from b / S, times T S. */
  function Distance(N: int, T: nat, b: nat, S: nat): nat {
    var d := N * S - b * T;
    if d < 0 then -d else d
  }

  /** N / T is no farther from b / S than M / U is. */
  predicate NoFarther(N: int, T: nat, M: int, U: nat, b: nat, S: nat) {
    Distance(N, T, b, S) * U <= Distance(M, U, b, S) * T
  }

  /** Of all decimals in the interval with as few digits, the one that is printed is nearest. */
  ghost predicate Closest(out: (seq<nat>, bool), b: nat, S: nat, mlo: nat, mhi: nat, closed: bool) {
    forall c: nat, q: nat, p: nat
      | 1 <= c < Power(10, |out.0|) && Inside(c * Power(10, q), Power(10, p), b, S, mlo, mhi, closed) ::
        NoFarther(Printed(out), Power(10, |out.0| - 1), c * Power(10, q), Power(10, p), b, S)
  }

  /** The value is nine and less than a half, ten is the upper end of a closed interval, and nine is in it, too. */
  predicate TenForNine(b: nat, S: nat, mlo: nat, mhi: nat, closed: bool) {
    closed && b + mhi == 10 * S && 9 * S <= b && b <= 9 * S + mlo && 2 * b < 19 * S
  }

  /** The last digit is nearest to what is left, among all that are close enough. */
  lemma LastNearest(dig: nat, r: nat, b: nat, S: nat, mlo: nat, mhi: nat, closed: bool, oneWord: bool, N: int)
    requires r < S && b == S * dig + r && dig <= 9 && 1 <= mlo <= mhi
    requires var x := Last(dig, r, S, mlo, mhi, closed, oneWord); x >= 0 && Inside(N, 1, b, S, mlo, mhi, closed)
    requires !TenForNine(b, S, mlo, mhi, closed) || (r == 0 && oneWord)
    ensures Distance(Last(dig, r, S, mlo, mhi, closed, oneWord), 1, b, S) <= Distance(N, 1, b, S)
  {
    hide Last, TenForNine, LastChoice;
    var x := Last(dig, r, S, mlo, mhi, closed, oneWord);
    NineMeans(dig, r, b, S, mlo, mhi, closed);
    LastIs(dig, r, S, mlo, mhi, closed, oneWord);
    Offset(N, dig, r, b, S);
    Offset(x, dig, r, b, S);
    Offsets(N - dig, r, S, N * S - b);
    Offsets(x - dig, r, S, x * S - b);
    NearestOffset(dig, x, r, S, mlo, mhi, closed, oneWord, N * S - b, x * S - b);
  }

  lemma NearestOffset(dig: nat, x: nat, r: nat, S: nat, mlo: nat, mhi: nat, closed: bool, oneWord: bool, e: int, d: int)
    requires r < S && 1 <= mlo <= mhi
    requires if closed then e + mlo >= 0 && e <= mhi else e + mlo > 0 && e < mhi
    requires e + r == 0 || e + r == S || e + r < 0 || e + r > S
    requires d + r == if x == dig then 0 else S
    requires LastChoice(dig, x, r, S, mlo, mhi, closed, oneWord)
    requires !(closed && dig == 9 && r + mhi == S && r <= mlo && 2 * r < S) || (r == 0 && oneWord)
    ensures (if d < 0 then -d else d) <= if e < 0 then -e else e
  {
  }

  /** Multiples of S less a remainder. */
  lemma Offsets(k: int, r: nat, S: nat, d: int)
    requires r < S && d == k * S - r
    ensures k == 0 ==> d + r == 0
    ensures k == 1 ==> d + r == S
    ensures k == -1 ==> d + r + S == 0
    ensures k < -1 ==> d + r + S < 0
    ensures k < 0 ==> d + r < 0
    ensures k > 1 ==> d + r > S
  {
    Multiples(k, S);
    Multiples(k - 1, S);
    Multiples(k + 2, S);
    assert (k + 2) * S == k * S + 2 * S;
  }

  lemma Offset(N: int, dig: nat, r: nat, b: nat, S: nat)
    requires b == S * dig + r
    ensures N * S - b == (N - dig) * S - r
  {
  }

  lemma NineMeans(dig: nat, r: nat, b: nat, S: nat, mlo: nat, mhi: nat, closed: bool)
    requires r < S && b == S * dig + r && dig <= 9
    ensures TenForNine(b, S, mlo, mhi, closed) <==> closed && dig == 9 && r + mhi == S && r <= mlo && 2 * r < S
  {
    if dig <= 8 {
      MulLe(S, S, dig, 8);
    }
  }

  /** The last digit, by the place of the remainder between the bounds. */
  predicate LastChoice(dig: nat, x: nat, r: nat, S: nat, mlo: nat, mhi: nat, closed: bool, oneWord: bool) {
    && (x == dig || x == dig + 1)
    && (x == dig ==> (if closed then r <= mlo else r < mlo) && (S < r + mhi ==> 2 * r <= S))
    && (x == dig + 1 ==> (if closed then S <= r + mhi else S < r + mhi)
                         && ((if closed then r <= mlo else r < mlo) ==>
                               2 * r >= S || (closed && dig == 9 && r + mhi == S && !(r == 0 && oneWord))))
  }

  lemma LastIs(dig: nat, r: nat, S: nat, mlo: nat, mhi: nat, closed: bool, oneWord: bool)
    requires r < S && mlo >= 1 && mhi >= 1
    ensures var x := Last(dig, r, S, mlo, mhi, closed, oneWord);
      x >= 0 ==> LastChoice(dig, x, r, S, mlo, mhi, closed, oneWord)
  {
  }

  /** ... and so are all the digits, among the decimals with as many places. */
  lemma {:induction false} GridNearest(b: nat, S: nat, mlo: nat, mhi: nat, closed: bool, oneWord: bool, left: int,
                                       N: int)
    requires b < 10 * S && 1 <= mlo <= mhi
    requires !TenForNine(b, S, mlo, mhi, closed) || (b % S == 0 && oneWord)
    requires var g := Bounded(b, S, mlo, mhi, closed, oneWord, left);
      !g.cut && Inside(N, Power(10, |g.digits| - 1), b, S, mlo, mhi, closed)
    ensures var g := Bounded(b, S, mlo, mhi, closed, oneWord, left); var T := Power(10, |g.digits| - 1);
      Distance(Number(g.digits), T, b, S) <= Distance(N, T, b, S)
    decreases |Bounded(b, S, mlo, mhi, closed, oneWord, left).digits|
  {
    hide Bounded, Inside, Number, Power, Distance, TenForNine, Last;
    var g := Bounded(b, S, mlo, mhi, closed, oneWord, left);
    var dig, r := b / S, b % S;
    StepCases(b, S, mlo, mhi, closed, oneWord, left);
    BoundedStep(b, S, mlo, mhi, closed, oneWord, left);
    FirstDigit(b, S);
    if |g.digits| == 1 {
      OnePlace(g.digits);
      LastNearest(dig, r, b, S, mlo, mhi, closed, oneWord, N);
    } else {
      var h := Bounded(10 * r, S, 10 * mlo, 10 * mhi, closed, oneWord, left - 1);
      var T, H := Power(10, |h.digits| - 1), Number(h.digits);
      NumberCons(dig, h.digits);
      TenNext(|h.digits| - 1);
      var M := GridRest(dig, r, b, S, mlo, mhi, closed, T, H, N);
      NineEnds(r, S, mlo, mhi, closed);
      GridNearest(10 * r, S, 10 * mlo, 10 * mhi, closed, oneWord, left - 1, M);
    }
  }

  /** Taking off the first digit of the output and of another decimal. */
  lemma GridRest(dig: nat, r: nat, b: nat, S: nat, mlo: nat, mhi: nat, closed: bool, T: nat, H: nat, N: int)
    returns (M: int)
    requires b == S * dig + r
    ensures N == dig * (10 * T) + M
    ensures Inside(N, 10 * T, b, S, mlo, mhi, closed) <==> Inside(M, T, 10 * r, S, 10 * mlo, 10 * mhi, closed)
    ensures Distance(N, 10 * T, b, S) == Distance(M, T, 10 * r, S)
    ensures Distance(dig * (10 * T) + H, 10 * T, b, S) == Distance(H, T, 10 * r, S)
  {
    hide Inside, Distance;
    M := N - dig * (10 * T);
    InsideRest(dig, r, M, T, S, mlo, mhi, closed);
    DistanceRest(dig, r, M, T, S);
    DistanceRest(dig, r, H, T, S);
  }

  lemma OnePlace(d: seq<nat>)
    requires |d| == 1
    ensures Number(d) == d[0] && Power(10, 0) == 1
  {
    assert d[..0] == [];
  }

  /** Taking off the first digit moves no decimal. */
  lemma DistanceRest(dig: nat, r: nat, N: int, T: nat, S: nat)
    ensures Distance(dig * (10 * T) + N, 10 * T, S * dig + r, S) == Distance(N, T, 10 * r, S)
  {
    assert (dig * (10 * T) + N) * S == dig * (10 * T) * S + N * S;
    assert (S * dig + r) * (10 * T) == S * dig * (10 * T) + r * (10 * T);
    assert dig * (10 * T) * S == S * dig * (10 * T);
    assert r * (10 * T) == (10 * r) * T;
  }

  /** After a digit that did not stop the loop there is no ten for a nine. */
  lemma NineEnds(r: nat, S: nat, mlo: nat, mhi: nat, closed: bool)
    requires GoesOn(r, S, mlo, mhi, closed)
    ensures !TenForNine(10 * r, S, 10 * mlo, 10 * mhi, closed)
  {
  }

  /** Any decimal with no more digits is on the grid of the output, or below one. */
  lemma ToGrid(n: nat, c: nat, q: nat, p: nat) returns (N: nat)
    requires n >= 1 && 1 <= c < Power(10, n)
    ensures (q >= p || p - q <= n - 1) ==> c * Power(10, q) * Power(10, n - 1) == N * Power(10, p)
    ensures (q < p && p - q > n - 1) ==> c * Power(10, q) <= Power(10, p)
  {
    hide Power;
    if q >= p {
      PowerSum(10, q - p, p);
      N := c * Power(10, q - p) * Power(10, n - 1);
      Regrouped(c, Power(10, q - p), Power(10, p), Power(10, n - 1));
    } else if p - q <= n - 1 {
      PowerSum(10, q, p - q);
      PowerSum(10, p - q, n - 1 - (p - q));
      N := c * Power(10, n - 1 - (p - q));
      Regrouped2(c, Power(10, q), Power(10, p - q), Power(10, n - 1 - (p - q)));
    } else {
      N := 0;
      PowerSum(10, p - q, q);
      PowerMonotone(10, n, p - q);
      MulLe(c, Power(10, p - q), Power(10, q), Power(10, q));
    }
  }

  lemma Regrouped(c: nat, u: nat, p: nat, t: nat)
    ensures c * (u * p) * t == c * u * t * p
  {
    Assoc(c, u, p);
    Assoc(c * u, p, t);
    Assoc(c * u, t, p);
    Commute(p, t);
  }

  lemma Regrouped2(c: nat, q: nat, v: nat, w: nat)
    ensures c * q * (v * w) == c * w * (q * v)
  {
    Assoc(c, q, v * w);
    Assoc(c, w, q * v);
    Assoc(q, v, w);
    Commute(w, q * v);
  }

  /** Equal decimals are equally far. */
  lemma SameDistance(N: nat, T: nat, M: nat, U: nat, b: nat, S: nat)
    requires N * U == M * T
    ensures Distance(N, T, b, S) * U == Distance(M, U, b, S) * T
  {
    Swapped(N, S, U);
    Swapped(M, S, T);
    Swapped(b, T, U);
    Commute(T, b * U);
    LessTimes(N * S, b * T, U);
    LessTimes(M * S, b * U, T);
    AbsTimes(N * S - b * T, U);
    AbsTimes(M * S - b * U, T);
  }

  lemma Swapped(a: nat, b: nat, c: nat)
    ensures (a * b) * c == b * (a * c)
  {
  }

  lemma LessTimes(x: int, y: int, u: int)
    ensures (x - y) * u == x * u - y * u
  {
  }

  lemma AbsTimes(d: int, u: nat)
    ensures (if d < 0 then -d else d) * u == if d * u < 0 then -(d * u) else d * u
  {
  }

  lemma InsideUp(N: nat, T: nat, k: nat, b: nat, S: nat, mlo: nat, mhi: nat, closed: bool)
    requires k >= 1 && Inside(N, T, b, S, mlo, mhi, closed)
    ensures Inside(N * k, T * k, b, S, mlo, mhi, closed)
  {
    var d := N * S - b * T;
    assert (N * k) * S == (N * S) * k && b * (T * k) == (b * T) * k;
    assert (N * k) * S - b * (T * k) == d * k;
    assert mlo * (T * k) == (mlo * T) * k && mhi * (T * k) == (mhi * T) * k;
    CancelLow(d, mlo * T, k);
    CancelHigh(d, mhi * T, k);
    Carry(mhi * T - d, k);
    Carry(mlo * T + d, k);
  }

  lemma Carry(e: int, k: int)
    requires k >= 1
    ensures (e >= 0 ==> e * k >= 0) && (e > 0 ==> e * k > 0)
  {
  }

  lemma OnGrid(N: nat, T: nat, M: nat, U: nat, b: nat, S: nat, mlo: nat, mhi: nat, closed: bool)
    requires T >= 1 && U >= 1 && M * T == N * U && Inside(M, U, b, S, mlo, mhi, closed)
    ensures Inside(N, T, b, S, mlo, mhi, closed)
  {
    hide Inside;
    InsideUp(M, U, T, b, S, mlo, mhi, closed);
    Commute(T, U);
    InsideScaled(N, T, U, b, S, mlo, mhi, closed);
  }

  lemma CandidateFarther(b: nat, S: nat, mlo: nat, mhi: nat, closed: bool, oneWord: bool, left: int,
                         c: nat, q: nat, p: nat)
    requires S <= b < 10 * S && 1 <= mlo <= mhi
    requires !TenForNine(b, S, mlo, mhi, closed) || (b % S == 0 && oneWord)
    requires var g := Bounded(b, S, mlo, mhi, closed, oneWord, left); !g.cut && 1 <= c < Power(10, |g.digits|)
    requires Inside(c * Power(10, q), Power(10, p), b, S, mlo, mhi, closed)
    ensures var g := Bounded(b, S, mlo, mhi, closed, oneWord, left);
      NoFarther(Number(g.digits), Power(10, |g.digits| - 1), c * Power(10, q), Power(10, p), b, S)
  {
    hide Bounded, Inside, Number, Power, Distance, TenForNine;
    var g := Bounded(b, S, mlo, mhi, closed, oneWord, left);
    var n, P := |g.digits|, Number(g.digits);
    var T, M, U := Power(10, n - 1), c * Power(10, q), Power(10, p);
    var N := ToGrid(n, c, q, p);
    if q < p && p - q > n - 1 {
      OneInside(M, U, b, S, mlo, mhi, closed);
      N := T;
      Commute(U, T);
      OnGrid(T, T, U, U, b, S, mlo, mhi, closed);
      SameDistance(T, T, U, U, b, S);
      BelowOne(M, U, b, S);
      MulLe(Distance(U, U, b, S), Distance(M, U, b, S), T, T);
    } else {
      OnGrid(N, T, M, U, b, S, mlo, mhi, closed);
      SameDistance(N, T, M, U, b, S);
    }
    GridNearest(b, S, mlo, mhi, closed, oneWord, left, N);
    MulLe(Distance(P, T, b, S), Distance(N, T, b, S), U, U);
  }

  /** The value is at least one: a decimal below one is farther than one. */
  lemma BelowOne(M: nat, U: nat, b: nat, S: nat)
    requires S <= b && M <= U
    ensures Distance(U, U, b, S) <= Distance(M, U, b, S)
  {
    MulLe(M, U, S, S);
    MulLe(S, b, U, U);
    Commute(U, S);
  }

  /** Shortest output is nearest, too, for all numbers and bounds but one kind: a ten that is printed for a nine. */
  lemma ShortestClosest(b: nat, S: nat, mlo: nat, mhi: nat, closed: bool, oneWord: bool, left: int)
    requires S <= b < 10 * S && 1 <= mlo <= mhi
    requires !Bounded(b, S, mlo, mhi, closed, oneWord, left).cut
    ensures Closest(Finish(Bounded(b, S, mlo, mhi, closed, oneWord, left), S), b, S, mlo, mhi, closed)
      <==> !TenForNine(b, S, mlo, mhi, closed) || (b == 9 * S && oneWord)
  {
    if TenForNine(b, S, mlo, mhi, closed) {
      NineExactly(b, S, mlo, mhi, closed);
    }
    hide Bounded, Inside, Number, Power, NoFarther, TenForNine;
    var g := Bounded(b, S, mlo, mhi, closed, oneWord, left);
    var out := Finish(g, S);
    DigitsInRange(b, S, mlo, mhi, closed, oneWord, left);
    if g.digits[|g.digits| - 1] == 10 {
      TenOutput(g);
    }
    if !TenForNine(b, S, mlo, mhi, closed) || (b % S == 0 && oneWord) {
      forall c: nat, q: nat, p: nat
        | 1 <= c < Power(10, |out.0|) && Inside(c * Power(10, q), Power(10, p), b, S, mlo, mhi, closed)
        ensures NoFarther(Printed(out), Power(10, |out.0| - 1), c * Power(10, q), Power(10, p), b, S)
      {
        CandidateFarther(b, S, mlo, mhi, closed, oneWord, left, c, q, p);
      }
    } else {
      TenIsFarther(b, S, mlo, mhi, closed, oneWord, left);
      NineInside(b, S, mlo, mhi, closed);
    }
  }

  lemma NineExactly(b: nat, S: nat, mlo: nat, mhi: nat, closed: bool)
    requires S <= b < 10 * S && TenForNine(b, S, mlo, mhi, closed)
    ensures b % S == 0 <==> b == 9 * S
  {
    FirstDigit(b, S);
    if b / S <= 8 {
      MulLe(S, S, b / S, 8);
    }
  }

  // ----- ties

  /** N / T is the upper end of the interval. */
  predicate UpperEnd(N: int, T: nat, b: nat, S: nat, mhi: nat) {
    N * S == (b + mhi) * T
  }

  predicate TieRule(P: int, N: int, T: nat, atEnd: bool) {
    if atEnd then (if T == 1 && (if P < N then N else P) == 10 then P == 10 else P < N) else P % 2 == 0
  }

  /** What is printed, P, where another decimal N with as many places is as near: the even one of the two. But if the
      larger one is the upper end of a closed interval, it is the smaller one, except that ten is printed if that is
      the end. */
  predicate TieChoice(P: int, N: int, T: nat, b: nat, S: nat, mhi: nat, closed: bool) {
    TieRule(P, N, T, closed && UpperEnd(if P < N then N else P, T, b, S, mhi))
  }

  /** The rule holds for every other decimal in the interval that is as near. */
  ghost predicate Ties(out: (seq<nat>, bool), b: nat, S: nat, mlo: nat, mhi: nat, closed: bool)
    requires out.0 != []
  {
    var P, T := Printed(out), Power(10, |out.0| - 1);
    forall N: nat
      | N != P && Inside(N, T, b, S, mlo, mhi, closed) && Distance(N, T, b, S) == Distance(P, T, b, S) ::
      TieChoice(P, N, T, b, S, mhi, closed)
  }

  /** The last digit: the tests in the order of the code. */
  lemma LastTie(dig: nat, r: nat, S: nat, mlo: nat, mhi: nat, closed: bool, oneWord: bool)
    requires 2 * r == S && r >= 1 && mlo >= 1 && mhi >= 1 && dig <= 9
    requires (if closed then r <= mlo else r < mlo) && (if closed then S <= r + mhi else S < r + mhi)
    ensures var x := Last(dig, r, S, mlo, mhi, closed, oneWord);
      && (closed && r + mhi == S ==> x == if dig == 9 then 10 else dig)
      && (!(closed && r + mhi == S) ==> (x == dig || x == dig + 1) && x % 2 == 0)
  {
  }

  lemma OneTie(dig: nat, r: nat, b: nat, S: nat, mlo: nat, mhi: nat, closed: bool, oneWord: bool, N: int)
    requires r < S && b == S * dig + r && dig <= 9 && mlo >= 1 && mhi >= 1
    requires var x := Last(dig, r, S, mlo, mhi, closed, oneWord);
      x >= 0 && N != x && Inside(N, 1, b, S, mlo, mhi, closed) && Distance(N, 1, b, S) == Distance(x, 1, b, S)
    ensures TieChoice(Last(dig, r, S, mlo, mhi, closed, oneWord), N, 1, b, S, mhi, closed)
  {
    hide Last, LastChoice, TieChoice, UpperEnd;
    var x := Last(dig, r, S, mlo, mhi, closed, oneWord);
    LastIs(dig, r, S, mlo, mhi, closed, oneWord);
    Offset(N, dig, r, b, S);
    Offset(x, dig, r, b, S);
    Offsets(N - dig, r, S, N * S - b);
    Offsets(x - dig, r, S, x * S - b);
    TieOffsets(dig, x, N, r, S, mlo, mhi, closed, oneWord, N * S - b, x * S - b);
    if r == 0 {
      OneHigher(9, 0, b, S, mhi);
      TenTie(b, S, mhi, closed);
    } else {
      LastTie(dig, r, S, mlo, mhi, closed, oneWord);
      TieAtOne(dig, x, N, r, b, S, mhi, closed);
    }
  }

  lemma TenTie(b: nat, S: nat, mhi: nat, closed: bool)
    requires closed && UpperEnd(10, 1, b, S, mhi)
    ensures TieChoice(10, 8, 1, b, S, mhi, closed)
  {
    hide UpperEnd;
  }

  lemma TieOffsets(dig: nat, x: nat, N: int, r: nat, S: nat, mlo: nat, mhi: nat, closed: bool, oneWord: bool,
                   e: int, d: int)
    requires r < S && mlo >= 1 && mhi >= 1 && N != x && LastChoice(dig, x, r, S, mlo, mhi, closed, oneWord)
    requires if closed then e + mlo >= 0 && e <= mhi else e + mlo > 0 && e < mhi
    requires N == dig ==> e + r == 0
    requires N == dig + 1 ==> e + r == S
    requires N < dig ==> e + r < 0
    requires N > dig + 1 ==> e + r > S
    requires d + r == if x == dig then 0 else S
    requires N == dig - 1 ==> e + r + S == 0
    requires N < dig - 1 ==> e + r + S < 0
    requires (if d < 0 then -d else d) == if e < 0 then -e else e
    ensures (2 * r == S && N + x == 2 * dig + 1
             && (if closed then r <= mlo else r < mlo) && (if closed then S <= r + mhi else S < r + mhi))
         || (r == 0 && dig == 9 && x == 10 && N == 8 && closed && mhi == S)
  {
  }

  lemma TieAtOne(dig: nat, x: nat, N: int, r: nat, b: nat, S: nat, mhi: nat, closed: bool)
    requires b == S * dig + r && 2 * r == S && N + x == 2 * dig + 1 && (x == dig || x == dig + 1) && dig <= 9
    requires closed && r + mhi == S ==> x == if dig == 9 then 10 else dig
    requires !(closed && r + mhi == S) ==> x % 2 == 0
    ensures TieChoice(x, N, 1, b, S, mhi, closed)
  {
    OneHigher(dig, r, b, S, mhi);
    hide UpperEnd;
  }

  lemma OneHigher(dig: nat, r: nat, b: nat, S: nat, mhi: nat)
    requires b == S * dig + r
    ensures UpperEnd(dig + 1, 1, b, S, mhi) <==> r + mhi == S
  {
    Distribute(S, dig, 1);
    Commute(S, dig + 1);
  }

  /** The rule for the whole output. */
  lemma {:induction false} GridTie(b: nat, S: nat, mlo: nat, mhi: nat, closed: bool, oneWord: bool, left: int, N: int)
    requires b < 10 * S && mlo >= 1 && mhi >= 1
    requires var g := Bounded(b, S, mlo, mhi, closed, oneWord, left);
      var P, T := Number(g.digits), Power(10, |g.digits| - 1);
      && !g.cut && N != P && Inside(N, T, b, S, mlo, mhi, closed) && Distance(N, T, b, S) == Distance(P, T, b, S)
    ensures var g := Bounded(b, S, mlo, mhi, closed, oneWord, left);
      TieChoice(Number(g.digits), N, Power(10, |g.digits| - 1), b, S, mhi, closed)
    decreases |Bounded(b, S, mlo, mhi, closed, oneWord, left).digits|
  {
    hide Bounded, Inside, Number, Power, Distance, Last, TieChoice;
    var g := Bounded(b, S, mlo, mhi, closed, oneWord, left);
    var dig, r := b / S, b % S;
    StepCases(b, S, mlo, mhi, closed, oneWord, left);
    BoundedStep(b, S, mlo, mhi, closed, oneWord, left);
    FirstDigit(b, S);
    if |g.digits| == 1 {
      OnePlace(g.digits);
      OneTie(dig, r, b, S, mlo, mhi, closed, oneWord, N);
      assert TieChoice(Number(g.digits), N, Power(10, |g.digits| - 1), b, S, mhi, closed);
    } else {
      var h := Bounded(10 * r, S, 10 * mlo, 10 * mhi, closed, oneWord, left - 1);
      var T, H := Power(10, |h.digits| - 1), Number(h.digits);
      NumberCons(dig, h.digits);
      TenNext(|h.digits| - 1);
      var M := GridRest(dig, r, b, S, mlo, mhi, closed, T, H, N);
      GridTie(10 * r, S, 10 * mlo, 10 * mhi, closed, oneWord, left - 1, M);
      TieRest(dig, r, b, S, mlo, mhi, closed, T, H, M);
      assert TieChoice(Number(g.digits), N, Power(10, |g.digits| - 1), b, S, mhi, closed);
    }
  }

  lemma TieRest(dig: nat, r: nat, b: nat, S: nat, mlo: nat, mhi: nat, closed: bool, T: nat, H: nat, M: int)
    requires b == S * dig + r && T >= 1 && GoesOn(r, S, mlo, mhi, closed)
    requires TieChoice(H, M, T, 10 * r, S, 10 * mhi, closed)
    ensures TieChoice(dig * (10 * T) + H, dig * (10 * T) + M, 10 * T, b, S, mhi, closed)
  {
    UpperRest(dig, r, b, S, mhi, T, H);
    UpperRest(dig, r, b, S, mhi, T, M);
    if closed {
      NotTenYet(r, S, mlo, mhi, closed);
    }
    Tens(dig, T);
    var z := dig * (10 * T);
    EvenShift(dig * T, H);
    TieShift(H, M, z + H, z + M, T, 10 * T, closed && UpperEnd(if H < M then M else H, T, 10 * r, S, 10 * mhi));
  }

  lemma Tens(dig: nat, T: nat)
    ensures dig * (10 * T) == 10 * (dig * T)
  {
  }

  lemma EvenShift(q: nat, H: nat)
    ensures (10 * q + H) % 2 == H % 2
  {
  }

  lemma TieShift(H: int, M: int, P: int, N: int, T: nat, U: nat, atEnd: bool)
    requires TieRule(H, M, T, atEnd) && U == 10 * T && T >= 1
    requires P % 2 == H % 2 && P - N == H - M && !(atEnd && (H == 10 || M == 10) && T == 1)
    ensures TieRule(P, N, U, atEnd)
  {
  }

  /** Taking off the first digit leaves the upper end the upper end. */
  lemma UpperRest(dig: nat, r: nat, b: nat, S: nat, mhi: nat, T: nat, N: int)
    requires b == S * dig + r
    ensures UpperEnd(dig * (10 * T) + N, 10 * T, b, S, mhi) <==> UpperEnd(N, T, 10 * r, S, 10 * mhi)
  {
    assert (dig * (10 * T) + N) * S == dig * (10 * T) * S + N * S;
    assert (S * dig + r + mhi) * (10 * T) == S * dig * (10 * T) + (r + mhi) * (10 * T);
    assert dig * (10 * T) * S == S * dig * (10 * T);
    assert (r + mhi) * (10 * T) == (10 * r + 10 * mhi) * T;
  }

  lemma NotTenYet(r: nat, S: nat, mlo: nat, mhi: nat, closed: bool)
    requires GoesOn(r, S, mlo, mhi, closed) && closed
    ensures !UpperEnd(10, 1, 10 * r, S, 10 * mhi)
  {
  }

  /** Ties in shortest output. */
  lemma ShortestTies(b: nat, S: nat, mlo: nat, mhi: nat, closed: bool, oneWord: bool, left: int)
    requires S <= b < 10 * S && mlo >= 1 && mhi >= 1
    requires !Bounded(b, S, mlo, mhi, closed, oneWord, left).cut
    ensures var out := Finish(Bounded(b, S, mlo, mhi, closed, oneWord, left), S);
      out.0 != [] && Ties(out, b, S, mlo, mhi, closed)
  {
    hide Bounded, Inside, Number, Power, Distance, TieChoice;
    var g := Bounded(b, S, mlo, mhi, closed, oneWord, left);
    var out := Finish(g, S);
    DigitsInRange(b, S, mlo, mhi, closed, oneWord, left);
    if g.digits[|g.digits| - 1] == 10 {
      TenOutput(g);
    }
    var P, T := Printed(out), Power(10, |out.0| - 1);
    forall N: nat
      | N != P && Inside(N, T, b, S, mlo, mhi, closed) && Distance(N, T, b, S) == Distance(P, T, b, S)
      ensures TieChoice(P, N, T, b, S, mhi, closed)
    {
      GridTie(b, S, mlo, mhi, closed, oneWord, left, N);
    }
  }

  /** A common factor does not matter. */
  lemma TiesScale(out: (seq<nat>, bool), b: nat, S: nat, mlo: nat, mhi: nat, closed: bool, u: nat)
    requires u >= 1 && out.0 != [] && Ties(out, u * b, u * S, u * mlo, u * mhi, closed)
    ensures Ties(out, b, S, mlo, mhi, closed)
  {
    hide Inside, Printed, Power, Distance;
    var P, T := Printed(out), Power(10, |out.0| - 1);
    forall N: nat
      | N != P && Inside(N, T, b, S, mlo, mhi, closed) && Distance(N, T, b, S) == Distance(P, T, b, S)
      ensures TieChoice(P, N, T, b, S, mhi, closed)
    {
      InsideScale(N, T, b, S, mlo, mhi, closed, u);
      DistanceScale(N, T, b, S, u);
      DistanceScale(P, T, b, S, u);
      UpperScale(N, T, b, S, mhi, u);
      UpperScale(P, T, b, S, mhi, u);
      hide UpperEnd;
    }
  }

  lemma UpperScale(N: nat, T: nat, b: nat, S: nat, mhi: nat, u: nat)
    requires u >= 1
    ensures UpperEnd(N, T, u * b, u * S, u * mhi) <==> UpperEnd(N, T, b, S, mhi)
  {
    Group(N, u, S);
    Commute(N, u * S);
    assert N * (u * S) == u * (N * S);
    Distribute(u, b, mhi);
    Assoc(u, b + mhi, T);
    Ordered(u, N * S, (b + mhi) * T);
    Ordered(u, (b + mhi) * T, N * S);
  }

  lemma TenIsFarther(b: nat, S: nat, mlo: nat, mhi: nat, closed: bool, oneWord: bool, left: int)
    requires b < 10 * S && mlo >= 1 && mhi >= 1
    requires TenForNine(b, S, mlo, mhi, closed) && !(b % S == 0 && oneWord)
    ensures Bounded(b, S, mlo, mhi, closed, oneWord, left) == Gen([10], false, 0)
    ensures Number([10]) == 10 && Power(10, 0) == 1 && Power(10, 1) == 10
    ensures !NoFarther(10, 1, 9, 1, b, S)
  {
    hide Bounded;
    var dig, r := b / S, b % S;
    FirstDigit(b, S);
    if dig <= 8 {
      MulLe(S, S, dig, 8);
    }
    BoundedStep(b, S, mlo, mhi, closed, oneWord, left);
    assert Last(dig, r, S, mlo, mhi, closed, oneWord) == 10;
    OnePlace([10]);
    assert Power(10, 1) == 10 * Power(10, 0);
  }

  /** There are such numbers, with the upper bound twice the lower as for a power of two. */
  lemma TenForNineHappens()
    ensures Finish(Bounded(92, 10, 4, 8, true, false, 0), 10) == ([1], true)
    ensures !Closest(Finish(Bounded(92, 10, 4, 8, true, false, 0), 10), 92, 10, 4, 8, true)
  {
    hide Bounded, Closest;
    TenIsFarther(92, 10, 4, 8, true, false, 0);
    TenOutput(Gen([10], false, 0));
    ShortestClosest(92, 10, 4, 8, true, false, 0);
  }

  lemma NineInside(b: nat, S: nat, mlo: nat, mhi: nat, closed: bool)
    requires TenForNine(b, S, mlo, mhi, closed)
    ensures Power(10, 0) == 1 && Inside(9 * Power(10, 0), Power(10, 0), b, S, mlo, mhi, closed)
  {
    assert 9 * S - b * 1 == 9 * S - b;
  }

  lemma SomeDigits(out: (seq<nat>, bool), b: nat, S: nat, mlo: nat, mhi: nat, closed: bool)
    requires Shortest(out, b, S, mlo, mhi, closed)
    ensures out.0 != []
  {
  }

  lemma ClosestScale(out: (seq<nat>, bool), b: nat, S: nat, mlo: nat, mhi: nat, closed: bool, u: nat)
    requires u >= 1 && out.0 != []
    ensures Closest(out, u * b, u * S, u * mlo, u * mhi, closed) <==> Closest(out, b, S, mlo, mhi, closed)
    ensures TenForNine(u * b, u * S, u * mlo, u * mhi, closed) <==> TenForNine(b, S, mlo, mhi, closed)
  {
    hide Inside, Printed, Power, NoFarther;
    var P, T := Printed(out), Power(10, |out.0| - 1);
    forall c: nat, q: nat, p: nat | 1 <= c < Power(10, |out.0|)
      ensures Inside(c * Power(10, q), Power(10, p), u * b, u * S, u * mlo, u * mhi, closed)
        <==> Inside(c * Power(10, q), Power(10, p), b, S, mlo, mhi, closed)
      ensures NoFarther(P, T, c * Power(10, q), Power(10, p), u * b, u * S)
        <==> NoFarther(P, T, c * Power(10, q), Power(10, p), b, S)
    {
      InsideScale(c * Power(10, q), Power(10, p), b, S, mlo, mhi, closed, u);
      FartherScale(P, T, c * Power(10, q), Power(10, p), b, S, u);
    }
    TenScale(b, S, mlo, mhi, closed, u);
  }

  lemma FartherScale(N: nat, T: nat, M: nat, U: nat, b: nat, S: nat, u: nat)
    requires u >= 1
    ensures NoFarther(N, T, M, U, u * b, u * S) <==> NoFarther(N, T, M, U, b, S)
  {
    DistanceScale(N, T, b, S, u);
    DistanceScale(M, U, b, S, u);
    var x, y := Distance(N, T, b, S), Distance(M, U, b, S);
    Assoc(u, x, U);
    Assoc(u, y, T);
    Ordered(u, x * U, y * T);
  }

  lemma DistanceScale(N: nat, T: nat, b: nat, S: nat, u: nat)
    ensures Distance(N, T, u * b, u * S) == u * Distance(N, T, b, S)
  {
    assert N * (u * S) == u * (N * S) && (u * b) * T == u * (b * T);
    var d := N * S - b * T;
    assert u * (N * S) - u * (b * T) == u * d;
    if d < 0 {
      assert u * d == -(u * -d);
    }
    Carry(d, if u >= 1 then u else 1);
    Carry(-d, if u >= 1 then u else 1);
  }

  lemma TenScale(b: nat, S: nat, mlo: nat, mhi: nat, closed: bool, u: nat)
    requires u >= 1
    ensures TenForNine(u * b, u * S, u * mlo, u * mhi, closed) <==> TenForNine(b, S, mlo, mhi, closed)
  {
    Distribute(u, b, mhi);
    Ordered(u, b + mhi, 10 * S);
    Ordered(u, 10 * S, b + mhi);
    Ordered(u, 9 * S, b);
    Distribute(u, 9 * S, mlo);
    Ordered(u, b, 9 * S + mlo);
    Ordered(u, 19 * S, 2 * b);
    assert u * (10 * S) == 10 * (u * S) && u * (9 * S) == 9 * (u * S) && u * (19 * S) == 19 * (u * S);
    assert u * (2 * b) == 2 * (u * b);
  }

  /** Without a digit limit the loop is never cut off. */
  lemma {:induction false} UnlimitedNotCut(b: nat, S: nat, mlo: nat, mhi: nat, closed: bool, oneWord: bool, left: int)
    requires b < 10 * S && mlo >= 1 && mhi >= 1 && left <= 0
    ensures !Bounded(b, S, mlo, mhi, closed, oneWord, left).cut
    decreases |Bounded(b, S, mlo, mhi, closed, oneWord, left).digits|
  {
    hide Bounded;
    StepCases(b, S, mlo, mhi, closed, oneWord, left);
    if |Bounded(b, S, mlo, mhi, closed, oneWord, left).digits| > 1 {
      UnlimitedNotCut(10 * (b % S), S, 10 * mlo, 10 * mhi, closed, oneWord, left - 1);
    }
  }

  // ----- rounding to a digit limit

  /** R is num / den rounded to the nearest integer, ties to even. */
  ghost predicate Nearest(R: int, num: int, den: int) {
    var d := 2 * (R * den - num);
    -den <= d <= den && ((d == den || d == -den) ==> R % 2 == 0)
  }

  /** Adding one unit in the last place: the same number with trailing zeros for nines, or the next power of
      ten exactly when all digits are nines. */
  lemma {:induction false} RoundoffValue(d: seq<nat>)
    requires forall i | 0 <= i < |d| :: d[i] <= 9
    ensures var out := Roundoff(d);
      && (out.1 <==> forall i | 0 <= i < |d| :: d[i] == 9)
      && (out.1 ==> out.0 == [1] && Number(d) + 1 == Power(10, |d|))
      && (!out.1 ==> Rounded(d, out.0))
  {
    hide Number, Power, Rounded;
    if d == [] {
      NumberNil();
    } else {
      var n := |d| - 1;
      if d[n] == 9 {
        RoundoffValue(d[..n]);
        var o := Roundoff(d[..n]).0;
        if Roundoff(d).1 {
          NumberStep(d);
          TenNext(n);
          assert forall i | 0 <= i < n :: d[i] == d[..n][i];
        } else {
          RoundedLonger(d, n, o);
        }
      } else {
        RoundedHere(d);
      }
    }
  }

  lemma RoundedHere(d: seq<nat>)
    requires d != [] && d[|d| - 1] <= 8 && forall i | 0 <= i < |d| :: d[i] <= 9
    ensures Rounded(d, d[..|d| - 1] + [d[|d| - 1] + 1])
  {
    hide Number, Power;
    var n := |d| - 1;
    var o := d[..n] + [d[n] + 1];
    assert o[..n] == d[..n];
    NumberStep(d);
    NumberStep(o);
    NumberNil();
  }

  lemma NumberNil()
    ensures Number([]) == 0 && Power(10, 0) == 1
  {
  }

  lemma NumberStep(d: seq<nat>)
    requires d != []
    ensures Number(d) == 10 * Number(d[..|d| - 1]) + d[|d| - 1]
  {
  }

  lemma RoundedLonger(d: seq<nat>, n: nat, o: seq<nat>)
    requires n + 1 == |d| && Rounded(d[..n], o) && d[n] == 9
    ensures Rounded(d, o)
  {
    hide Number, Power;
    NumberStep(d);
    TenNext(n - |o|);
    Group(10, Number(o), Power(10, n - |o|));
    assert d[..n][..|o| - 1] == d[..|o| - 1] && d[..n][|o| - 1] == d[|o| - 1];
  }

  /** o is d plus one unit in the last place of d, without the trailing zeros; its last digit went up. */
  ghost predicate Rounded(d: seq<nat>, o: seq<nat>) {
    && 1 <= |o| <= |d|
    && Number(o) * Power(10, |d| - |o|) == Number(d) + 1
    && o[..|o| - 1] == d[..|o| - 1] && o[|o| - 1] == d[|o| - 1] + 1
    && (forall i | 0 <= i < |o| :: o[i] <= 9)
  }

  lemma {:induction false} StripValue(d: seq<nat>)
    requires d != [] && d[0] >= 1
    ensures var o := Strip(d);
      && 1 <= |o| <= |d| && o == d[..|o|] && o[|o| - 1] != 0
      && Number(o) * Power(10, |d| - |o|) == Number(d)
  {
    hide Number, Power;
    var n := |d| - 1;
    NumberNil();
    if d[n] == 0 {
      StripValue(d[..n]);
      var o := Strip(d[..n]);
      NumberStep(d);
      TenNext(n - |o|);
      Group(10, Number(o), Power(10, n - |o|));
    }
  }

  /** A digit string that is rounded by its remainder. */
  lemma RoundedNearest(d: seq<nat>, S: nat, rem: nat, b: nat, T: nat)
    requires d != [] && Truncated(Number(d), T, b, S, rem)
    ensures if RoundsUp(rem, S, d[|d| - 1]) then Nearest(Number(d) + 1, b * T, S) else Nearest(Number(d), b * T, S)
  {
    hide Number;
    var N := Number(d);
    NumberStep(d);
    NearestUp(N, d[|d| - 1] % 2 == 1, S, rem, b * T);
  }

  lemma NearestUp(N: nat, odd: bool, S: nat, rem: nat, num: nat)
    requires N * S + rem == num && rem < S && (odd <==> N % 2 == 1)
    ensures if 2 * rem > S || (2 * rem == S && odd) then Nearest(N + 1, num, S) else Nearest(N, num, S)
  {
    Commute(N + 1, S);
    Distribute(S, N, 1);
    Commute(N, S);
  }

  /** What rounding to at most n digits must produce. */
  ghost predicate RoundedTo(out: (seq<nat>, bool), n: nat, b: nat, S: nat) {
    var d := out.0;
    && IsDigits(d) && d[|d| - 1] != 0 && 1 <= |d| <= n
    && Nearest(Printed(out) * Power(10, n - |d|), b * Power(10, n - 1), S)
    && (out.1 <==> Printed(out) * Power(10, n - |d|) == Power(10, n))
  }

  /** The decimal of at most n digits nearest to b / S, ties to even, without trailing zeros; the exponent goes
      up exactly when the nearest decimal is the next power of ten. */
  lemma CutOutput(g: Gen, b: nat, S: nat)
    requires IsDigits(g.digits) && g.cut
    requires Truncated(Number(g.digits), Power(10, |g.digits| - 1), b, S, g.rem)
    ensures RoundedTo(Finish(g, S), |g.digits|, b, S)
  {
    hide Nearest, Number, Roundoff, Strip, Power, Truncated;
    var d := g.digits;
    RoundedNearest(d, S, g.rem, b, Power(10, |d| - 1));
    RoundoffValue(d);
    StripValue(d);
    NumberBelow(d);
    var out := Finish(g, S);
    if RoundsUp(g.rem, S, d[|d| - 1]) {
      if out.1 {
        RaisedPrinted(|d|);
      } else {
        KeptPrinted(out, |d|);
        SmallerPower(out.0, |d|);
        assert out.0[0] >= 1;
      }
    } else {
      KeptPrinted(out, |d|);
    }
  }

  lemma RaisedPrinted(n: nat)
    requires n >= 1
    ensures Printed(([1], true)) * Power(10, n - 1) == Power(10, n)
  {
    assert [1][..0] == [] && Number([1]) == 1;
  }

  lemma KeptPrinted(out: (seq<nat>, bool), n: nat)
    requires !out.1 && |out.0| <= n
    ensures Printed(out) * Power(10, n - |out.0|) == Number(out.0) * Power(10, n - |out.0|)
  {
  }

  lemma {:induction false} NumberBelow(d: seq<nat>)
    requires forall i | 0 <= i < |d| :: d[i] <= 9
    ensures Number(d) < Power(10, |d|)
  {
    if d != [] {
      NumberBelow(d[..|d| - 1]);
    }
  }

  lemma SmallerPower(o: seq<nat>, n: nat)
    requires |o| <= n && forall i | 0 <= i < |o| :: o[i] <= 9
    ensures Number(o) * Power(10, n - |o|) < Power(10, n)
  {
    hide Number, Power;
    NumberBelow(o);
    PowerSum(10, |o|, n - |o|);
    var t := Power(10, n - |o|);
    MulLe(Number(o) + 1, Power(10, |o|), t, t);
    Commute(Number(o) + 1, t);
    Distribute(t, Number(o), 1);
    Commute(t, Number(o));
  }

  lemma {:induction false} ExactValue(b: nat, S: nat, left: nat)
    requires 1 <= b < 10 * S && left >= 1
    ensures var g := Exact(b, S, left); var n := |g.digits| - 1;
      && Truncated(Number(g.digits), Power(10, n), b, S, g.rem)
      && (g.cut ==> n + 1 == left) && (!g.cut ==> g.rem == 0 && g.digits[n] != 0)
      && (forall i | 0 <= i <= n :: g.digits[i] <= 9) && (b >= S ==> g.digits[0] >= 1)
    decreases left
  {
    hide Number, Power, Truncated;
    var g := Exact(b, S, left);
    var dig, r := b / S, b % S;
    FirstDigit(b, S);
    if r == 0 || left == 1 {
      OneDigit([dig], dig, r, b, S, 0, 0, true);
      if dig == 0 {
        assert S * dig == 0;
      }
    } else {
      var h := Exact(10 * r, S, left - 1);
      ExactValue(10 * r, S, left - 1);
      NumberCons(dig, h.digits);
      CutRest(dig, r, Number(h.digits), Power(10, |h.digits| - 1), S, h.rem);
      TenNext(|h.digits| - 1);
      assert forall i | 1 <= i < |g.digits| :: g.digits[i] == h.digits[i - 1];
    }
  }

  lemma TenNext(n: nat)
    ensures Power(10, n + 1) == 10 * Power(10, n)
  {
  }

  /** Fixed-digit output is b / S rounded to `left` digits. */
  lemma FixedOutput(b: nat, S: nat, left: nat)
    requires S <= b < 10 * S && S >= 1 && left >= 1
    ensures RoundedTo(Finish(Exact(b, S, left), S), left, b, S)
  {
    hide Exact, Nearest, Number, Power, Roundoff, Strip, Truncated;
    var g := Exact(b, S, left);
    ExactValue(b, S, left);
    if g.cut {
      CutOutput(g, b, S);
    } else {
      var n := |g.digits|;
      KeptPrinted((g.digits, false), left);
      SmallerPower(g.digits, left);
      ExactNearest(Number(g.digits), S, b, n, left);
    }
  }

  lemma ExactNearest(N: nat, S: nat, b: nat, n: nat, left: nat)
    requires 1 <= n <= left && Truncated(N, Power(10, n - 1), b, S, 0)
    ensures Nearest(N * Power(10, left - n), b * Power(10, left - 1), S)
  {
    hide Power;
    PowerSum(10, n - 1, left - n);
    var t := Power(10, left - n);
    Assoc(b, Power(10, n - 1), t);
    Commute(N, t);
    Assoc(t, N, S);
    Commute(t, N * S);
  }

  /** The loop with error bounds, cut at the digit limit, rounds to that many digits too. */
  lemma LimitedOutput(b: nat, S: nat, mlo: nat, mhi: nat, closed: bool, oneWord: bool, left: int)
    requires S <= b < 10 * S && mlo >= 1 && mhi >= 1
    requires Bounded(b, S, mlo, mhi, closed, oneWord, left).cut
    ensures left >= 1 && RoundedTo(Finish(Bounded(b, S, mlo, mhi, closed, oneWord, left), S), left, b, S)
  {
    hide Bounded, Finish, RoundedTo, Truncated;
    var g := Bounded(b, S, mlo, mhi, closed, oneWord, left);
    BoundedValue(b, S, mlo, mhi, closed, oneWord, left);
    DigitsInRange(b, S, mlo, mhi, closed, oneWord, left);
    StepCases(b, S, mlo, mhi, closed, oneWord, left);
    FirstDigit(b, S);
    CutOutput(g, b, S);
  }

  /** With no digit left to print, b / S rounds to ten, which prints a one in the place before, or to nothing. */
  predicate RoundsToTen(b: nat, S: nat) {
    b > 5 * S
  }

  lemma NoPlaceLeft(b: nat, S: nat)
    requires b < 10 * S
    ensures Nearest(if RoundsToTen(b, S) then 1 else 0, b, 10 * S)
    ensures forall R: nat :: Nearest(R, b, 10 * S) ==> R == if RoundsToTen(b, S) then 1 else 0
  {
    forall R: nat | Nearest(R, b, 10 * S)
      ensures R == if RoundsToTen(b, S) then 1 else 0
    {
      if R >= 2 {
        AtLeast(10 * S, R - 1);
        Commute(10 * S, R - 1);
        Distribute(10 * S, R - 1, 1);
      }
    }
  }

  /** A common factor does not matter for rounding, either. */
  lemma RoundedToScale(out: (seq<nat>, bool), n: nat, b: nat, S: nat, u: nat)
    requires u >= 1 && RoundedTo(out, n, u * b, u * S)
    ensures RoundedTo(out, n, b, S)
  {
    hide Printed, Power, Nearest;
    var d := out.0;
    Assoc(u, b, Power(10, n - 1));
    NearestScale(Printed(out) * Power(10, n - |d|), b * Power(10, n - 1), S, u);
  }

  lemma NearestScale(R: nat, num: nat, den: nat, u: nat)
    requires u >= 1 && Nearest(R, u * num, u * den)
    ensures Nearest(R, num, den)
  {
    Group(R, u, den);
    Commute(R, u * den);
    assert R * (u * den) == u * (R * den);
    var d := R * den - num;
    assert 2 * (u * (R * den) - u * num) == (2 * d) * u && u * den == den * u;
    CancelLow(2 * d, den, u);
    CancelHigh(2 * d, den, u);
  }

  lemma RoundsToTenScale(b: nat, S: nat, u: nat)
    requires u >= 1
    ensures RoundsToTen(u * b, u * S) <==> RoundsToTen(b, S)
  {
    Ordered(u, b, 5 * S);
    Group(5, u, S);
    Assoc(u, 5, S);
    Commute(u, 5);
    Assoc(5, u, S);
  }
}
