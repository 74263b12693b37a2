/** 128-bit checked arithmetic (src/arithmetic.c) and the number parser and printer of src/fstring.c. */
module Numbers {
  import opened Arith

  const LIMIT: nat := 0x1_0000_0000_0000_0000_0000_0000_0000_0000

  lemma LimitIs()
    ensures LIMIT == Power(2, 128)
  {
    hide Power;
    PowersOfTwo();
    PowerSum(2, 4, 4);
    PowerSum(2, 8, 8);
    PowerSum(2, 16, 16);
    PowerSum(2, 32, 32);
    PowerSum(2, 64, 64);
  }

  // ----- checked arithmetic

  /** `arth_safe_add_uint128`: fails exactly when the sum does not fit. */
  function SafeAdd(a: nat, b: nat): (r: (bool, nat))
    requires a < LIMIT && b < LIMIT
    ensures r.0 <==> a + b < LIMIT
    ensures r == if a + b < LIMIT then (true, a + b) else (false, 0)
  {
    if b > 0 && a > LIMIT - 1 - b then (false, 0) else (true, a + b)
  }

  /** `arth_safe_mul_uint128`: fails exactly when the product does not fit, and always for a second factor zero. */
  function SafeMul(a: nat, b: nat): (r: (bool, nat))
    requires a < LIMIT && b < LIMIT
    ensures r.0 <==> b > 0 && a * b < LIMIT
    ensures r.0 ==> r.1 == a * b
  {
    if b == 0 then (false, 0)
    else
      QuotientBound(a, b, LIMIT - 1);
      if a > (LIMIT - 1) / b then (false, 0) else (true, a * b)
  }

  lemma QuotientBound(a: nat, b: nat, m: nat)
    requires b > 0
    ensures a > m / b <==> a * b > m
  {
    var q := m / b;
    assert b * q <= m < b * q + b;
    Commute(a, b);
    if a > q {
      OneMore(b, q, a);
    } else {
      MulLe(b, b, a, q);
    }
  }

  // ----- digits

  /** The value of a character: 0-9, then letters of either case from 10; -1 for all others. */
  function Digit(c: Byte): (v: int)
    ensures -1 <= v < 36
  {
    if 48 <= c <= 57 then c - 48
    else if 65 <= c <= 90 then c - 65 + 10
    else if 97 <= c <= 122 then c - 97 + 10
    else -1
  }

  /** Printed digits are lowercase. */
  function Numeral(v: nat): (c: Byte)
    requires v < 36
    ensures Digit(c) == v
  {
    if v < 10 then 48 + v else 97 + v - 10
  }

  predicate Counts(c: Byte, base: nat) {
    0 <= Digit(c) < base
  }

  /** The number that the digits of a text denote; characters that are no digits of the base are passed over. */
  function Value(s: seq<Byte>, base: nat): nat {
    if s == [] then 0
    else
      var rest, c := Value(s[..|s| - 1], base), s[|s| - 1];
      if Counts(c, base) then base * rest + Digit(c) else rest
  }

  /** The power of the base that has as many zeros as the text has digits. */
  function Weight(s: seq<Byte>, base: nat): nat {
    if s == [] then 1
    else if Counts(s[|s| - 1], base) then base * Weight(s[..|s| - 1], base)
    else Weight(s[..|s| - 1], base)
  }

  // ----- what counts as a digit

  const NUMERALS := "0123456789" + "abcdefghijklmnopqrstuvwxyz"
  const CAPITALS := "0123456789" + "ABCDEFGHIJKLMNOPQRSTUVWXYZ"

  lemma Tables()
    ensures |NUMERALS| == |CAPITALS| == 36
    ensures forall v | 0 <= v < 10 :: NUMERALS[v] as int == CAPITALS[v] as int == 48 + v
    ensures forall v | 10 <= v < 36 :: NUMERALS[v] as int == 97 + v - 10 && CAPITALS[v] as int == 65 + v - 10
  {
  }

  /** Digits above nine are printed as lowercase letters. */
  lemma NumeralIs(v: nat)
    requires v < 36
    ensures |NUMERALS| == 36 && Numeral(v) == NUMERALS[v] as int
  {
    Tables();
  }

  /** A character counts for its place in either table, and for no other. */
  lemma DigitIs(c: Byte, v: nat)
    requires v < 36
    ensures |NUMERALS| == |CAPITALS| == 36
    ensures Digit(c) == v <==> c == NUMERALS[v] as int || c == CAPITALS[v] as int
  {
    Tables();
  }

  /** The digits of a base are the first ones of the tables. */
  lemma CountsIs(c: Byte, base: nat)
    requires base <= 36
    ensures |NUMERALS| == |CAPITALS| == 36
    ensures Counts(c, base) <==> Among(c, NUMERALS[..base]) || Among(c, CAPITALS[..base])
  {
    Tables();
    if Counts(c, base) {
      var v := Digit(c);
      DigitIs(c, v);
      assert NUMERALS[..base][v] == NUMERALS[v] && CAPITALS[..base][v] == CAPITALS[v];
    }
    if Among(c, NUMERALS[..base]) {
      var v :| 0 <= v < base && NUMERALS[..base][v] as int == c;
      DigitIs(c, v);
    }
    if Among(c, CAPITALS[..base]) {
      var v :| 0 <= v < base && CAPITALS[..base][v] as int == c;
      DigitIs(c, v);
    }
  }

  /** What one more character makes of a number: a digit of the base in either case is put behind it, and every other
      character changes nothing. */
  lemma ValueNext(p: seq<Byte>, c: Byte, base: nat, v: nat)
    requires v < base <= 36
    ensures |NUMERALS| == |CAPITALS| == 36 && Value([], base) == 0
    ensures c == NUMERALS[v] as int || c == CAPITALS[v] as int ==> Value(p + [c], base) == base * Value(p, base) + v
    ensures !Among(c, NUMERALS[..base]) && !Among(c, CAPITALS[..base]) ==> Value(p + [c], base) == Value(p, base)
  {
    hide Digit, Among;
    DigitIs(c, v);
    CountsIs(c, base);
    assert (p + [c])[..|p|] == p;
  }

  /** The same character, or a letter and its capital. */
  ghost predicate SameLetter(c: Byte, d: Byte) {
    c == d || exists v | 0 <= v < |NUMERALS| && v < |CAPITALS| :: c == CAPITALS[v] as int && d == NUMERALS[v] as int
  }

  /** Case does not matter. */
  lemma {:induction false} CaseIgnored(s: seq<Byte>, t: seq<Byte>, base: nat)
    requires |s| == |t| && forall i | 0 <= i < |s| :: SameLetter(s[i], t[i])
    ensures Value(s, base) == Value(t, base)
  {
    hide Digit;
    if s != [] {
      var c, d := s[|s| - 1], t[|s| - 1];
      CaseIgnored(s[..|s| - 1], t[..|s| - 1], base);
      assert SameLetter(c, d);
      if c != d {
        Tables();
        var v :| 0 <= v < 36 && c == CAPITALS[v] as int && d == NUMERALS[v] as int;
        DigitIs(c, v);
        DigitIs(d, v);
      }
    }
  }

  lemma {:induction false} ValueFront(c: Byte, t: seq<Byte>, base: nat)
    ensures Value([c] + t, base) == (if Counts(c, base) then Digit(c) * Weight(t, base) else 0) + Value(t, base)
    ensures Weight([c] + t, base) == if Counts(c, base) then base * Weight(t, base) else Weight(t, base)
  {
    var s := [c] + t;
    var n := |t|;
    if t == [] {
      assert s[..0] == [];
    } else {
      var u := t[..n - 1];
      assert s[..n] == [c] + u;
      ValueFront(c, u, base);
      if Counts(t[n - 1], base) {
        if Counts(c, base) {
          Shift(base, Digit(c), Weight(u, base), Value(u, base));
        }
      }
    }
  }

  lemma Shift(base: nat, d: nat, w: nat, v: nat)
    ensures base * (d * w + v) == d * (base * w) + base * v
  {
    Distribute(base, d * w, v);
    Group(d, base, w);
    assert base * (d * w) == d * (base * w);
  }

  lemma {:induction false} ValueGrows(p: seq<Byte>, t: seq<Byte>, base: nat)
    ensures Value(p + t, base) >= Value(t, base)
  {
    hide Value, Weight, Digit;
    if p == [] {
      assert p + t == t;
    } else {
      var u := p[1..] + t;
      assert p + t == [p[0]] + u;
      ValueFront(p[0], u, base);
      ValueGrows(p[1..], t, base);
    }
  }

  lemma {:induction false} WeightPositive(s: seq<Byte>, base: nat)
    requires base >= 1
    ensures Weight(s, base) >= 1
  {
    if s != [] {
      WeightPositive(s[..|s| - 1], base);
      AtLeast(base, Weight(s[..|s| - 1], base));
    }
  }

  /** `fstr_unserial_uint`: succeeds exactly when the base is from 2 to 36 and the number is below 2^128. */
  method UnserialUint(s: seq<Byte>, base: nat) returns (ok: bool, out: nat)
    ensures ok <==> 2 <= base <= 36 && Value(s, base) < LIMIT
    ensures ok ==> out == Value(s, base)
  {
    if base < 2 || base > 36 {
      return false, 0;
    }
    hide Value, Weight, Digit;
    var mulOverflow := false;
    var mul, result := 1, 0;
    var ptr := |s|;
    Empty(base);
    assert s[|s|..] == [];
    while ptr > 0
      invariant 0 <= ptr <= |s| && result == Value(s[ptr..], base) < LIMIT
      invariant if mulOverflow then Weight(s[ptr..], base) >= LIMIT else mul == Weight(s[ptr..], base) < LIMIT
    {
      ghost var t := s[ptr..];
      ptr := ptr - 1;
      assert s[ptr..] == [s[ptr]] + t && s == s[..ptr] + s[ptr..];
      ValueFront(s[ptr], t, base);
      ValueGrows(s[..ptr], s[ptr..], base);
      var v := Digit(s[ptr]);
      if v < 0 || v >= base {
        continue;
      }
      WeightPositive(t, base);
      if !mulOverflow {
        if v > 0 {
          var product := SafeMul(v, mul);
          if !product.0 {
            return false, 0;
          }
          var sum := SafeAdd(result, product.1);
          if !sum.0 {
            return false, 0;
          }
          result := sum.1;
        }
        Commute(base, mul);
        var next := SafeMul(mul, base);
        if next.0 {
          mul := next.1;
        } else {
          mulOverflow := true;
        }
      } else {
        MulLe(1, base, Weight(t, base), Weight(t, base));
        if v > 0 {
          MulLe(1, v, Weight(t, base), Weight(t, base));
          return false, 0;
        }
      }
    }
    assert s[0..] == s;
    return true, result;
  }

  lemma Empty(base: nat)
    ensures Value([], base) == 0 && Weight([], base) == 1
  {
  }

  // ----- printing

  /** The digits of a number, without leading zeros. */
  function Numerals(i: nat, base: nat): (d: seq<Byte>)
    requires 2 <= base <= 36
    ensures d != []
    decreases i
  {
    if i < base then [Numeral(i)]
    else
      Divided(i, base);
      Numerals(Quot(i, base), base) + [Numeral(Rem(i, base))]
  }

  function Quot(i: nat, base: nat): nat
    requires base > 0
  {
    i / base
  }

  function Rem(i: nat, base: nat): nat
    requires base > 0
  {
    i % base
  }

  lemma Divided(i: nat, base: nat)
    requires base >= 2
    ensures base * Quot(i, base) + Rem(i, base) == i && Rem(i, base) < base
    ensures Quot(i, base) == 0 <==> i < base
    ensures i >= 1 ==> Quot(i, base) < i
    ensures i < base ==> Rem(i, base) == i
  {
    var q := Quot(i, base);
    QuotientBound(1, base, i);
    MulLe(2, base, q, q);
  }

  /** What is printed denotes the number, and starts with a zero only if it is zero. */
  lemma {:induction false} NumeralsValue(i: nat, base: nat)
    requires 2 <= base <= 36
    ensures Value(Numerals(i, base), base) == i
    ensures Digit(Numerals(i, base)[0]) == 0 ==> i == 0
    decreases i
  {
    hide Value, Numeral, Quot, Rem;
    Empty(base);
    Divided(i, base);
    if i < base {
      ValueLast([], Numeral(i), base);
      assert [] + [Numeral(i)] == [Numeral(i)];
    } else {
      var q, r := Quot(i, base), Rem(i, base);
      NumeralsValue(q, base);
      ValueLast(Numerals(q, base), Numeral(r), base);
    }
  }

  lemma ValueLast(p: seq<Byte>, c: Byte, base: nat)
    requires Counts(c, base)
    ensures Value(p + [c], base) == base * Value(p, base) + Digit(c)
  {
    assert (p + [c])[..|p|] == p;
  }

  function Zeros(n: nat): seq<Byte> {
    if n == 0 then [] else [Numeral(0)] + Zeros(n - 1)
  }

  /** Padding does not change the number. */
  lemma {:induction false} PaddedValue(n: nat, d: seq<Byte>, base: nat)
    requires base >= 2
    ensures Value(Zeros(n) + d, base) == Value(d, base) && |Zeros(n)| == n
  {
    if n == 0 {
      assert Zeros(0) + d == d;
    } else {
      PaddedValue(n - 1, d, base);
      assert Zeros(n) + d == [Numeral(0)] + (Zeros(n - 1) + d);
      ValueFront(Numeral(0), Zeros(n - 1) + d, base);
    }
  }

  /** The contents of a buffer of n bytes: the number at the right, zeros before it; or as many of its last digits
      as fit. */
  function Printed(i: nat, base: nat, n: nat): seq<Byte>
    requires 2 <= base <= 36
  {
    var d := Numerals(i, base);
    if |d| <= n then Zeros(n - |d|) + d else d[|d| - n..]
  }

  /** A number has at most n digits exactly if it is less than the power of the base with n zeros. */
  lemma {:induction false} NumeralsLength(i: nat, base: nat, n: nat)
    requires 2 <= base <= 36 && n >= 1
    ensures |Numerals(i, base)| <= n <==> i < Power(base, n)
    decreases n
  {
    hide Numeral, Quot, Rem;
    Divided(i, base);
    assert Power(base, n) == base * Power(base, n - 1);
    if i < base {
      AtLeast(base, Power(base, n - 1));
    } else if n == 1 {
      assert Power(base, 0) == 1;
    } else {
      NumeralsLength(Quot(i, base), base, n - 1);
      Scaled(i, base, Power(base, n - 1));
    }
  }

  /** A quotient is below a number exactly if the dividend is below its multiple. */
  lemma Scaled(i: nat, base: nat, p: nat)
    requires base >= 2
    ensures Quot(i, base) < p <==> i < base * p
  {
    Divided(i, base);
    if Quot(i, base) < p {
      OneMore(base, Quot(i, base), p);
    } else {
      MulLe(base, base, p, Quot(i, base));
    }
  }

  /** The digit that stands j places before the end, zeros before the number. */
  lemma {:induction false} DigitAt(i: nat, base: nat, j: nat)
    requires 2 <= base <= 36
    ensures Power(base, j) >= 1 && (i / Power(base, j)) % base < 36
    ensures var d := Numerals(i, base);
      Numeral((i / Power(base, j)) % base) == if j < |d| then d[|d| - 1 - j] else Numeral(0)
    decreases j
  {
    hide Numeral;
    Divided(i, base);
    if j > 0 {
      Quotients(i, base, Power(base, j - 1));
      DigitAt(Quot(i, base), base, j - 1);
      NoQuotient(i, base, Power(base, j - 1));
    }
  }

  lemma NoQuotient(i: nat, base: nat, p: nat)
    requires base >= 1 && p >= 1
    ensures i < base ==> i / base == 0 && i / base / p == 0 && 0 % base == 0
  {
    if i < base {
      QuotientIs(i, base, 0, i);
      QuotientIs(0, p, 0, 0);
      QuotientIs(0, base, 0, 0);
    }
  }

  lemma {:induction false} ZeroAt(n: nat, k: nat)
    ensures |Zeros(n)| == n && (k < n ==> Zeros(n)[k] == Numeral(0))
  {
    hide Numeral;
    if n > 0 {
      ZeroAt(n - 1, if k > 0 then k - 1 else 0);
    }
  }

  /** What stands in each byte of a buffer of n bytes, whether the number fits or not: byte k is the numeral of the
      digit with weight base^(n - 1 - k). */
  lemma PrintedAt(i: nat, base: nat, n: nat, k: nat)
    requires 2 <= base <= 36 && k < n
    ensures Power(base, n - 1 - k) >= 1 && (i / Power(base, n - 1 - k)) % base < |NUMERALS| == 36
    ensures |Printed(i, base, n)| == n
    ensures Printed(i, base, n)[k] == NUMERALS[(i / Power(base, n - 1 - k)) % base] as int
  {
    hide Numeral, Power;
    DigitAt(i, base, n - 1 - k);
    NumeralIs((i / Power(base, n - 1 - k)) % base);
    var d := Numerals(i, base);
    ZeroAt(if n >= |d| then n - |d| else 0, k);
  }

  /** The same for the number without zeros before it. */
  lemma NumeralsAt(i: nat, base: nat, k: nat)
    requires 2 <= base <= 36 && k < |Numerals(i, base)|
    ensures var p := Power(base, |Numerals(i, base)| - 1 - k);
      && p >= 1 && (i / p) % base < |NUMERALS| == 36
      && Numerals(i, base)[k] == NUMERALS[(i / p) % base] as int
  {
    hide Numerals, Numeral, Power;
    var j := |Numerals(i, base)| - 1 - k;
    DigitAt(i, base, j);
    NumeralIs((i / Power(base, j)) % base);
  }

  /** The number fits into the buffer: what a caller has to see to. */
  predicate Fits(i: nat, base: nat, n: nat) {
    i < Power(base, n)
  }

  /** `fstr_serial_uint`: fills the buffer from the right, and returns the slice from the last digit written on. If the
      number does not fit, that slice starts one byte before the buffer. */
  method SerialUint(dest: array<Byte>, i: nat, base: nat) returns (start: int, len: nat)
    modifies dest
    ensures dest.Length == 0 || base < 2 || base > 36 ==> dest[..] == old(dest[..]) && start == len == 0
    ensures dest.Length > 0 && 2 <= base <= 36 ==>
      && dest[..] == Printed(i, base, dest.Length) && start + len == dest.Length
      && (Fits(i, base, dest.Length) ==> 0 <= start && dest[start..] == Numerals(i, base))
      && (!Fits(i, base, dest.Length) ==> start == -1)
  {
    if dest.Length == 0 || base < 2 || base > 36 {
      return 0, 0;
    }
    hide *;
    ghost var d := Numerals(i, base);
    var dst: int, cur: nat := dest.Length - 1, i;
    assert d == Numerals(cur, base) + dest[dest.Length..];
    while true
      invariant 0 <= dst < dest.Length && d == Numerals(cur, base) + dest[dst + 1..]
      decreases dst
    {
      Last(cur, base);
      ghost var done := dest[dst + 1..];
      dest[dst] := Numeral(Rem(cur, base));
      assert dest[dst..] == [Numeral(Rem(cur, base))] + done;
      cur := Quot(cur, base);
      if cur == 0 {
        break;
      }
      Regroup(Numerals(cur, base), dest[dst], done);
      dst := dst - 1;
      if dst < 0 {
        assert dest[..] == dest[0..];
        Tail(Numerals(cur, base), dest[..]);
        break;
      }
    }
    NumeralsLength(i, base, dest.Length);
    FitsMeans(i, base, dest.Length);
    start, len := dst, dest.Length - dst;
    Pad(dest, dst, d);
    PrintedIs(i, base, dest.Length);
  }

  lemma FitsMeans(i: nat, base: nat, n: nat)
    ensures Fits(i, base, n) <==> i < Power(base, n)
  {
  }

  /** The smallest case: ten in one byte gives a slice of two bytes, of which the first is not in the buffer. */
  method TenInOneByte() returns (start: int, len: nat)
    ensures start == -1 && len == 2
  {
    var dest := new Byte[1](_ => 0);
    assert !Fits(10, 10, 1) by {
      assert Power(10, 1) == 10 * Power(10, 0);
    }
    start, len := SerialUint(dest, 10, 10);
  }

  lemma PrintedIs(i: nat, base: nat, n: nat)
    requires 2 <= base <= 36
    ensures var d := Numerals(i, base);
      Printed(i, base, n) == if |d| <= n then Zeros(n - |d|) + d else d[|d| - n..]
  {
  }

  lemma Regroup(a: seq<Byte>, c: Byte, b: seq<Byte>)
    ensures a + [c] + b == a + ([c] + b)
  {
  }

  lemma Tail(a: seq<Byte>, b: seq<Byte>)
    ensures (a + b)[|a|..] == b
  {
  }

  /** The zeros before the number. */
  method Pad(dest: array<Byte>, end: int, ghost d: seq<Byte>)
    requires -1 <= end < dest.Length && (end >= 0 ==> dest[end..] == d)
    modifies dest
    ensures end >= 0 ==> dest[..] == Zeros(dest.Length - |d|) + d && dest[end..] == d
    ensures end < 0 ==> dest[..] == old(dest[..])
  {
    hide Zeros, Numeral;
    var dst := end;
    MoreZeros(0, d);
    dst := dst - 1;
    while dst >= 0
      invariant -2 <= dst < end || dst == end - 1
      invariant end < 0 ==> dest[..] == old(dest[..])
      invariant end >= 0 ==> -1 <= dst && dest[dst + 1..] == Zeros(end - 1 - dst) + d && dest[end..] == d
    {
      ghost var done := dest[dst + 1..];
      dest[dst] := Numeral(0);
      assert dest[dst..] == [Numeral(0)] + done;
      MoreZeros(end - 1 - dst, d);
      dst := dst - 1;
    }
    if end >= 0 {
      assert dest[..] == dest[0..];
    }
  }

  lemma MoreZeros(n: nat, d: seq<Byte>)
    ensures Zeros(0) + d == d && Zeros(n + 1) + d == [Numeral(0)] + (Zeros(n) + d)
  {
  }

  /** The last digit, and the digits before it. */
  lemma Last(i: nat, base: nat)
    requires 2 <= base <= 36
    ensures Rem(i, base) < base
    ensures if Quot(i, base) == 0 then Numerals(i, base) == [Numeral(Rem(i, base))]
      else Numerals(i, base) == Numerals(Quot(i, base), base) + [Numeral(Rem(i, base))]
  {
    hide Quot, Rem, Numeral;
    Divided(i, base);
  }

  /** The calls for which the division loop ends: base zero divides by zero, base one never makes a number smaller. */
  predicate Divisible(i: nat, base: nat) {
    base >= 2 || (base == 1 && i == 0)
  }

  /** The number of digits: the power of the base with so many zeros is above the number, and none before is. */
  predicate HasDigits(i: nat, base: nat, len: nat) {
    len >= 1 && i < Power(base, len) && (len > 1 ==> Power(base, len - 1) <= i)
  }

  /** The quotient of i by the power p. */
  predicate Divides(i: nat, cur: nat, p: nat) {
    p * cur <= i < p * cur + p
  }

  lemma DividesNext(i: nat, cur: nat, base: nat, p: nat)
    requires base >= 1 && p >= 1 && Divides(i, cur, p)
    ensures Divides(i, Quot(cur, base), base * p)
  {
    var q, r := Quot(cur, base), Rem(cur, base);
    assert cur == base * q + r && r < base;
    Assoc(p, base, q);
    Commute(p, base);
    Distribute(p, base * q, r);
    OneMore(p, r, base);
  }

  /** `fstr_measure_serialized_integer`: for every base, whether it can be printed or not. */
  method Measure(i: nat, base: nat) returns (len: nat)
    requires Divisible(i, base)
    ensures HasDigits(i, base, len)
    ensures 2 <= base <= 36 ==> len == |Numerals(i, base)|
  {
    hide Quot, Rem, Numerals, Divides;
    len := 1;
    var cur: nat := i;
    ghost var p := 1;
    StartsWhole(i);
    while true
      invariant len >= 1 && p == Power(base, len - 1) && Divides(i, cur, p) && (len > 1 ==> cur >= 1)
      decreases cur
    {
      DividesNext(i, cur, base, p);
      DividedEnds(i, cur, p, base);
      cur := Quot(cur, base);
      if cur == 0 {
        break;
      }
      len, p := len + 1, base * p;
    }
    if 2 <= base <= 36 {
      DigitsCounted(i, base, len);
    }
  }

  lemma StartsWhole(i: nat)
    ensures Divides(i, i, 1)
  {
  }

  /** A quotient that is not zero leaves the power below the number, and one that is zero leaves it above; quotients
      get smaller. */
  lemma DividedEnds(i: nat, cur: nat, p: nat, base: nat)
    requires Divisible(i, base) && p >= 1 && Divides(i, cur, p)
    ensures cur >= 1 ==> p <= i
    ensures Quot(cur, base) == 0 ==> i < base * p
    ensures Quot(cur, base) != 0 ==> Quot(cur, base) < cur
  {
    DividesNext(i, cur, base, p);
    if cur >= 1 {
      AtLeast(p, cur);
    }
    if base >= 2 {
      Divided(cur, base);
    }
  }

  lemma DigitsCounted(i: nat, base: nat, len: nat)
    requires 2 <= base <= 36 && HasDigits(i, base, len)
    ensures len == |Numerals(i, base)|
  {
    hide Numerals, Power;
    NumeralsLength(i, base, len);
    if len > 1 {
      NumeralsLength(i, base, len - 1);
    }
  }

  /** `fstr_from_uint_pad`: what it prints, the parser reads back. With a base that cannot be printed the text is
      whatever the memory held that it was allocated in. */
  method FromUintPad(i: nat, base: nat, padding: nat, memory: nat -> Byte) returns (text: array<Byte>)
    requires Divisible(i, base)
    ensures fresh(text) && text.Length >= padding
    ensures text.Length > padding ==> HasDigits(i, base, text.Length)
    ensures 2 <= base <= 36 ==>
      Value(text[..], base) == i && (text.Length > padding ==> text[..] == Numerals(i, base))
    ensures base < 2 || base > 36 ==> forall k | 0 <= k < text.Length :: text[k] == memory(k)
  {
    hide Numerals, Zeros, Value, Power;
    var len := Measure(i, base);
    var n: nat := if padding > len then padding else len;
    text := new Byte[n](k requires 0 <= k < n => memory(k));
    assert n >= len >= 1;
    ghost var before := text[..];
    assert forall k | 0 <= k < n :: before[k] == memory(k);
    var start, used := SerialUint(text, i, base);
    if 2 <= base <= 36 {
      NumeralsValue(i, base);
      PaddedValue(n - len, Numerals(i, base), base);
      MoreZeros(0, Numerals(i, base));
    } else {
      assert forall k | 0 <= k < n :: text[k] == text[..][k] == before[k];
    }
  }

  /** Printing and parsing undo each other for every 128-bit number and every base. */
  method RoundTrip(i: nat, base: nat, padding: nat, memory: nat -> Byte) returns (ok: bool, out: nat)
    requires i < LIMIT && 2 <= base <= 36
    ensures ok && out == i
  {
    var text := FromUintPad(i, base, padding, memory);
    ok, out := UnserialUint(text[..], base);
  }
}
