/** The base32 codec of src/fstring.c: bit accumulators that hold 32 bits. */
module Base32 {
  import opened A = Arith

  // ----- bits, the first one the most significant

  /** The low n bits of a number. */
  function Low(v: nat, n: nat): (s: seq<bool>)
    ensures |s| == n
  {
    if n == 0 then [] else Low(v / 2, n - 1) + [v % 2 == 1]
  }

  function Num(s: seq<bool>): nat {
    if s == [] then 0 else 2 * Num(s[..|s| - 1]) + if s[|s| - 1] then 1 else 0
  }

  lemma {:induction false} NumLow(v: nat, n: nat)
    requires v < Power(2, n)
    ensures Num(Low(v, n)) == v
  {
    if n > 0 {
      assert Low(v, n)[..n - 1] == Low(v / 2, n - 1);
      NumLow(v / 2, n - 1);
    }
  }

  lemma {:induction false} LowNum(s: seq<bool>)
    ensures Num(s) < Power(2, |s|) && Low(Num(s), |s|) == s
  {
    if s != [] {
      LowNum(s[..|s| - 1]);
    }
  }

  /** The upper bits of an accumulator: a right shift. */
  lemma {:induction false} Upper(v: nat, n: nat, j: nat)
    ensures Low(v, n + j)[..n] == Low(v / Power(2, j), n)
  {
    if j == 0 {
      assert Low(v, n)[..n] == Low(v, n);
    } else {
      Upper(v / 2, n, j - 1);
      HalfThenShift(v, Power(2, j - 1));
      assert Low(v, n + j)[..n] == Low(v / 2, n + j - 1)[..n];
    }
  }

  lemma HalfThenShift(v: nat, t: nat)
    requires t >= 1
    ensures v / 2 / t == v / (2 * t)
  {
    var h, q := v / 2, v / (2 * t);
    assert 2 * t * q <= v < 2 * t * q + 2 * t;
    assert t * q <= h < t * q + t;
    A.Commute(t, q);
    Unique(h, t, q);
  }

  lemma Unique(h: nat, t: nat, q: nat)
    requires t >= 1 && t * q <= h < t * q + t
    ensures h / t == q && h % t == h - t * q
  {
    var p := h / t;
    assert t * p <= h < t * p + t;
    if p < q {
      A.OneMore(t, p, q);
    } else if q < p {
      A.OneMore(t, q, p);
    }
  }

  /** The lower bits of an accumulator. */
  lemma {:induction false} Lower(v: nat, n: nat, j: nat)
    ensures Low(v, n + j)[n..] == Low(v, j)
  {
    if j > 0 {
      Lower(v / 2, n, j - 1);
    }
  }

  /** Shifting left and filling in. */
  lemma {:induction false} Fill(v: nat, n: nat, w: nat, j: nat)
    requires w < Power(2, j)
    ensures Low(v * Power(2, j) + w, n + j) == Low(v, n) + Low(w, j)
  {
    if j > 0 {
      Fill(v, n, w / 2, j - 1);
      A.Group(2, v, Power(2, j - 1));
      assert v * Power(2, j) == 2 * (v * Power(2, j - 1));
    }
  }

  /** Bits that leave the accumulator at the top do not matter. */
  lemma {:induction false} Wrapped(v: nat, n: nat, m: nat)
    requires n <= m
    ensures Low(v % Power(2, m), n) == Low(v, n)
  {
    if n > 0 {
      HalfMod(v, Power(2, m - 1));
      Wrapped(v / 2, n - 1, m - 1);
    }
  }

  lemma HalfMod(v: nat, t: nat)
    requires t >= 1
    ensures (v % (2 * t)) / 2 == (v / 2) % t && (v % (2 * t)) % 2 == v % 2
  {
    var q, r := v / (2 * t), v % (2 * t);
    assert v == 2 * t * q + r && r < 2 * t;
    assert v == 2 * (t * q) + r;
    Unique(v / 2, t, q);
  }

  // ----- a 32-bit accumulator

  /** A group of at most j bits is shifted into the accumulator from below. */
  function Push(buffer: nat, j: nat, w: nat): nat {
    (buffer * Power(2, j)) % Power(2, 32) + w
  }

  /** The low bits of the accumulator are those it had, and the new ones. */
  lemma PushLow(buffer: nat, n: nat, j: nat, w: nat)
    requires w < Power(2, j) && n + j <= 32
    ensures Low(Push(buffer, j, w), n + j) == Low(buffer, n) + Low(w, j)
  {
    hide Low, Power;
    var t, u := Power(2, j), Power(2, 32 - j);
    PowerSum(2, 32 - j, j);
    ShiftThenOr(buffer, t, u, w);
    Wrapped(buffer * t + w, n + j, 32);
    Fill(buffer, n, w, j);
  }

  lemma ShiftThenOr(b: nat, t: nat, u: nat, w: nat)
    requires u >= 1 && w < t
    ensures u * t >= 1 && (b * t) % (u * t) + w == (b * t + w) % (u * t)
  {
    var q, x := b / u, b % u;
    assert b == u * q + x;
    A.MulLe(1, u, 1, t);
    A.Commute(t, u * q + x);
    A.Distribute(t, u * q, x);
    A.Assoc(t, u, q);
    A.Commute(t, u);
    A.Commute(t, x);
    assert b * t == (u * t) * q + x * t;
    A.OneMore(t, x, u);
    Unique(b * t, u * t, q);
    Unique(b * t + w, u * t, q);
  }

  lemma LowMod(v: nat, n: nat)
    ensures Num(Low(v, n)) == v % Power(2, n)
  {
    Wrapped(v, n, n);
    NumLow(v % Power(2, n), n);
  }

  /** The oldest n of the k bits that are held: the younger ones are shifted out, and n bits are kept. */
  lemma Oldest(buffer: nat, k: nat, n: nat)
    requires n <= k
    ensures Num(Low(buffer, k)[..n]) == (buffer / Power(2, k - n)) % Power(2, n)
    ensures Low(buffer, k)[n..] == Low(buffer, k - n)
  {
    Upper(buffer, n, k - n);
    LowMod(buffer / Power(2, k - n), n);
    Lower(buffer, n, k - n);
  }

  // ----- the code

  function Letter(v: nat): (c: Byte)
    requires v < 32
  {
    if v < 26 then 65 + v else 50 + v - 26
  }

  predicate Skipped(c: Byte) {
    c == 32 || c == 9 || c == 13 || c == 10 || c == 45
  }

  /** Digits that look like letters are read as those. */
  function Retyped(c: Byte): Byte {
    if c == 48 then 79 else if c == 49 then 76 else if c == 56 then 66 else c
  }

  function LetterValue(c: Byte): (v: int)
    ensures -1 <= v < 32
  {
    var r := Retyped(c);
    if 65 <= r <= 90 || 97 <= r <= 122 then r % 32 - 1
    else if 50 <= r <= 55 then r - (50 - 26)
    else -1
  }

  lemma LetterReads(v: nat)
    requires v < 32
    ensures LetterValue(Letter(v)) == v && !Skipped(Letter(v))
  {
  }

  ghost function BitsOf(s: seq<Byte>): (b: seq<bool>)
    ensures |b| == 8 * |s|
  {
    if s == [] then [] else Low(s[0], 8) + BitsOf(s[1..])
  }

  ghost function ZeroBits(n: nat): (z: seq<bool>)
    ensures |z| == n
  {
    seq(n, _ => false)
  }

  /** Five bits a letter; the last group is filled up with zeros. */
  ghost function Letters(b: seq<bool>): (t: seq<Byte>)
    ensures |t| == (|b| + 4) / 5
  {
    if b == [] then []
    else if |b| < 5 then [LetterOf(b + ZeroBits(5 - |b|))]
    else [LetterOf(b[..5])] + Letters(b[5..])
  }

  ghost function LetterOf(b: seq<bool>): (c: Byte)
    requires |b| == 5
  {
    LowNum(b);
    assert Power(2, 5) == 32;
    Letter(Num(b))
  }

  ghost function Equals(n: nat): seq<Byte> {
    seq(n, _ => 61)
  }

  /** What `fstr_base32_encode` returns; nothing for more than 2^28 bytes. */
  ghost function Encoded(s: seq<Byte>): seq<Byte> {
    if |s| > 0x1000_0000 then []
    else
      var t := Letters(BitsOf(s));
      t + Equals((|s| + 4) / 5 * 8 - |t|)
  }

  /** The bits of a text, up to the first character that is no letter of the code. */
  ghost function TextBits(t: seq<Byte>): seq<bool> {
    if t == [] then []
    else if Skipped(t[0]) then TextBits(t[1..])
    else if LetterValue(t[0]) < 0 then []
    else Low(LetterValue(t[0]), 5) + TextBits(t[1..])
  }

  /** The whole bytes among some bits. */
  ghost function Bytes(b: seq<bool>): seq<Byte> {
    if |b| < 8 then [] else [ByteOf(b[..8])] + Bytes(b[8..])
  }

  ghost function ByteOf(b: seq<bool>): (c: Byte)
    requires |b| == 8
  {
    LowNum(b);
    assert Power(2, 8) == 256;
    Num(b)
  }

  // ----- the alphabet

  const ALPHABET := "ABCDEFGHIJKLMNOPQRSTUVWXYZ" + "234567"
  const LOWER := "abcdefghijklmnopqrstuvwxyz"

  lemma Alphabet()
    ensures |ALPHABET| == 32 && forall v | 0 <= v < 26 :: ALPHABET[v] as int == 65 + v
    ensures forall v | 26 <= v < 32 :: ALPHABET[v] as int == 50 + v - 26
  {
  }

  lemma LowerCase()
    ensures |LOWER| == 26 && forall v | 0 <= v < 26 :: LOWER[v] as int == 97 + v
  {
  }

  /** The letters that are written. */
  lemma LetterIs(v: nat)
    requires v < 32
    ensures |ALPHABET| == 32 && Letter(v) == ALPHABET[v] as int
  {
    Alphabet();
  }

  /** A letter is read in both cases, and three digits as the letters they look like; no other character is read. */
  lemma LetterValueIs(c: Byte)
    ensures var v := LetterValue(c);
      && |ALPHABET| == 32 && |LOWER| == 26
      && (v >= 0 <==> Among(c, ALPHABET) || Among(c, LOWER) || Among(c, "018"))
      && (v >= 0 && !Among(c, "018") ==> ALPHABET[v] as int == c || (v < 26 && LOWER[v] as int == c))
      && (c == '0' as int ==> ALPHABET[v] == 'O') && (c == '1' as int ==> ALPHABET[v] == 'L')
      && (c == '8' as int ==> ALPHABET[v] == 'B')
  {
    Alphabet();
    LowerCase();
    Accepted(c);
    hide Among;
  }

  lemma Accepted(c: Byte)
    ensures Among(c, ALPHABET) <==> 65 <= c <= 90 || 50 <= c <= 55
    ensures Among(c, LOWER) <==> 97 <= c <= 122
    ensures Among(c, "018") <==> c == 48 || c == 49 || c == 56
  {
    Alphabet();
    LowerCase();
    assert 65 <= c <= 90 ==> ALPHABET[c - 65] as int == c;
    assert 50 <= c <= 55 ==> ALPHABET[c - 24] as int == c;
    assert 97 <= c <= 122 ==> LOWER[c - 97] as int == c;
    assert "018"[0] as int == 48 && "018"[1] as int == 49 && "018"[2] as int == 56;
  }

  /** Blanks, line ends and dashes are passed over, nothing else. */
  lemma SkippedIs(c: Byte)
    ensures Skipped(c) <==> Among(c, " \t\r\n-")
    ensures Skipped(c) ==> LetterValue(c) < 0
  {
    var t := " \t\r\n-";
    assert t[0] as int == 32 && t[1] as int == 9 && t[2] as int == 13 && t[3] as int == 10 && t[4] as int == 45;
  }

  // ----- what the letters and the bytes are, bit by bit

  lemma {:induction false} LowAt(v: nat, n: nat, i: nat)
    requires i < n
    ensures Low(v, n)[i] <==> v / Power(2, n - 1 - i) % 2 == 1
  {
    if i < n - 1 {
      LowAt(v / 2, n - 1, i);
      HalfThenShift(v, Power(2, n - 2 - i));
    }
  }

  /** The bits of some values, end to end. */
  ghost predicate Stream(b: seq<bool>, v: seq<nat>, w: nat)
    requires w >= 1
  {
    |b| == w * |v| && forall i | 0 <= i < |b| :: b[i] <==> BitOf(v, w, i) == 1
  }

  lemma StreamFirst(v: seq<nat>, w: nat, rest: seq<bool>)
    requires w >= 1 && v != [] && Stream(rest, v[1..], w)
    ensures Stream(Low(v[0], w) + rest, v, w)
  {
    hide Low;
    var b := Low(v[0], w) + rest;
    forall i | 0 <= i < |b|
      ensures b[i] <==> BitOf(v, w, i) == 1
    {
      if i < w {
        LowAt(v[0], w, i);
        BitAt(v, w, 0, i);
      } else {
        BitDrop(v, w, 1, i - w);
      }
    }
  }

  /** Bits as a number. */
  lemma {:induction false} NumField(b: seq<bool>, v: seq<nat>, w: nat, at: nat)
    requires w >= 1 && forall j | 0 <= j < |b| :: b[j] <==> BitOf(v, w, at + j) == 1
    ensures Num(b) == Field(v, w, at, |b|)
  {
    hide BitOf;
    if b != [] {
      NumField(b[..|b| - 1], v, w, at);
    }
  }

  lemma {:induction false} ByteStream(s: seq<Byte>)
    ensures Stream(BitsOf(s), s, 8)
  {
    if s != [] {
      ByteStream(s[1..]);
      StreamFirst(s, 8, BitsOf(s[1..]));
    }
  }

  /** Five bits, zeros past the end. */
  ghost function Five(b: seq<bool>, at: nat): (f: seq<bool>)
    ensures |f| == 5
  {
    seq(5, j requires 0 <= j => at + j < |b| && b[at + j])
  }

  lemma {:induction false} LettersAt(b: seq<bool>, k: nat)
    requires k < |Letters(b)|
    ensures Letters(b)[k] == LetterOf(Five(b, 5 * k))
  {
    hide LetterOf;
    if |b| < 5 {
      assert b + ZeroBits(5 - |b|) == Five(b, 0);
    } else if k == 0 {
      assert b[..5] == Five(b, 0);
    } else {
      LettersAt(b[5..], k - 1);
      assert Five(b[5..], 5 * (k - 1)) == Five(b, 5 * k);
    }
  }

  lemma LetterField(s: seq<Byte>, k: nat)
    requires 5 * k < 8 * |s|
    ensures Num(Five(BitsOf(s), 5 * k)) == Field(s, 8, 5 * k, 5) < 32
  {
    var f := Five(BitsOf(s), 5 * k);
    ByteStream(s);
    forall j | 0 <= j < 5
      ensures f[j] <==> BitOf(s, 8, 5 * k + j) == 1
    {
    }
    NumField(f, s, 8, 5 * k);
    LowNum(f);
    TwoEight();
  }

  /** Letter k of the encoding is the character of the alphabet that the five bits from bit 5 k on choose, zeros at the
      end; after the last bit there are equals signs. */
  lemma EncodedAt(s: seq<Byte>, k: nat)
    ensures |Encoded(s)| == if |s| > 0x1000_0000 then 0 else (|s| + 4) / 5 * 8
    ensures |ALPHABET| == 32 && Field(s, 8, 5 * k, 5) < 32
    ensures k < |Encoded(s)| ==>
      Encoded(s)[k] == (if 5 * k < 8 * |s| then ALPHABET[Field(s, 8, 5 * k, 5)] else '=') as int
  {
    hide Letters, BitsOf, Field, Letter;
    FieldBound(s, 8, 5 * k, 5);
    TwoEight();
    LetterIs(Field(s, 8, 5 * k, 5));
    if k < |Encoded(s)| && 5 * k < 8 * |s| {
      LettersAt(BitsOf(s), k);
      LetterField(s, k);
    }
  }

  /** The values of the letters of a text, up to the first character that is no letter and not passed over. */
  ghost function Read(t: seq<Byte>): seq<nat> {
    if t == [] then []
    else if Skipped(t[0]) then Read(t[1..])
    else if LetterValue(t[0]) < 0 then []
    else [LetterValue(t[0])] + Read(t[1..])
  }

  /** The text up to here has only letters and characters that are passed over. */
  predicate Readable(t: seq<Byte>) {
    forall i | 0 <= i < |t| :: Skipped(t[i]) || LetterValue(t[i]) >= 0
  }

  /** A letter gives its value, a blank or dash nothing, and any other character ends the text. */
  lemma {:induction false} ReadNext(p: seq<Byte>, c: Byte, t: seq<Byte>)
    requires Readable(p)
    ensures Read([]) == [] && Read(p + [c] + t) == Read(p) +
      if Skipped(c) then Read(t) else if LetterValue(c) < 0 then [] else [LetterValue(c)] + Read(t)
  {
    hide Skipped, LetterValue;
    if p == [] {
      assert p + [c] + t == [c] + t && ([c] + t)[1..] == t;
    } else {
      ReadNext(p[1..], c, t);
      assert (p + [c] + t)[1..] == p[1..] + [c] + t;
    }
  }

  lemma {:induction false} TextStream(t: seq<Byte>)
    ensures Stream(TextBits(t), Read(t), 5)
  {
    hide Skipped, LetterValue, Low, BitOf;
    if t != [] {
      TextStream(t[1..]);
      if !Skipped(t[0]) && LetterValue(t[0]) >= 0 {
        assert Read(t)[1..] == Read(t[1..]);
        StreamFirst(Read(t), 5, TextBits(t[1..]));
      }
    }
  }

  lemma {:induction false} BytesAt(b: seq<bool>, k: nat)
    ensures |Bytes(b)| == |b| / 8
    ensures k < |Bytes(b)| ==> Bytes(b)[k] == Num(b[8 * k..8 * k + 8])
  {
    if |b| >= 8 {
      BytesAt(b[8..], if k == 0 then 0 else k - 1);
      assert k >= 1 && k < |b| / 8 ==> b[8..][8 * (k - 1)..8 * (k - 1) + 8] == b[8 * k..8 * k + 8];
    }
  }

  /** Byte k of the decoding is the eight bits from bit 8 k on of the values; what is less than a byte at the end is
      dropped. */
  lemma DecodedAt(t: seq<Byte>, k: nat)
    ensures |Bytes(TextBits(t))| == 5 * |Read(t)| / 8
    ensures k < |Bytes(TextBits(t))| ==> Bytes(TextBits(t))[k] == Field(Read(t), 5, 8 * k, 8)
  {
    hide Bytes, TextBits, Read, BitOf;
    TextStream(t);
    BytesAt(TextBits(t), k);
    if k < |Bytes(TextBits(t))| {
      NumField(TextBits(t)[8 * k..8 * k + 8], Read(t), 5, 8 * k);
    }
  }

  // ----- decoding undoes encoding

  lemma {:induction false} LettersRead(b: seq<bool>, n: nat) returns (z: nat)
    ensures z < 5 && TextBits(Letters(b) + Equals(n)) == b + ZeroBits(z)
  {
    hide TextBits, LetterOf, Letters, Equals;
    var e := Equals(n);
    FirstLetter(b);
    EqualsRead(n);
    if b == [] {
      z := 0;
      assert Letters(b) + e == e;
      assert b + ZeroBits(0) == b;
    } else if |b| < 5 {
      z := 5 - |b|;
      var f := b + ZeroBits(z);
      OneLetter(f, [], e);
      assert Letters(b) + e == [LetterOf(f)] + e;
    } else {
      z := LettersRead(b[5..], n);
      OneLetter(b[..5], Letters(b[5..]), e);
      assert Letters(b) + e == [LetterOf(b[..5])] + (Letters(b[5..]) + e);
      assert b + ZeroBits(z) == b[..5] + (b[5..] + ZeroBits(z));
    }
  }

  lemma EqualsRead(n: nat)
    ensures TextBits(Equals(n)) == [] && (Equals(n) != [] ==> Equals(n)[0] == 61)
  {
  }

  lemma FirstLetter(b: seq<bool>)
    ensures b == [] ==> Letters(b) == []
    ensures 0 < |b| < 5 ==> Letters(b) == [LetterOf(b + ZeroBits(5 - |b|))]
    ensures |b| >= 5 ==> Letters(b) == [LetterOf(b[..5])] + Letters(b[5..])
  {
  }

  lemma OneLetter(f: seq<bool>, t: seq<Byte>, e: seq<Byte>)
    requires |f| == 5
    ensures TextBits([LetterOf(f)] + (t + e)) == f + TextBits(t + e)
    ensures e != [] && e[0] == 61 ==> TextBits(e) == []
    ensures t == [] && (e == [] || e[0] == 61) ==> TextBits([LetterOf(f)] + e) == f
  {
    LowNum(f);
    LetterReads(Num(f));
    assert ([LetterOf(f)] + (t + e))[1..] == t + e;
    assert t == [] ==> t + e == e;
  }

  lemma ByteRead(c: Byte)
    ensures ByteOf(Low(c, 8)) == c
  {
    assert Power(2, 8) == 256;
    NumLow(c, 8);
  }

  lemma {:induction false} BytesRead(s: seq<Byte>, z: seq<bool>)
    requires |z| < 8
    ensures Bytes(BitsOf(s) + z) == s
  {
    hide Low, Num, Power;
    if s != [] {
      var b := BitsOf(s) + z;
      assert b[..8] == Low(s[0], 8) && b[8..] == BitsOf(s[1..]) + z;
      ByteRead(s[0]);
      BytesRead(s[1..], z);
    }
  }

  /** Up to 2^28 bytes come back as they were. */
  lemma RoundTrip(s: seq<Byte>)
    requires |s| <= 0x1000_0000
    ensures Bytes(TextBits(Encoded(s))) == s
  {
    var t := Letters(BitsOf(s));
    var z := LettersRead(BitsOf(s), (|s| + 4) / 5 * 8 - |t|);
    BytesRead(s, ZeroBits(z));
  }

  // ----- the loops

  /** The next byte enters the accumulator. */
  lemma TakeByte(buffer: nat, k: nat, s: seq<Byte>, next: nat)
    requires k <= 24 && next < |s|
    ensures Low(Push(buffer, 8, s[next]), k + 8) + BitsOf(s[next + 1..]) == Low(buffer, k) + BitsOf(s[next..])
  {
    hide Low, Power, Push;
    TwoEight();
    PushLow(buffer, k, 8, s[next]);
    assert s[next..][0] == s[next] && s[next..][1..] == s[next + 1..];
  }

  lemma TwoEight()
    ensures Power(2, 8) == 256 && Power(2, 5) == 32
  {
  }

  /** At the end the accumulator is filled up with zeros. */
  lemma FillUp(buffer: nat, k: nat)
    requires 1 <= k < 5
    ensures Letters(Low(Push(buffer, 5 - k, 0), 5)) == Letters(Low(buffer, k))
  {
    PushLow(buffer, k, 5 - k, 0);
    LowZero(5 - k);
    var f := Low(buffer, k) + ZeroBits(5 - k);
    assert Letters(f) == [LetterOf(f[..5])] + Letters(f[5..]) && f[..5] == f;
  }

  lemma {:induction false} LowZero(n: nat)
    ensures Low(0, n) == ZeroBits(n)
  {
    if n > 0 {
      LowZero(n - 1);
    }
  }

  /** The letter that is written next, and what is left in the accumulator. */
  lemma EmitLetter(buffer: nat, k: nat, s: seq<Byte>, next: nat)
    requires k >= 5 && next <= |s|
    ensures (buffer / Power(2, k - 5)) % 32 < 32
    ensures Rest(s, buffer, k, next) == [Letter((buffer / Power(2, k - 5)) % 32)] + Rest(s, buffer, k - 5, next)
  {
    hide Low, Power, Num, BitsOf;
    TwoEight();
    Oldest(buffer, k, 5);
    var rest := BitsOf(s[next..]);
    var b := Low(buffer, k) + rest;
    assert b[..5] == Low(buffer, k)[..5] && b[5..] == Low(buffer, k)[5..] + rest;
  }

  /** What is not written yet. */
  ghost function Rest(s: seq<Byte>, buffer: nat, k: nat, next: nat): seq<Byte>
    requires next <= |s|
  {
    Letters(Low(buffer, k) + BitsOf(s[next..]))
  }

  /** At least five bits are made ready, from the next byte or from zeros. */
  method Refill(s: seq<Byte>, buffer0: nat, bitsLeft0: nat, next0: nat)
    returns (buffer: nat, bitsLeft: nat, next: nat)
    requires next0 <= |s| && (bitsLeft0 > 0 || next0 < |s|) && bitsLeft0 <= 8
    ensures next <= |s| && 5 <= bitsLeft <= 12 && next >= next0
    ensures Rest(s, buffer, bitsLeft, next) == Rest(s, buffer0, bitsLeft0, next0)
  {
    hide Letters, Low, BitsOf, Push;
    buffer, bitsLeft, next := buffer0, bitsLeft0, next0;
    if bitsLeft < 5 {
      if next < |s| {
        TakeByte(buffer, bitsLeft, s, next);
        buffer, next := Push(buffer, 8, s[next]), next + 1;
        bitsLeft := bitsLeft + 8;
      } else {
        NoMore(s, next, Low(buffer, bitsLeft));
        FillUp(buffer, bitsLeft);
        buffer := Push(buffer, 5 - bitsLeft, 0);
        bitsLeft := 5;
        NoMore(s, next, Low(buffer, bitsLeft));
      }
    }
  }

  method WriteLetters(s: seq<Byte>, output: array<Byte>) returns (pos: nat)
    requires s != [] && output.Length == (|s| + 4) / 5 * 8
    modifies output
    ensures pos <= output.Length && output[..pos] == Letters(BitsOf(s))
  {
    hide *;
    var buffer: nat, next: nat, bitsLeft: nat := s[0], 1, 8;
    pos := 0;
    Started(s);
    while pos < output.Length && (bitsLeft > 0 || next < |s|)
      invariant next <= |s| && bitsLeft <= 8 && pos <= output.Length
      invariant output[..pos] + Rest(s, buffer, bitsLeft, next) == Letters(BitsOf(s))
      decreases output.Length - pos
    {
      buffer, bitsLeft, next := Refill(s, buffer, bitsLeft, next);
      EmitLetter(buffer, bitsLeft, s, next);
      ghost var done := output[..pos];
      output[pos] := Letter((buffer / Power(2, bitsLeft - 5)) % 32);
      assert output[..pos + 1] == done + [output[pos]];
      Assoc(done, output[pos], Rest(s, buffer, bitsLeft - 5, next));
      pos := pos + 1;
      bitsLeft := bitsLeft - 5;
    }
    AllOut(s, output[..pos], buffer, bitsLeft, next, pos, output.Length);
  }

  lemma Assoc(a: seq<Byte>, c: Byte, b: seq<Byte>)
    ensures a + ([c] + b) == a + [c] + b
  {
  }

  /** `fstr_base32_encode`. */
  method Encode(s: seq<Byte>) returns (output: array<Byte>)
    ensures fresh(output) && output[..] == Encoded(s)
  {
    if |s| == 0 || |s| > 0x1000_0000 {
      output := new Byte[0];
      return;
    }
    hide Letters, BitsOf, Equals, Encoded;
    var size: nat := (|s| + 4) / 5 * 8;
    output := new Byte[size](_ => 0);
    var pos := WriteLetters(s, output);
    ghost var whole := output[..pos];
    MoreEquals(0, whole);
    while pos < size
      invariant |whole| <= pos <= size && output[..pos] == whole + Equals(pos - |whole|)
    {
      output[pos] := 61;
      MoreEquals(pos - |whole|, whole);
      assert output[..pos + 1] == output[..pos] + [61];
      pos := pos + 1;
    }
    assert output[..] == output[..pos];
    EncodedIs(s, size);
  }

  lemma Started(s: seq<Byte>)
    requires s != []
    ensures [] + Rest(s, s[0], 8, 1) == Letters(BitsOf(s))
  {
  }

  lemma NoMore(s: seq<Byte>, next: nat, b: seq<bool>)
    requires next == |s|
    ensures b + BitsOf(s[next..]) == b
  {
  }

  /** When the loop ends, everything is written. */
  lemma AllOut(s: seq<Byte>, done: seq<Byte>, buffer: nat, k: nat, next: nat, pos: nat, size: nat)
    requires next <= |s| && pos == |done| <= size == (|s| + 4) / 5 * 8
    requires done + Rest(s, buffer, k, next) == Letters(BitsOf(s))
    requires pos >= size || (k == 0 && next == |s|)
    ensures done == Letters(BitsOf(s))
  {
    var rest := Rest(s, buffer, k, next);
    assert |done| + |rest| == |Letters(BitsOf(s))| <= size;
    if k == 0 && next == |s| {
      NoMore(s, next, Low(buffer, 0));
    }
    assert rest == [];
  }

  lemma MoreEquals(n: nat, t: seq<Byte>)
    ensures t + Equals(0) == t && t + Equals(n + 1) == t + Equals(n) + [61]
  {
  }

  lemma EncodedIs(s: seq<Byte>, size: nat)
    requires 1 <= |s| <= 0x1000_0000 && size == (|s| + 4) / 5 * 8
    ensures |Letters(BitsOf(s))| <= size
    ensures Encoded(s) == Letters(BitsOf(s)) + Equals(size - |Letters(BitsOf(s))|)
  {
  }

  // ----- decoding

  /** What is not decoded yet: whole bytes among the bits held and those to come. */
  ghost function ToCome(t: seq<Byte>, buffer: nat, k: nat, i: nat): seq<Byte>
    requires i <= |t|
  {
    Bytes(Low(buffer, k) + TextBits(t[i..]))
  }

  /** What a character does to what is still to come. */
  lemma ReadLetter(t: seq<Byte>, buffer: nat, k: nat, i: nat)
    requires i < |t| && k < 8
    ensures Skipped(t[i]) ==> ToCome(t, buffer, k, i) == ToCome(t, buffer, k, i + 1)
    ensures !Skipped(t[i]) && LetterValue(t[i]) < 0 ==> ToCome(t, buffer, k, i) == []
    ensures !Skipped(t[i]) && LetterValue(t[i]) >= 0 ==>
      ToCome(t, buffer, k, i) == ToCome(t, Push(buffer, 5, LetterValue(t[i])), k + 5, i + 1)
  {
    hide Low, Power, Push, Retyped;
    TwoEight();
    assert t[i..][0] == t[i] && t[i..][1..] == t[i + 1..];
    if !Skipped(t[i]) && LetterValue(t[i]) >= 0 {
      var v, rest := LetterValue(t[i]), TextBits(t[i + 1..]);
      PushLow(buffer, k, 5, v);
      assert Low(buffer, k) + (Low(v, 5) + rest) == Low(buffer, k) + Low(v, 5) + rest;
    }
  }

  /** A byte is complete. */
  lemma EmitByte(t: seq<Byte>, buffer: nat, k: nat, i: nat)
    requires i <= |t| && k >= 8
    ensures (buffer / Power(2, k - 8)) % 256 < 256
    ensures ToCome(t, buffer, k, i) == [(buffer / Power(2, k - 8)) % 256] + ToCome(t, buffer, k - 8, i)
  {
    hide Low, Power, Num, TextBits;
    TwoEight();
    Oldest(buffer, k, 8);
    var rest := TextBits(t[i..]);
    var b := Low(buffer, k) + rest;
    assert b[..8] == Low(buffer, k)[..8] && b[8..] == Low(buffer, k)[8..] + rest;
  }

  lemma NothingToCome(t: seq<Byte>, buffer: nat, k: nat)
    requires k < 8
    ensures ToCome(t, buffer, k, |t|) == []
  {
  }

  lemma AllToCome(t: seq<Byte>)
    ensures [] + ToCome(t, 0, 0, 0) == Bytes(TextBits(t))
  {
    assert t[0..] == t;
    assert Low(0, 0) + TextBits(t) == TextBits(t);
    assert [] + ToCome(t, 0, 0, 0) == ToCome(t, 0, 0, 0);
  }

  /** `fstr_base32_decode`. */
  method Decode(t: seq<Byte>) returns (output: array<Byte>, len: nat)
    ensures fresh(output) && len <= output.Length && output[..len] == Bytes(TextBits(t))
  {
    hide *;
    output := new Byte[|t|](_ => 0);
    var buffer: nat, bitsLeft: nat := 0, 0;
    len := 0;
    AllToCome(t);
    for i := 0 to |t|
      invariant bitsLeft < 8 && 8 * len + bitsLeft <= 5 * i
      invariant output[..len] + ToCome(t, buffer, bitsLeft, i) == Bytes(TextBits(t))
    {
      ReadLetter(t, buffer, bitsLeft, i);
      if Skipped(t[i]) {
        continue;
      }
      var v := LetterValue(t[i]);
      if v < 0 {
        return;
      }
      buffer := Push(buffer, 5, v);
      bitsLeft := bitsLeft + 5;
      if bitsLeft >= 8 {
        EmitByte(t, buffer, bitsLeft, i + 1);
        ghost var done := output[..len];
        output[len] := (buffer / Power(2, bitsLeft - 8)) % 256;
        assert output[..len + 1] == done + [output[len]];
        Assoc(done, output[len], ToCome(t, buffer, bitsLeft - 8, i + 1));
        len := len + 1;
        bitsLeft := bitsLeft - 8;
      }
    }
    NothingToCome(t, buffer, bitsLeft);
  }
}
