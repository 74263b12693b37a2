/** The base64 codec of src/fstring.c. Masks and shifts of bytes are written as remainders and quotients. */
module Base64 {
  import opened Arith

  /** `fstr_base64_alpha`. */
  function Letter(v: nat): (c: Byte)
    requires v < 64
  {
    if v < 26 then 65 + v
    else if v < 52 then 97 + v - 26
    else if v < 62 then 48 + v - 52
    else if v == 62 then 43
    else 47
  }

  /** `fstr_base64_value`, with -1 also for bytes past its end. */
  function LetterValue(c: Byte): (v: int)
    ensures -1 <= v < 64
  {
    if 65 <= c <= 90 then c - 65
    else if 97 <= c <= 122 then c - 97 + 26
    else if 48 <= c <= 57 then c - 48 + 52
    else if c == 43 then 62
    else if c == 47 then 63
    else -1
  }

  const PAD: Byte := 61

  lemma LetterReads(v: nat)
    requires v < 64
    ensures LetterValue(Letter(v)) == v && LetterValue(PAD) == -1
  {
  }

  type Sextet = v: nat | v < 64

  /** Four groups of six bits from three bytes. */
  function Split(a: Byte, b: Byte, c: Byte): (v: (Sextet, Sextet, Sextet, Sextet))
  {
    (a / 4, a % 4 * 16 + b / 16, b % 16 * 4 + c / 64, c % 64)
  }

  /** Three bytes from four groups of six bits. */
  function Join(v: Sextet, w: Sextet, x: Sextet, y: Sextet): (b: (Byte, Byte, Byte)) {
    (v * 4 + w / 16, w % 16 * 16 + x / 4, x % 4 * 64 + y)
  }

  /** The groups and the bytes are the same 24 bits, the first ones the most significant. */
  lemma SameBits(a: Byte, b: Byte, c: Byte)
    ensures var (v, w, x, y) := Split(a, b, c);
      && 0x4_0000 * v + 0x1000 * w + 0x40 * x + y == 0x1_0000 * a + 0x100 * b + c
      && Join(v, w, x, y) == (a, b, c)
  {
  }

  /** What `fstr_base64_encode` returns. */
  ghost function Encoded(s: seq<Byte>): (t: seq<Byte>)
    ensures |t| == (|s| + 2) / 3 * 4
  {
    if s == [] then []
    else if |s| == 1 then
      var v := Split(s[0], 0, 0);
      [Letter(v.0), Letter(v.1), PAD, PAD]
    else if |s| == 2 then
      var v := Split(s[0], s[1], 0);
      [Letter(v.0), Letter(v.1), Letter(v.2), PAD]
    else
      Group(s[0], s[1], s[2]) + Encoded(s[3..])
  }

  function Group(a: Byte, b: Byte, c: Byte): (t: seq<Byte>)
    ensures |t| == 4
  {
    var v := Split(a, b, c);
    [Letter(v.0), Letter(v.1), Letter(v.2), Letter(v.3)]
  }

  /** The values of the letters of a text; all other characters are passed over. */
  ghost function Values(t: seq<Byte>): seq<Sextet> {
    if t == [] then []
    else if LetterValue(t[0]) < 0 then Values(t[1..])
    else [LetterValue(t[0])] + Values(t[1..])
  }

  /** Three bytes for four values; two or three values at the end still give one or two bytes, one gives none. */
  ghost function Decoded(v: seq<Sextet>): seq<Byte> {
    if |v| < 2 then []
    else if |v| == 2 then [Join(v[0], v[1], 0, 0).0]
    else if |v| == 3 then [Join(v[0], v[1], v[2], 0).0, Join(v[0], v[1], v[2], 0).1]
    else Bytes(v[0], v[1], v[2], v[3]) + Decoded(v[4..])
  }

  function Bytes(v: Sextet, w: Sextet, x: Sextet, y: Sextet): (t: seq<Byte>)
    ensures |t| == 3
  {
    var b := Join(v, w, x, y);
    [b.0, b.1, b.2]
  }

  // ----- the alphabet

  const ALPHABET := "ABCDEFGHIJKLMNOPQRSTUVWXYZ" + "abcdefghijklmnopqrstuvwxyz" + "0123456789" + "+/"

  lemma Alphabet()
    ensures |ALPHABET| == 64 && ALPHABET[62] as int == 43 && ALPHABET[63] as int == 47
    ensures forall v | 0 <= v < 26 :: ALPHABET[v] as int == 65 + v
    ensures forall v | 26 <= v < 52 :: ALPHABET[v] as int == 97 + v - 26
    ensures forall v | 52 <= v < 62 :: ALPHABET[v] as int == 48 + v - 52
  {
  }

  /** The letters are the characters of the alphabet. */
  lemma LetterIs(v: nat)
    requires v < 64
    ensures |ALPHABET| == 64 && Letter(v) == ALPHABET[v] as int
  {
    Alphabet();
  }

  /** A value is the place of a character in the alphabet, and all others have none. */
  lemma LetterValueIs(c: Byte)
    ensures |ALPHABET| == 64 && (LetterValue(c) >= 0 ==> ALPHABET[LetterValue(c)] as int == c)
    ensures LetterValue(c) >= 0 <==> Among(c, ALPHABET)
  {
    Alphabet();
    if LetterValue(c) >= 0 {
      assert ALPHABET[LetterValue(c)] as int == c;
    }
  }

  // ----- what the letters and the bytes are, bit by bit

  lemma BitsOfByte(s: seq<Byte>, j: nat)
    ensures var a := At(s, j);
      && BitOf(s, 8, 8 * j) == a / 128 % 2 && BitOf(s, 8, 8 * j + 1) == a / 64 % 2
      && BitOf(s, 8, 8 * j + 2) == a / 32 % 2 && BitOf(s, 8, 8 * j + 3) == a / 16 % 2
      && BitOf(s, 8, 8 * j + 4) == a / 8 % 2 && BitOf(s, 8, 8 * j + 5) == a / 4 % 2
      && BitOf(s, 8, 8 * j + 6) == a / 2 % 2 && BitOf(s, 8, 8 * j + 7) == a % 2
  {
    hide BitOf, At;
    PowersOfTwo();
    BitAt(s, 8, j, 0);
    BitAt(s, 8, j, 1);
    BitAt(s, 8, j, 2);
    BitAt(s, 8, j, 3);
    BitAt(s, 8, j, 4);
    BitAt(s, 8, j, 5);
    BitAt(s, 8, j, 6);
    BitAt(s, 8, j, 7);
    hide Power;
  }

  lemma FirstGroup(s: seq<Byte>, a: Byte)
    requires a == At(s, 0)
    ensures a / 4 == Field(s, 8, 0, 6)
  {
    hide BitOf, Field;
    FieldSix(s, 8, 0);
    BitsOfByte(s, 0);
    ByteParts(a);
  }

  lemma SecondGroup(s: seq<Byte>, a: Byte, b: Byte)
    requires a == At(s, 0) && b == At(s, 1)
    ensures a % 4 * 16 + b / 16 == Field(s, 8, 6, 6)
  {
    hide BitOf, Field;
    FieldSix(s, 8, 6);
    BitsOfByte(s, 0);
    BitsOfByte(s, 1);
    ByteParts(a);
    ByteParts(b);
  }

  lemma ThirdGroup(s: seq<Byte>, b: Byte, c: Byte)
    requires b == At(s, 1) && c == At(s, 2)
    ensures b % 16 * 4 + c / 64 == Field(s, 8, 12, 6)
  {
    hide BitOf, Field;
    FieldSix(s, 8, 12);
    BitsOfByte(s, 1);
    BitsOfByte(s, 2);
    ByteParts(b);
    ByteParts(c);
  }

  lemma FourthGroup(s: seq<Byte>, c: Byte)
    requires c == At(s, 2)
    ensures c % 64 == Field(s, 8, 18, 6)
  {
    hide BitOf, Field;
    FieldSix(s, 8, 18);
    BitsOfByte(s, 2);
    ByteParts(c);
  }

  /** The first four groups of six bits; bytes past the end count as zeros. */
  lemma FirstGroups(s: seq<Byte>, a: Byte, b: Byte, c: Byte)
    requires a == At(s, 0) && b == At(s, 1) && c == At(s, 2)
    ensures Split(a, b, c) == (Field(s, 8, 0, 6), Field(s, 8, 6, 6), Field(s, 8, 12, 6), Field(s, 8, 18, 6))
  {
    hide Field, At;
    FirstGroup(s, a);
    SecondGroup(s, a, b);
    ThirdGroup(s, b, c);
    FourthGroup(s, c);
  }

  lemma FirstLetters(s: seq<Byte>, k: nat)
    requires s != [] && k < 4
    ensures Field(s, 8, 6 * k, 6) < 64
    ensures Encoded(s)[k] == if 6 * k < 8 * |s| then Letter(Field(s, 8, 6 * k, 6)) else PAD
  {
    hide Split, Field, Letter;
    FirstGroups(s, At(s, 0), At(s, 1), At(s, 2));
  }

  /** Letter k of the encoding is the character of the alphabet that the six bits from bit 6 k on choose, zeros at the
      end; after the last bit there are equals signs. */
  lemma {:induction false} EncodedAt(s: seq<Byte>, k: nat)
    requires k < |Encoded(s)|
    ensures |ALPHABET| == 64 && Field(s, 8, 6 * k, 6) < 64
    ensures Encoded(s)[k] == (if 6 * k < 8 * |s| then ALPHABET[Field(s, 8, 6 * k, 6)] else '=') as int
  {
    hide Split, Field, Letter;
    if k < 4 {
      FirstLetters(s, k);
    } else {
      EncodedAt(s[3..], k - 4);
      FieldDrop(s, 8, 3, 6 * (k - 4), 6);
    }
    LetterIs(Field(s, 8, 6 * k, 6));
  }

  lemma BitsOfSextet(v: seq<Sextet>, j: nat)
    ensures var a := At(v, j);
      && BitOf(v, 6, 6 * j) == a / 32 % 2 && BitOf(v, 6, 6 * j + 1) == a / 16 % 2
      && BitOf(v, 6, 6 * j + 2) == a / 8 % 2 && BitOf(v, 6, 6 * j + 3) == a / 4 % 2
      && BitOf(v, 6, 6 * j + 4) == a / 2 % 2 && BitOf(v, 6, 6 * j + 5) == a % 2
  {
    hide BitOf, At;
    PowersOfTwo();
    BitAt(v, 6, j, 0);
    BitAt(v, 6, j, 1);
    BitAt(v, 6, j, 2);
    BitAt(v, 6, j, 3);
    BitAt(v, 6, j, 4);
    BitAt(v, 6, j, 5);
    hide Power;
  }

  lemma SextetParts(a: Sextet)
    ensures a == 32 * (a / 32 % 2) + 16 * (a / 16 % 2) + 8 * (a / 8 % 2) + 4 * (a / 4 % 2) + 2 * (a / 2 % 2) + a % 2
    ensures a / 16 == 2 * (a / 32 % 2) + a / 16 % 2
    ensures a % 16 == 8 * (a / 8 % 2) + 4 * (a / 4 % 2) + 2 * (a / 2 % 2) + a % 2
    ensures a / 4 == 8 * (a / 32 % 2) + 4 * (a / 16 % 2) + 2 * (a / 8 % 2) + a / 4 % 2
    ensures a % 4 == 2 * (a / 2 % 2) + a % 2
  {
    Halves(a);
  }

  lemma FirstByte(v: seq<Sextet>, a: Sextet, b: Sextet)
    requires a == At(v, 0) && b == At(v, 1)
    ensures a * 4 + b / 16 == Field(v, 6, 0, 8)
  {
    hide BitOf, Field;
    FieldSix(v, 6, 0);
    FieldEight(v, 6, 0);
    BitsOfSextet(v, 0);
    BitsOfSextet(v, 1);
    SextetParts(a);
    SextetParts(b);
  }

  lemma SecondByte(v: seq<Sextet>, b: Sextet, c: Sextet)
    requires b == At(v, 1) && c == At(v, 2)
    ensures b % 16 * 16 + c / 4 == Field(v, 6, 8, 8)
  {
    hide BitOf, Field;
    FieldSix(v, 6, 8);
    FieldEight(v, 6, 8);
    BitsOfSextet(v, 1);
    BitsOfSextet(v, 2);
    SextetParts(b);
    SextetParts(c);
  }

  lemma ThirdByte(v: seq<Sextet>, c: Sextet, d: Sextet)
    requires c == At(v, 2) && d == At(v, 3)
    ensures c % 4 * 64 + d == Field(v, 6, 16, 8)
  {
    hide BitOf, Field;
    FieldSix(v, 6, 16);
    FieldEight(v, 6, 16);
    BitsOfSextet(v, 2);
    BitsOfSextet(v, 3);
    SextetParts(c);
    SextetParts(d);
  }

  /** The first three bytes; values past the end count as zeros. */
  lemma FirstBytes(v: seq<Sextet>, a: Sextet, b: Sextet, c: Sextet, d: Sextet)
    requires a == At(v, 0) && b == At(v, 1) && c == At(v, 2) && d == At(v, 3)
    ensures Join(a, b, c, d) == (Field(v, 6, 0, 8), Field(v, 6, 8, 8), Field(v, 6, 16, 8))
  {
    hide Field, At;
    FirstByte(v, a, b);
    SecondByte(v, b, c);
    ThirdByte(v, c, d);
  }

  /** Byte k of the decoding is the eight bits from bit 8 k on of the values; what is less than a byte at the end is
      dropped. */
  lemma {:induction false} DecodedAt(v: seq<Sextet>, k: nat)
    ensures |Decoded(v)| == 6 * |v| / 8
    ensures k < |Decoded(v)| ==> Decoded(v)[k] == Field(v, 6, 8 * k, 8)
  {
    hide Join, Field;
    var a, b, c, d := At(v, 0), At(v, 1), At(v, 2), At(v, 3);
    FirstBytes(v, a, b, c, d);
    if |v| >= 4 {
      DecodedAt(v[4..], if k < 3 then 0 else k - 3);
      if k >= 3 {
        FieldDrop(v, 6, 4, 8 * (k - 3), 8);
      }
    }
  }

  /** A character that is not in the alphabet is passed over wherever it stands, an equals sign too. */
  lemma {:induction false} PassedOver(p: seq<Byte>, c: Byte, t: seq<Byte>)
    requires !Among(c, ALPHABET)
    ensures Values(p + [c] + t) == Values(p + t) && !Among(PAD, ALPHABET)
  {
    hide LetterValue;
    LetterValueIs(c);
    LetterReads(0);
    LetterValueIs(PAD);
    if p == [] {
      assert p + [c] + t == [c] + t && p + t == t && ([c] + t)[1..] == t;
    } else {
      PassedOver(p[1..], c, t);
      assert (p + [c] + t)[1..] == p[1..] + [c] + t && (p + t)[1..] == p[1..] + t;
    }
  }

  // ----- decoding undoes encoding

  lemma ValueStep(v: Sextet, t: seq<Byte>)
    ensures Values([Letter(v)] + t) == [v] + Values(t)
    ensures Values([PAD] + t) == Values(t)
  {
    LetterReads(v);
    assert ([Letter(v)] + t)[1..] == t && ([PAD] + t)[1..] == t;
  }

  lemma FourValues(v: Sextet, w: Sextet, x: Sextet, y: Sextet, t: seq<Byte>)
    ensures Values([Letter(v), Letter(w), Letter(x), Letter(y)] + t) == [v, w, x, y] + Values(t)
  {
    hide Values, Letter;
    ValueStep(y, t);
    ValueStep(x, [Letter(y)] + t);
    ValueStep(w, [Letter(x)] + ([Letter(y)] + t));
    ValueStep(v, [Letter(w)] + ([Letter(x)] + ([Letter(y)] + t)));
    assert [Letter(v), Letter(w), Letter(x), Letter(y)] + t
      == [Letter(v)] + ([Letter(w)] + ([Letter(x)] + ([Letter(y)] + t)));
    assert [v] + ([w] + ([x] + ([y] + Values(t)))) == [v, w, x, y] + Values(t);
  }

  /** Every sequence of bytes comes back as it was. */
  lemma {:induction false} RoundTrip(s: seq<Byte>)
    ensures Decoded(Values(Encoded(s))) == s
  {
    hide Values, Letter, Split, Join;
    NoValues();
    if s == [] {
    } else if |s| == 1 {
      OneByte(s[0]);
      assert s == [s[0]];
    } else if |s| == 2 {
      TwoBytes(s[0], s[1]);
      assert s == [s[0], s[1]];
    } else {
      var (v, w, x, y) := Split(s[0], s[1], s[2]);
      FourValues(v, w, x, y, Encoded(s[3..]));
      SameBits(s[0], s[1], s[2]);
      RoundTrip(s[3..]);
      var u := Values(Encoded(s));
      assert u[4..] == Values(Encoded(s[3..]));
      assert s == [s[0], s[1], s[2]] + s[3..];
    }
  }

  lemma NoValues()
    ensures Values([]) == []
  {
  }

  lemma OneByte(a: Byte)
    ensures Decoded(Values(Encoded([a]))) == [a]
  {
    hide Values, Letter, Split, Join;
    NoValues();
    var (v, w, x, y) := Split(a, 0, 0);
    SameBits(a, 0, 0);
    JoinFirst(v, w, x, y);
    TwoValues(v, w, [PAD, PAD]);
    PadValues([PAD]);
    PadValues([]);
    assert [Letter(v), Letter(w)] + [PAD, PAD] == [Letter(v), Letter(w), PAD, PAD];
  }

  lemma TwoBytes(a: Byte, b: Byte)
    ensures Decoded(Values(Encoded([a, b]))) == [a, b]
  {
    hide Values, Letter, Split, Join;
    NoValues();
    var (v, w, x, y) := Split(a, b, 0);
    SameBits(a, b, 0);
    JoinFirst(v, w, x, y);
    TwoValues(v, w, [Letter(x), PAD]);
    ValueStep(x, [PAD]);
    PadValues([]);
    assert [Letter(x)] + [PAD] == [Letter(x), PAD];
    assert [Letter(v), Letter(w)] + [Letter(x), PAD] == [Letter(v), Letter(w), Letter(x), PAD];
    assert [v, w] + ([x] + []) == [v, w, x];
  }

  lemma JoinFirst(v: Sextet, w: Sextet, x: Sextet, y: Sextet)
    ensures Join(v, w, 0, 0).0 == Join(v, w, x, 0).0 == Join(v, w, x, y).0
    ensures Join(v, w, x, 0).1 == Join(v, w, x, y).1
  {
  }

  lemma TwoValues(v: Sextet, w: Sextet, t: seq<Byte>)
    ensures Values([Letter(v), Letter(w)] + t) == [v, w] + Values(t)
  {
    hide Values, Letter;
    ValueStep(w, t);
    ValueStep(v, [Letter(w)] + t);
    assert [Letter(v), Letter(w)] + t == [Letter(v)] + ([Letter(w)] + t);
  }

  lemma PadValues(t: seq<Byte>)
    ensures Values([PAD] + t) == Values(t)
    ensures [PAD] + [PAD] == [PAD, PAD] && [PAD] + [] == [PAD]
  {
    ValueStep(0, t);
  }

  // ----- the loops

  /** Four letters are written. */
  method Put(buf: array<Byte>, len: nat, g: seq<Byte>)
    requires |g| == 4 && len + 4 <= buf.Length
    modifies buf
    ensures buf[..len + 4] == old(buf[..len]) + g
  {
    buf[len], buf[len + 1], buf[len + 2], buf[len + 3] := g[0], g[1], g[2], g[3];
  }

  /** `fstr_base64_encode`: groups of three bytes, and a shorter one at the end. */
  method Encode(s: seq<Byte>) returns (buf: array<Byte>, len: nat)
    ensures fresh(buf) && len <= buf.Length && buf[..len] == Encoded(s)
  {
    hide Encoded, Letter, Split, Group;
    buf := new Byte[4 * |s| / 3 + 4](_ => 0);
    len := 0;
    var i := 0;
    NothingDone(s);
    while i < |s|
      invariant 0 <= i <= |s| && 3 * len <= 4 * i && buf[..len] + Encoded(s[i..]) == Encoded(s)
    {
      Groups(s, i);
      if i + 1 == |s| {
        var v := Split(s[i], 0, 0);
        Put(buf, len, [Letter(v.0), Letter(v.1), PAD, PAD]);
        len := len + 4;
        return;
      }
      if i + 2 == |s| {
        var v := Split(s[i], s[i + 1], 0);
        Put(buf, len, [Letter(v.0), Letter(v.1), Letter(v.2), PAD]);
        len := len + 4;
        return;
      }
      Regroup(buf[..len], Group(s[i], s[i + 1], s[i + 2]), Encoded(s[i + 3..]));
      Put(buf, len, Group(s[i], s[i + 1], s[i + 2]));
      len := len + 4;
      i := i + 3;
    }
    NothingLeft(s);
  }

  lemma NothingDone(s: seq<Byte>)
    ensures [] + Encoded(s[0..]) == Encoded(s)
  {
    assert s[0..] == s;
  }

  lemma NothingLeft(s: seq<Byte>)
    ensures Encoded(s[|s|..]) == []
  {
  }

  lemma Groups(s: seq<Byte>, i: nat)
    requires i < |s|
    ensures var t := Encoded(s[i..]); var n := |s| - i;
      && (n == 1 ==> var v := Split(s[i], 0, 0); t == [Letter(v.0), Letter(v.1), PAD, PAD])
      && (n == 2 ==> var v := Split(s[i], s[i + 1], 0); t == [Letter(v.0), Letter(v.1), Letter(v.2), PAD])
      && (n >= 3 ==> t == Group(s[i], s[i + 1], s[i + 2]) + Encoded(s[i + 3..]))
  {
    if i + 3 <= |s| {
      assert s[i..][3..] == s[i + 3..];
    }
  }

  /** Three bytes are written. */
  method PutBytes(buf: array<Byte>, len: nat, g: seq<Byte>)
    requires |g| == 3 && len + 3 <= buf.Length
    modifies buf
    ensures buf[..len + 3] == old(buf[..len]) + g
  {
    buf[len], buf[len + 1], buf[len + 2] := g[0], g[1], g[2];
  }

  /** What an incomplete group at the end gives. */
  method PutLast(buf: array<Byte>, len0: nat, group: seq<Sextet>) returns (len: nat)
    requires |group| < 4 && len0 + 2 <= buf.Length
    modifies buf
    ensures len0 <= len <= buf.Length && buf[..len] == old(buf[..len0]) + Decoded(group)
  {
    hide Join;
    len := len0;
    if |group| >= 2 {
      buf[len] := Join(group[0], group[1], 0, 0).0;
      len := len + 1;
      if |group| == 3 {
        JoinFirst(group[0], group[1], group[2], 0);
        buf[len] := Join(group[0], group[1], group[2], 0).1;
        len := len + 1;
      }
    }
  }

  /** `fstr_base64_decode`: letters are collected four at a time; what is left at the end gives fewer bytes. */
  method Decode(t: seq<Byte>) returns (buf: array<Byte>, len: nat)
    ensures fresh(buf) && len <= buf.Length && buf[..len] == Decoded(Values(t))
  {
    hide Values, Decoded, LetterValue, Join, Bytes;
    buf := new Byte[3 * |t| / 4 + 3](_ => 0);
    len := 0;
    var group: seq<Sextet> := [];
    AllToDecode(t);
    for i := 0 to |t|
      invariant |group| < 4 && 4 * len + 3 * |group| <= 3 * i
      invariant buf[..len] + Decoded(group + Values(t[i..])) == Decoded(Values(t))
    {
      NextValue(t, i, group);
      var v := LetterValue(t[i]);
      if v < 0 {
        continue;
      }
      group := group + [v];
      if |group| == 4 {
        FullGroup(group, Values(t[i + 1..]));
        var b := Bytes(group[0], group[1], group[2], group[3]);
        Regroup(buf[..len], b, Decoded(Values(t[i + 1..])));
        PutBytes(buf, len, b);
        len := len + 3;
        group := [];
        Fresh(t, i + 1);
      }
    }
    LastGroup(t, group);
    len := PutLast(buf, len, group);
  }

  lemma Regroup(a: seq<Byte>, b: seq<Byte>, c: seq<Byte>)
    ensures a + (b + c) == a + b + c
  {
  }

  lemma AllToDecode(t: seq<Byte>)
    ensures [] + Decoded([] + Values(t[0..])) == Decoded(Values(t))
  {
    assert t[0..] == t && [] + Values(t) == Values(t);
  }

  lemma NextValue(t: seq<Byte>, i: nat, group: seq<Sextet>)
    requires i < |t|
    ensures group + Values(t[i..])
      == if LetterValue(t[i]) < 0 then group + Values(t[i + 1..]) else group + [LetterValue(t[i])] + Values(t[i + 1..])
  {
    assert t[i..][0] == t[i] && t[i..][1..] == t[i + 1..];
  }

  lemma FullGroup(group: seq<Sextet>, rest: seq<Sextet>)
    requires |group| == 4
    ensures Decoded(group + rest) == Bytes(group[0], group[1], group[2], group[3]) + Decoded(rest)
  {
    assert (group + rest)[4..] == rest;
  }

  lemma Fresh(t: seq<Byte>, i: nat)
    requires i <= |t|
    ensures [] + Values(t[i..]) == Values(t[i..])
  {
  }

  lemma LastGroup(t: seq<Byte>, group: seq<Sextet>)
    requires |group| < 4
    ensures group + Values(t[|t|..]) == group
  {
  }
}
