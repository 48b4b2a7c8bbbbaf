/** Hexadecimal text, with the encodings and decodings of Go's `encoding/hex`, and UUID text. */
module Hex {
  import opened Prelude

  function Digit(n: nat): (c: byte)
    requires n < 16
  {
    if n < 10 then 48 + n else 87 + n
  }

  function DigitValue(c: byte): (r: Option<nat>)
    ensures r.Some? ==> r.value < 16
  {
    if 48 <= c <= 57 then Some(c - 48)
    else if 97 <= c <= 102 then Some(c - 87)
    else if 65 <= c <= 70 then Some(c - 55)
    else None
  }

  function Encode(b: Bytes): (s: Bytes)
    ensures |s| == 2 * |b|
  {
    if b == [] then [] else [Digit(b[0] / 16), Digit(b[0] % 16)] + Encode(b[1..])
  }

  function Decode(s: Bytes): (r: Option<Bytes>)
  {
    if s == [] then Some([])
    else if |s| == 1 then None
    else
      var hi :- DigitValue(s[0]);
      var lo :- DigitValue(s[1]);
      var rest :- Decode(s[2..]);
      Some([16 * hi + lo] + rest)
  }

  function Lower(c: byte): byte
  {
    if 65 <= c <= 90 then c + 32 else c
  }

  function ToLower(s: Bytes): (r: Bytes)
    ensures |r| == |s|
  {
    if s == [] then [] else [Lower(s[0])] + ToLower(s[1..])
  }

  lemma {:induction false} ToLowerAt(s: Bytes, i: nat)
    requires i < |s|
    ensures ToLower(s)[i] == if 'A' as int <= s[i] <= 'Z' as int then s[i] + 32 else s[i]
  {
    if i > 0 { ToLowerAt(s[1..], i - 1); }
  }

  lemma DigitValueIff(c: byte, n: nat)
    requires n < 16
    ensures DigitValue(c) == Some(n) <==> Lower(c) == Digit(n)
  {}

  lemma {:induction false} DecodedTextIsHex(s: Bytes, b: Bytes)
    requires Decode(s) == Some(b)
    ensures ToLower(s) == Encode(b)
  {
    if s != [] {
      DecodedTextIsHex(s[2..], b[1..]);
      DigitValueIff(s[0], b[0] / 16);
      DigitValueIff(s[1], b[0] % 16);
      assert s[1..][1..] == s[2..];
    }
  }

  lemma {:induction false} HexTextDecodes(s: Bytes, b: Bytes)
    requires ToLower(s) == Encode(b)
    ensures Decode(s) == Some(b)
  {
    if b != [] {
      assert s[1..][1..] == s[2..];
      assert ToLower(s) == [Lower(s[0]), Lower(s[1])] + ToLower(s[2..]);
      assert ToLower(s)[2..] == ToLower(s[2..]) && Encode(b)[2..] == Encode(b[1..]);
      HexTextDecodes(s[2..], b[1..]);
      DigitValueIff(s[0], b[0] / 16);
      DigitValueIff(s[1], b[0] % 16);
      assert ToLower(s)[0] == Encode(b)[0] && ToLower(s)[1] == Encode(b)[1];
      assert b == [b[0]] + b[1..];
    }
  }

  /** A text decodes to `b` exactly when it is the hex text of `b` up to the case of its letters. */
  lemma DecodeIff(s: Bytes, b: Bytes)
    ensures Decode(s) == Some(b) <==> ToLower(s) == Encode(b)
  {
    if Decode(s) == Some(b) { DecodedTextIsHex(s, b); }
    if ToLower(s) == Encode(b) { HexTextDecodes(s, b); }
  }

  lemma {:induction false} EncodeIsLower(b: Bytes)
    ensures ToLower(Encode(b)) == Encode(b)
  {
    if b != [] {
      EncodeIsLower(b[1..]);
      var s := Encode(b);
      assert s[1..][1..] == Encode(b[1..]);
      assert ToLower(s) == [Lower(s[0]), Lower(s[1])] + ToLower(s[1..][1..]);
    }
  }

  lemma RoundTrip(b: Bytes)
    ensures Decode(Encode(b)) == Some(b)
  {
    EncodeIsLower(b);
    DecodeIff(Encode(b), b);
  }

  // ---------- The alphabet and the order of the digits ----------

  /** The character stands for `n`, whether it is a small letter or a capital one. */
  predicate IsHexDigit(c: byte, n: nat)
    requires n < 16
  {
    c == "0123456789abcdef"[n] as int || c == "0123456789ABCDEF"[n] as int
  }

  lemma DigitIs(n: nat)
    requires n < 16
    ensures Digit(n) == "0123456789abcdef"[n] as int
  {
  }

  lemma DigitValueIs(c: byte, n: nat)
    requires n < 16
    ensures DigitValue(c) == Some(n) <==> IsHexDigit(c, n)
  {
  }

  /** The text of bytes: two small digits each, the high one first. */
  lemma {:induction false} EncodedDigits(b: Bytes, i: nat)
    requires i < |b|
    ensures Encode(b)[2 * i] == "0123456789abcdef"[b[i] / 16] as int
    ensures Encode(b)[2 * i + 1] == "0123456789abcdef"[b[i] % 16] as int
  {
    if i == 0 {
      DigitIs(b[0] / 16);
      DigitIs(b[0] % 16);
    } else {
      EncodedDigits(b[1..], i - 1);
    }
  }

  /** The text has two digits for every byte, the high one first. */
  predicate SpellsBytes(s: Bytes, b: Bytes)
  {
    && |s| == 2 * |b|
    && forall i | 0 <= i < |b| :: IsHexDigit(s[2 * i], b[i] / 16) && IsHexDigit(s[2 * i + 1], b[i] % 16)
  }

  /** Exactly which texts decode to `b`, in the characters of the alphabet. */
  lemma {:induction false} DecodeDigitsIff(s: Bytes, b: Bytes)
    ensures Decode(s) == Some(b) <==> SpellsBytes(s, b)
  {
    if s != [] && b != [] && |s| >= 2 {
      DecodeDigitsIff(s[2..], b[1..]);
      DigitValueIs(s[0], b[0] / 16);
      DigitValueIs(s[1], b[0] % 16);
      FirstPairDecodes(s, b);
      FirstPairSpells(s, b);
    }
  }

  lemma FirstPairDecodes(s: Bytes, b: Bytes)
    requires |s| >= 2 && b != []
    ensures Decode(s) == Some(b) <==>
            && DigitValue(s[0]) == Some(b[0] / 16) && DigitValue(s[1]) == Some(b[0] % 16)
            && Decode(s[2..]) == Some(b[1..])
  {
    assert b == [b[0]] + b[1..];
  }

  lemma FirstPairSpells(s: Bytes, b: Bytes)
    requires |s| >= 2 && b != []
    ensures SpellsBytes(s, b) <==>
            IsHexDigit(s[0], b[0] / 16) && IsHexDigit(s[1], b[0] % 16) && SpellsBytes(s[2..], b[1..])
  {
    if SpellsBytes(s, b) {
      forall i | 0 <= i < |b[1..]|
        ensures IsHexDigit(s[2..][2 * i], b[1..][i] / 16) && IsHexDigit(s[2..][2 * i + 1], b[1..][i] % 16)
      {
        assert s[2..][2 * i] == s[2 * (i + 1)] && s[2..][2 * i + 1] == s[2 * (i + 1) + 1];
        assert b[1..][i] == b[i + 1];
      }
    }
    if IsHexDigit(s[0], b[0] / 16) && IsHexDigit(s[1], b[0] % 16) && SpellsBytes(s[2..], b[1..]) {
      forall i | 0 <= i < |b|
        ensures IsHexDigit(s[2 * i], b[i] / 16) && IsHexDigit(s[2 * i + 1], b[i] % 16)
      {
        if i > 0 {
          assert s[2..][2 * (i - 1)] == s[2 * i] && s[2..][2 * (i - 1) + 1] == s[2 * i + 1];
          assert b[1..][i - 1] == b[i];
        }
      }
    }
  }

  // ---------- UUID text ----------

  const DASH: byte := 45

  /** `uuid.UUID.String`: lower-case hex in groups of 8, 4, 4, 4 and 12. */
  function UuidString(u: Uuid): (s: Bytes)
    ensures |s| == 36
  {
    var h := Encode(u);
    h[..8] + [DASH] + h[8..12] + [DASH] + h[12..16] + [DASH] + h[16..20] + [DASH] + h[20..]
  }

  /** Where the i-th byte of a UUID stands in its text. */
  function Column(i: nat): nat
  {
    if i < 4 then 2 * i else if i < 6 then 2 * i + 1 else if i < 8 then 2 * i + 2 else if i < 10 then 2 * i + 3
    else 2 * i + 4
  }

  /** The text of a UUID, character by character: dashes at 8, 13, 18 and 23, small digits elsewhere. */
  lemma UuidText(u: Uuid, i: nat)
    requires i < 16
    ensures var s := UuidString(u);
            && s[8] == s[13] == s[18] == s[23] == '-' as int
            && s[Column(i)] == "0123456789abcdef"[u[i] / 16] as int
            && s[Column(i) + 1] == "0123456789abcdef"[u[i] % 16] as int
  {
    EncodedDigits(u, i);
  }

  lemma UuidStringInjective(u: Uuid, v: Uuid)
    requires UuidString(u) == UuidString(v)
    ensures u == v
  {
    var s, h, g := UuidString(u), Encode(u), Encode(v);
    assert h[..8] == s[..8] == g[..8];
    assert h[8..12] == s[9..13] == g[8..12];
    assert h[12..16] == s[14..18] == g[12..16];
    assert h[16..20] == s[19..23] == g[16..20];
    assert h[20..] == s[24..] == g[20..];
    assert h == h[..8] + h[8..12] + h[12..16] + h[16..20] + h[20..];
    assert g == g[..8] + g[8..12] + g[12..16] + g[16..20] + g[20..];
    RoundTrip(u);
    RoundTrip(v);
  }
}

/** Standard padded base64 (section 4 of RFC 4648) as Go's `base64.StdEncoding` reads and writes it. */
module Base64 {
  import opened Prelude

  const PAD: byte := 61

  function Symbol(n: nat): (c: byte)
    requires n < 64
  {
    if n < 26 then 65 + n else if n < 52 then 71 + n else if n < 62 then n - 4 else if n == 62 then 43 else 47
  }

  predicate IsSymbol(c: byte)
  {
    65 <= c <= 90 || 97 <= c <= 122 || 48 <= c <= 57 || c == 43 || c == 47
  }

  function SymbolValue(c: byte): (n: nat)
    requires IsSymbol(c)
    ensures n < 64
  {
    if 65 <= c <= 90 then c - 65
    else if 97 <= c <= 122 then c - 71
    else if 48 <= c <= 57 then c + 4
    else if c == 43 then 62
    else 63
  }

  lemma SymbolIff(c: byte, n: nat)
    requires n < 64
    ensures c == Symbol(n) <==> IsSymbol(c) && SymbolValue(c) == n
  {}

  /** Table 1 of RFC 4648: the letters, the small letters, the digits, `+` and `/`. */
  lemma SymbolTable(n: nat)
    requires n < 63
    ensures Symbol(0) == 'A' as int && Symbol(26) == 'a' as int && Symbol(52) == '0' as int
    ensures Symbol(62) == '+' as int && Symbol(63) == '/' as int
    ensures n !in {25, 51, 61, 62} ==> Symbol(n + 1) == Symbol(n) + 1
  {
  }

  function EncodeTriple(x: byte, y: byte, z: byte): (s: Bytes)
    ensures |s| == 4
  {
    [Symbol(x / 4), Symbol(x % 4 * 16 + y / 16), Symbol(y % 16 * 4 + z / 64), Symbol(z % 64)]
  }

  function EncodeToString(b: Bytes): (s: Bytes)
  {
    if b == [] then []
    else if |b| == 1 then [Symbol(b[0] / 4), Symbol(b[0] % 4 * 16), PAD, PAD]
    else if |b| == 2 then [Symbol(b[0] / 4), Symbol(b[0] % 4 * 16 + b[1] / 16), Symbol(b[1] % 16 * 4), PAD]
    else EncodeTriple(b[0], b[1], b[2]) + EncodeToString(b[3..])
  }

  /**
   * Three bytes are a 24-bit number whose four base-64 digits are written from the highest down; a
   * last byte, or two, are filled up with zero bits and padded.
   */
  lemma EncodeLayout(x: byte, y: byte, z: byte, more: Bytes)
    ensures var n := 0x1_0000 * x + 0x100 * y + z;
            EncodeToString([x, y, z] + more) ==
              [Symbol(n / 0x4_0000), Symbol(n / 0x1000 % 64), Symbol(n / 64 % 64), Symbol(n % 64)]
              + EncodeToString(more)
    ensures EncodeToString([x, y]) ==
              [Symbol(x / 4), Symbol(x % 4 * 16 + y / 16), Symbol(y % 16 * 4), '=' as int]
    ensures EncodeToString([x]) == [Symbol(x / 4), Symbol(x % 4 * 16), '=' as int, '=' as int]
    ensures EncodeToString([]) == []
  {
    Sextets(x, y, z);
    assert ([x, y, z] + more)[3..] == more;
  }

  lemma Sextets(x: byte, y: byte, z: byte)
    ensures var n := 0x1_0000 * x + 0x100 * y + z;
            && n / 0x4_0000 == x / 4 && n / 0x1000 % 64 == x % 4 * 16 + y / 16
            && n / 64 % 64 == y % 16 * 4 + z / 64 && n % 64 == z % 64
  {
    var a, b, c, d, e, f := x / 4, x % 4, y / 16, y % 16, z / 64, z % 64;
    LowSextet(x, y, z, 0x1000 * a + 0x400 * b + 64 * c + (4 * d + e));
    NextSextet(64 * a + 16 * b + c, 4 * d + e);
    NextSextet(a, 16 * b + c);
    assert 0x1_0000 * x + 0x100 * y + z == 0x1000 * (64 * a + 16 * b + c) + (64 * (4 * d + e) + f);
    assert 0x1_0000 * x + 0x100 * y + z == 0x4_0000 * a + (0x1000 * (16 * b + c) + (64 * (4 * d + e) + f));
  }

  lemma LowSextet(x: byte, y: byte, z: byte, high: nat)
    requires 0x1_0000 * x + 0x100 * y + z == 64 * high + z % 64
    ensures (0x1_0000 * x + 0x100 * y + z) / 64 == high && (0x1_0000 * x + 0x100 * y + z) % 64 == z % 64
  {
  }

  lemma NextSextet(high: nat, low: nat)
    requires low < 64
    ensures (64 * high + low) / 64 == high && (64 * high + low) % 64 == low
  {
  }

  /** The test vectors of section 10 of RFC 4648 for "f", "fo" and "foo". */
  lemma TestVectors()
    ensures EncodeToString([102]) == [90, 103, 61, 61]
    ensures EncodeToString([102, 111]) == [90, 109, 56, 61]
    ensures EncodeToString([102, 111, 111]) == [90, 109, 57, 118]
  {
  }

  /** Three bytes from four 6-bit values. */
  function Pack(p: nat, q: nat, r: nat, t: nat): (b: Bytes)
    requires p < 64 && q < 64 && r < 64 && t < 64
    ensures |b| == 3
  {
    [p * 4 + q / 16, q % 16 * 16 + r / 4, r % 4 * 64 + t]
  }

  predicate IsLineBreak(c: byte) { c == 10 || c == 13 }

  function StripLineBreaks(s: Bytes): (r: Bytes)
  {
    if s == [] then []
    else (if IsLineBreak(s[0]) then [] else [s[0]]) + StripLineBreaks(s[1..])
  }

  /** Go skips line breaks wherever they stand. */
  function DecodeString(s: Bytes): (r: Option<Bytes>)
  {
    DecodeQuads(StripLineBreaks(s))
  }

  /** Padding is mandatory. */
  function DecodeQuads(s: Bytes): (r: Option<Bytes>)
  {
    if s == [] then Some([])
    else if |s| < 4 then None
    else if |s| == 4 && s[3] == PAD then DecodeLastQuad(s)
    else if !(IsSymbol(s[0]) && IsSymbol(s[1]) && IsSymbol(s[2]) && IsSymbol(s[3])) then None
    else
      match DecodeQuads(s[4..])
      case None => None
      case Some(rest) =>
        Some(Pack(SymbolValue(s[0]), SymbolValue(s[1]), SymbolValue(s[2]), SymbolValue(s[3])) + rest)
  }

  /** The bits that a padded quad leaves unused are not checked. */
  function DecodeLastQuad(s: Bytes): (r: Option<Bytes>)
    requires |s| == 4
  {
    if !(IsSymbol(s[0]) && IsSymbol(s[1])) then None
    else if s[2] == PAD then Some(Pack(SymbolValue(s[0]), SymbolValue(s[1]), 0, 0)[..1])
    else if !IsSymbol(s[2]) then None
    else Some(Pack(SymbolValue(s[0]), SymbolValue(s[1]), SymbolValue(s[2]), 0)[..2])
  }

  /**
   * `s` spells `b`: whole triples are written as the encoder writes them, and a last symbol before
   * the padding may carry any value in the bits that no byte uses.
   */
  predicate Spells(s: Bytes, b: Bytes)
  {
    if b == [] then s == []
    else if |b| == 1 then |s| == 4 && SpellsOne(s, b[0])
    else if |b| == 2 then |s| == 4 && SpellsTwo(s, b[0], b[1])
    else |s| >= 4 && s[..4] == EncodeTriple(b[0], b[1], b[2]) && Spells(s[4..], b[3..])
  }

  predicate SpellsOne(s: Bytes, x: byte)
    requires |s| == 4
  {
    && s[0] == Symbol(x / 4) && s[2] == PAD && s[3] == PAD
    && IsSymbol(s[1]) && SymbolValue(s[1]) / 16 == x % 4
  }

  predicate SpellsTwo(s: Bytes, x: byte, y: byte)
    requires |s| == 4
  {
    && s[0] == Symbol(x / 4) && s[1] == Symbol(x % 4 * 16 + y / 16) && s[3] == PAD
    && IsSymbol(s[2]) && SymbolValue(s[2]) / 4 == y % 16
  }

  // ---------- Arithmetic of the packing ----------

  lemma FirstByte(p: nat, q: nat, x: byte)
    requires p < 64 && q < 64
    ensures p * 4 + q / 16 == x <==> p == x / 4 && q / 16 == x % 4
  {}

  lemma SecondByte(q: nat, r: nat, y: byte)
    requires q < 64 && r < 64
    ensures q % 16 * 16 + r / 4 == y <==> q % 16 == y / 16 && r / 4 == y % 16
  {}

  lemma ThirdByte(r: nat, t: nat, z: byte)
    requires r < 64 && t < 64
    ensures r % 4 * 64 + t == z <==> r % 4 == z / 64 && t == z % 64
  {}

  lemma PackIff(p: nat, q: nat, r: nat, t: nat, x: byte, y: byte, z: byte)
    requires p < 64 && q < 64 && r < 64 && t < 64
    ensures Pack(p, q, r, t) == [x, y, z] <==>
            p == x / 4 && q == x % 4 * 16 + y / 16 && r == y % 16 * 4 + z / 64 && t == z % 64
  {
    FirstByte(p, q, x);
    SecondByte(q, r, y);
    ThirdByte(r, t, z);
    assert q == q / 16 * 16 + q % 16 && r == r / 4 * 4 + r % 4;
  }

  // ---------- Decoding, quad by quad ----------

  lemma TripleIff(s: Bytes, x: byte, y: byte, z: byte)
    requires |s| >= 4
    ensures s[..4] == EncodeTriple(x, y, z) <==>
            && IsSymbol(s[0]) && IsSymbol(s[1]) && IsSymbol(s[2]) && IsSymbol(s[3])
            && Pack(SymbolValue(s[0]), SymbolValue(s[1]), SymbolValue(s[2]), SymbolValue(s[3])) == [x, y, z]
  {
    SymbolIff(s[0], x / 4);
    SymbolIff(s[1], x % 4 * 16 + y / 16);
    SymbolIff(s[2], y % 16 * 4 + z / 64);
    SymbolIff(s[3], z % 64);
    assert s[..4] == [s[0], s[1], s[2], s[3]];
    if IsSymbol(s[0]) && IsSymbol(s[1]) && IsSymbol(s[2]) && IsSymbol(s[3]) {
      PackIff(SymbolValue(s[0]), SymbolValue(s[1]), SymbolValue(s[2]), SymbolValue(s[3]), x, y, z);
    }
  }

  lemma OneIff(s: Bytes, x: byte)
    requires |s| == 4 && s[3] == PAD
    ensures SpellsOne(s, x) <==> DecodeLastQuad(s) == Some([x])
  {
    SymbolIff(s[0], x / 4);
    if IsSymbol(s[0]) && IsSymbol(s[1]) {
      FirstByte(SymbolValue(s[0]), SymbolValue(s[1]), x);
      assert Pack(SymbolValue(s[0]), SymbolValue(s[1]), 0, 0)[..1] == [SymbolValue(s[0]) * 4 + SymbolValue(s[1]) / 16];
    }
  }

  lemma TwoIff(s: Bytes, x: byte, y: byte)
    requires |s| == 4 && s[3] == PAD
    ensures SpellsTwo(s, x, y) <==> DecodeLastQuad(s) == Some([x, y])
  {
    SymbolIff(s[0], x / 4);
    SymbolIff(s[1], x % 4 * 16 + y / 16);
    if IsSymbol(s[0]) && IsSymbol(s[1]) && IsSymbol(s[2]) {
      var p, q, r := SymbolValue(s[0]), SymbolValue(s[1]), SymbolValue(s[2]);
      FirstByte(p, q, x);
      SecondByte(q, r, y);
      assert q == q / 16 * 16 + q % 16;
      assert Pack(p, q, r, 0)[..2] == [p * 4 + q / 16, q % 16 * 16 + r / 4];
    }
  }

  lemma {:induction false} SpellsDecodes(s: Bytes, b: Bytes)
    requires Spells(s, b)
    ensures DecodeQuads(s) == Some(b)
  {
    if |b| == 1 {
      OneIff(s, b[0]);
      assert b == [b[0]];
    } else if |b| == 2 {
      TwoIff(s, b[0], b[1]);
      assert b == [b[0], b[1]];
    } else if b != [] {
      TripleIff(s, b[0], b[1], b[2]);
      SpellsDecodes(s[4..], b[3..]);
      assert b == [b[0], b[1], b[2]] + b[3..];
    }
  }

  lemma {:induction false} DecodesSpells(s: Bytes, b: Bytes)
    requires DecodeQuads(s) == Some(b)
    ensures Spells(s, b)
  {
    if |s| == 4 && s[3] == PAD {
      assert DecodeLastQuad(s) == Some(b);
      if |b| == 1 {
        OneIff(s, b[0]);
        assert b == [b[0]];
      } else {
        TwoIff(s, b[0], b[1]);
        assert b == [b[0], b[1]];
      }
    } else if s != [] {
      var packed := Pack(SymbolValue(s[0]), SymbolValue(s[1]), SymbolValue(s[2]), SymbolValue(s[3]));
      assert b == packed + b[3..] && packed == [b[0], b[1], b[2]];
      DecodesSpells(s[4..], b[3..]);
      TripleIff(s, b[0], b[1], b[2]);
    }
  }

  lemma {:induction false} EncoderSpells(b: Bytes)
    ensures Spells(EncodeToString(b), b)
  {
    if |b| == 1 {
      SymbolIff(Symbol(b[0] % 4 * 16), b[0] % 4 * 16);
    } else if |b| == 2 {
      SymbolIff(Symbol(b[1] % 16 * 4), b[1] % 16 * 4);
    } else if b != [] {
      EncoderSpells(b[3..]);
      assert EncodeToString(b)[4..] == EncodeToString(b[3..]);
    }
  }

  /** Exactly which texts decode to `b`. */
  lemma DecodeIff(s: Bytes, b: Bytes)
    ensures DecodeString(s) == Some(b) <==> Spells(StripLineBreaks(s), b)
  {
    if DecodeString(s) == Some(b) { DecodesSpells(StripLineBreaks(s), b); }
    if Spells(StripLineBreaks(s), b) { SpellsDecodes(StripLineBreaks(s), b); }
  }

  predicate IsText(s: Bytes) { forall i | 0 <= i < |s| :: IsSymbol(s[i]) || s[i] == PAD }

  lemma TripleText(x: byte, y: byte, z: byte)
    ensures IsText(EncodeTriple(x, y, z))
  {
    SymbolIff(Symbol(x / 4), x / 4);
    SymbolIff(Symbol(x % 4 * 16 + y / 16), x % 4 * 16 + y / 16);
    SymbolIff(Symbol(y % 16 * 4 + z / 64), y % 16 * 4 + z / 64);
    SymbolIff(Symbol(z % 64), z % 64);
  }

  lemma {:induction false} EncoderText(b: Bytes)
    ensures IsText(EncodeToString(b))
  {
    if |b| >= 3 {
      TripleText(b[0], b[1], b[2]);
      EncoderText(b[3..]);
    } else if b != [] {
      TripleText(b[0], if |b| == 2 then b[1] else 0, 0);
      var s := EncodeTriple(b[0], if |b| == 2 then b[1] else 0, 0);
      assert IsSymbol(s[0]) && IsSymbol(s[1]) && IsSymbol(s[2]);
    }
  }

  lemma {:induction false} StripText(s: Bytes)
    requires IsText(s)
    ensures StripLineBreaks(s) == s
  {
    if s != [] {
      StripText(s[1..]);
    }
  }

  lemma RoundTrip(b: Bytes)
    ensures DecodeString(EncodeToString(b)) == Some(b)
  {
    EncoderText(b);
    StripText(EncodeToString(b));
    EncoderSpells(b);
    DecodeIff(EncodeToString(b), b);
  }

  /** An encoding stays readable with line breaks put in anywhere. */
  lemma DecodeWithLineBreaks(s: Bytes, b: Bytes)
    requires StripLineBreaks(s) == EncodeToString(b)
    ensures DecodeString(s) == Some(b)
  {
    EncoderSpells(b);
    DecodeIff(s, b);
  }

  /** Exactly carriage returns and line feeds are skipped. */
  lemma LineBreaksAreSkipped(s: Bytes, c: byte, t: Bytes)
    ensures StripLineBreaks(s + [c] + t) ==
            if c == '\r' as int || c == '\n' as int then StripLineBreaks(s + t)
            else StripLineBreaks(s) + [c] + StripLineBreaks(t)
  {
    StripOne(c);
    StripAppend(s, t);
    StripAppend(s + [c], t);
    StripAppend(s, [c]);
    assert StripLineBreaks(s) + [] == StripLineBreaks(s);
  }

  lemma StripOne(c: byte)
    ensures StripLineBreaks([c]) == if c == '\r' as int || c == '\n' as int then [] else [c]
  {
    assert [c][1..] == [];
  }

  /** The bits behind the last byte are not checked, and a text without its padding is refused. */
  lemma UnusedBitsAreFree(x: byte, y: byte, n: nat)
    requires n < 16
    ensures DecodeQuads([Symbol(x / 4), Symbol(x % 4 * 16 + n), '=' as int, '=' as int]) == Some([x])
    ensures DecodeQuads([Symbol(x / 4), Symbol(x % 4 * 16 + y / 16), Symbol(y % 16 * 4 + n % 4), '=' as int]) ==
            Some([x, y])
  {
    var one := [Symbol(x / 4), Symbol(x % 4 * 16 + n), '=' as int, '=' as int];
    var two := [Symbol(x / 4), Symbol(x % 4 * 16 + y / 16), Symbol(y % 16 * 4 + n % 4), '=' as int];
    SymbolIff(one[1], x % 4 * 16 + n);
    SymbolIff(two[2], y % 16 * 4 + n % 4);
    OneIff(one, x);
    TwoIff(two, x, y);
  }

  lemma {:induction false} WholeQuads(s: Bytes)
    requires DecodeQuads(s).Some?
    ensures |s| % 4 == 0
  {
    if |s| > 4 { WholeQuads(s[4..]); }
  }

  lemma {:induction false} StripAppend(s: Bytes, t: Bytes)
    ensures StripLineBreaks(s + t) == StripLineBreaks(s) + StripLineBreaks(t)
  {
    if s == [] {
      assert s + t == t;
    } else {
      assert (s + t)[1..] == s[1..] + t;
      StripAppend(s[1..], t);
    }
  }

  lemma EncodeInjective(a: Bytes, b: Bytes)
    requires EncodeToString(a) == EncodeToString(b)
    ensures a == b
  {
    RoundTrip(a);
    RoundTrip(b);
  }
}
