/**
 * The fragment of CBOR (RFC 7049) that the signer emits: integers, byte and text strings,
 * arrays, maps, tags and null, in the canonical form of section 3.9, with a strict decoder.
 */
module Cbor {
  import opened Prelude
  import opened ByteOrder

  type Major = m: nat | m < 8

  /** `NInt(n)` stands for the integer -1 - n (section 2.1, major type 1). */
  datatype Value =
    | UInt(n: nat)
    | NInt(n: nat)
    | BStr(bytes: Bytes)
    | TStr(text: Bytes)
    | Array(items: seq<Value>)
    | Map(entries: seq<Entry>)
    | Tag(number: nat, content: Value)
    | Null

  datatype Entry = Entry(key: Value, val: Value)

  // ---------- Big-endian integers ----------

  function Pow256(k: nat): nat
  {
    if k == 0 then 1 else 256 * Pow256(k - 1)
  }

  function BigEndian(n: nat, k: nat): (bs: Bytes)
    ensures |bs| == k
  {
    if k == 0 then [] else BigEndian(n / 256, k - 1) + [n % 256]
  }

  function FromBigEndian(bs: Bytes): (n: nat)
    ensures n < Pow256(|bs|)
  {
    if bs == [] then 0 else 256 * FromBigEndian(bs[..|bs| - 1]) + bs[|bs| - 1]
  }

  lemma {:induction false} BigEndianRoundTrip(n: nat, k: nat)
    requires n < Pow256(k)
    ensures FromBigEndian(BigEndian(n, k)) == n
  {
    if k != 0 {
      BigEndianRoundTrip(n / 256, k - 1);
      assert BigEndian(n, k)[..k - 1] == BigEndian(n / 256, k - 1);
    }
  }

  lemma {:induction false} FromBigEndianRoundTrip(bs: Bytes)
    ensures BigEndian(FromBigEndian(bs), |bs|) == bs
  {
    if bs != [] {
      FromBigEndianRoundTrip(bs[..|bs| - 1]);
    }
  }

  lemma Pow256Values()
    ensures Pow256(1) == 256 && Pow256(2) == 0x1_0000 && Pow256(4) == 0x1_0000_0000 && Pow256(8) == TWO64
  {
    assert Pow256(3) == 0x100_0000;
    assert Pow256(5) == 0x100_0000_0000;
    assert Pow256(6) == 0x1_0000_0000_0000;
    assert Pow256(7) == 0x100_0000_0000_0000;
  }

  // ---------- Item heads ----------

  /** How many bytes follow the initial byte in the shortest head for `n` (sections 2.1 and 3.9). */
  function ExtraBytes(n: nat): (k: nat)
  {
    if n < 24 then 0 else if n < 0x100 then 1 else if n < 0x1_0000 then 2 else if n < 0x1_0000_0000 then 4 else 8
  }

  /** The additional-information value that announces `k` following bytes. */
  function SizeCode(k: nat): byte
  {
    if k == 1 then 24 else if k == 2 then 25 else if k == 4 then 26 else 27
  }

  /** The shortest head. Arguments of 2^64 and more, which no Go value has, are outside `Canonical`. */
  function Head(major: Major, n: nat): (bs: Bytes)
    ensures |bs| == 1 + ExtraBytes(n)
  {
    var k := ExtraBytes(n);
    if k == 0 then [major * 32 + n] else [major * 32 + SizeCode(k)] + BigEndian(n, k)
  }

  datatype Header = BadHead | Header(major: Major, n: nat, rest: Bytes)

  function LongArgument(info: nat): (k: nat)
  {
    if info == 24 then 1 else if info == 25 then 2 else if info == 26 then 4 else 8
  }

  /** Reads a head and refuses every encoding of its argument but the shortest. */
  function DecodeHead(bs: Bytes): (h: Header)
    ensures h.Header? ==> |h.rest| < |bs|
  {
    if bs == [] then BadHead
    else if bs[0] % 32 < 24 then Header(bs[0] / 32, bs[0] % 32, bs[1..])
    else if bs[0] % 32 > 27 then BadHead
    else DecodeLongHead(bs[0] / 32, LongArgument(bs[0] % 32), bs[1..])
  }

  function DecodeLongHead(major: Major, k: nat, bs: Bytes): (h: Header)
    ensures h.Header? ==> |h.rest| <= |bs|
  {
    if |bs| < k then BadHead
    else
      var n := FromBigEndian(bs[..k]);
      if ExtraBytes(n) == k then Header(major, n, bs[k..]) else BadHead
  }

  /** The initial byte gives back its major type and its additional information. */
  lemma InitialByte(major: Major, info: nat)
    requires info < 32
    ensures (major * 32 + info) / 32 == major && (major * 32 + info) % 32 == info
  {}

  lemma SplitInitialByte(b: byte)
    ensures b / 32 * 32 + b % 32 == b
    ensures 24 <= b % 32 <= 27 ==> LongArgument(b % 32) in {1, 2, 4, 8} && SizeCode(LongArgument(b % 32)) == b % 32
  {}

  lemma LongHeadRoundTrip(major: Major, n: nat, tail: Bytes)
    requires 24 <= n < TWO64
    ensures DecodeLongHead(major, ExtraBytes(n), BigEndian(n, ExtraBytes(n)) + tail) == Header(major, n, tail)
  {
    var k := ExtraBytes(n);
    Pow256Values();
    BigEndianRoundTrip(n, k);
    assert (BigEndian(n, k) + tail)[..k] == BigEndian(n, k);
    assert (BigEndian(n, k) + tail)[k..] == tail;
  }

  lemma HeadRoundTrip(major: Major, n: nat, tail: Bytes)
    requires n < TWO64
    ensures DecodeHead(Head(major, n) + tail) == Header(major, n, tail)
  {
    var k := ExtraBytes(n);
    var bs := Head(major, n) + tail;
    if k == 0 {
      InitialByte(major, n);
      assert bs[0] == major * 32 + n && bs[1..] == tail;
    } else {
      InitialByte(major, SizeCode(k));
      assert bs[0] == major * 32 + SizeCode(k) && LongArgument(SizeCode(k)) == k;
      assert bs[1..] == BigEndian(n, k) + tail;
      LongHeadRoundTrip(major, n, tail);
    }
  }

  lemma LongHeadUnique(major: Major, k: nat, bs: Bytes)
    requires k in {1, 2, 4, 8} && DecodeLongHead(major, k, bs).Header?
    ensures var h := DecodeLongHead(major, k, bs);
            h.major == major && h.n < TWO64 && ExtraBytes(h.n) == k && bs == BigEndian(h.n, k) + h.rest
  {
    Pow256Values();
    var n := FromBigEndian(bs[..k]);
    FromBigEndianRoundTrip(bs[..k]);
    assert |bs[..k]| == k && n < TWO64;
    assert bs == bs[..k] + bs[k..];
  }

  lemma Glue(bs: Bytes, first: Bytes, middle: Bytes, more: Bytes, rest: Bytes)
    requires bs == first + middle && middle == more + rest
    ensures bs == first + more + rest
  {
  }

  lemma HeadUnique(bs: Bytes)
    requires DecodeHead(bs).Header?
    ensures var h := DecodeHead(bs);
            h.n < TWO64 && bs == Head(h.major, h.n) + h.rest
  {
    SplitInitialByte(bs[0]);
    var h, major, info := DecodeHead(bs), bs[0] / 32, bs[0] % 32;
    assert bs == [bs[0]] + bs[1..];
    if info < 24 {
      assert Head(major, info) == [bs[0]];
    } else {
      var k := LongArgument(info);
      LongHeadUnique(major, k, bs[1..]);
      assert Head(major, h.n) == [bs[0]] + BigEndian(h.n, k);
      Glue(bs, [bs[0]], bs[1..], BigEndian(h.n, k), h.rest);
    }
  }

  /** The layout that section 2.1 of RFC 7049 prescribes, written out byte by byte. */
  lemma HeadLayout(major: Major, n: nat)
    requires n < TWO64
    ensures n < 24 ==> Head(major, n) == [major * 32 + n]
    ensures 24 <= n < 0x100 ==> Head(major, n) == [major * 32 + 24, n]
    ensures 0x100 <= n < 0x1_0000 ==> Head(major, n) == [major * 32 + 25, n / 0x100, n % 0x100]
    ensures 0x1_0000 <= n < 0x1_0000_0000 ==>
              Head(major, n) == [major * 32 + 26, n / 0x100_0000, n / 0x1_0000 % 0x100, n / 0x100 % 0x100, n % 0x100]
    ensures 0x1_0000_0000 <= n ==> && |Head(major, n)| == 9 && Head(major, n)[0] == major * 32 + 27
                                   && FromBigEndian(Head(major, n)[1..]) == n
  {
    Pow256Values();
    assert BigEndian(n, 1) == [n % 0x100];
    assert BigEndian(n, 2) == BigEndian(n / 0x100, 1) + [n % 0x100];
    assert BigEndian(n / 0x1_0000, 1) == [n / 0x1_0000 % 0x100];
    FourBytes(n);
    if 0x1_0000_0000 <= n {
      BigEndianRoundTrip(n, 8);
      assert Head(major, n)[1..] == BigEndian(n, 8);
    }
  }

  lemma FourBytes(n: nat)
    ensures n < 0x1_0000_0000 ==>
              BigEndian(n, 4) == [n / 0x100_0000, n / 0x1_0000 % 0x100, n / 0x100 % 0x100, n % 0x100]
  {
    var a, b, c := n / 0x100, n / 0x1_0000, n / 0x100_0000;
    assert a / 0x100 == b && b / 0x100 == c;
    assert BigEndian(c, 1) == [c % 0x100];
    assert BigEndian(b, 2) == BigEndian(c, 1) + [b % 0x100];
    assert BigEndian(a, 3) == BigEndian(b, 2) + [a % 0x100];
    assert BigEndian(n, 4) == BigEndian(a, 3) + [n % 0x100];
  }

  // ---------- Encoder ----------

  function Encode(v: Value): (bs: Bytes)
    decreases v, 1
  {
    match v
    case UInt(n) => Head(0, n)
    case NInt(n) => Head(1, n)
    case BStr(b) => Head(2, |b|) + b
    case TStr(t) => Head(3, |t|) + t
    case Array(items) => Head(4, |items|) + EncodeItems(items)
    case Map(entries) => Head(5, |entries|) + EncodeEntries(entries)
    case Tag(number, content) => Head(6, number) + Encode(content)
    case Null => Head(7, 22)
  }

  function EncodeItems(items: seq<Value>): (bs: Bytes)
    decreases items, 0
  {
    if items == [] then [] else Encode(items[0]) + EncodeItems(items[1..])
  }

  function EncodeEntries(entries: seq<Entry>): (bs: Bytes)
    decreases entries, 0
  {
    if entries == [] then [] else EncodeEntry(entries[0]) + EncodeEntries(entries[1..])
  }

  function EncodeEntry(e: Entry): (bs: Bytes)
    decreases e, 2
  {
    Encode(e.key) + Encode(e.val)
  }

  /** Section 3.9 of RFC 7049: map keys strictly increase, shorter encodings first. */
  predicate SortedKeys(entries: seq<Entry>)
  {
    forall i, j | 0 <= i < j < |entries| :: LengthFirst(Encode(entries[i].key), Encode(entries[j].key))
  }

  /** Arguments fit 64 bits and the keys of every map are sorted and distinct. */
  predicate Canonical(v: Value)
    decreases v, 1
  {
    match v
    case UInt(n) => n < TWO64
    case NInt(n) => n < TWO64
    case BStr(b) => |b| < TWO64
    case TStr(t) => |t| < TWO64
    case Array(items) => |items| < TWO64 && CanonicalItems(items)
    case Map(entries) => |entries| < TWO64 && SortedKeys(entries) && CanonicalEntries(entries)
    case Tag(number, content) => number < TWO64 && Canonical(content)
    case Null => true
  }

  predicate CanonicalItems(items: seq<Value>)
    decreases items, 0
  {
    items != [] ==> Canonical(items[0]) && CanonicalItems(items[1..])
  }

  predicate CanonicalEntries(entries: seq<Entry>)
    decreases entries, 0
  {
    entries != [] ==> CanonicalEntry(entries[0]) && CanonicalEntries(entries[1..])
  }

  predicate CanonicalEntry(e: Entry)
    decreases e, 2
  {
    Canonical(e.key) && Canonical(e.val)
  }

  lemma ItemsCons(v: Value, vs: seq<Value>)
    ensures EncodeItems([v] + vs) == Encode(v) + EncodeItems(vs)
    ensures CanonicalItems([v] + vs) <==> Canonical(v) && CanonicalItems(vs)
  {
    assert ([v] + vs)[1..] == vs;
  }

  lemma EntriesCons(e: Entry, es: seq<Entry>)
    ensures EncodeEntries([e] + es) == EncodeEntry(e) + EncodeEntries(es)
    ensures CanonicalEntries([e] + es) <==> CanonicalEntry(e) && CanonicalEntries(es)
  {
    assert ([e] + es)[1..] == es;
  }

  // ---------- Strict decoder ----------

  /** Decodes one item in canonical form and returns it with the bytes behind it. */
  function Decode(bs: Bytes): (r: Parse<Value>)
    ensures r.Parsed? ==> |r.rest| < |bs|
    decreases |bs|, 0
  {
    match DecodeHead(bs)
    case BadHead => Fail
    case Header(major, n, rest) => DecodeBody(major, n, rest)
  }

  function DecodeBody(major: Major, n: nat, bs: Bytes): (r: Parse<Value>)
    ensures r.Parsed? ==> |r.rest| <= |bs|
    decreases |bs|, 3
  {
    match major
    case 0 => Parsed(UInt(n), bs)
    case 1 => Parsed(NInt(n), bs)
    case 2 => if |bs| < n then Fail else Parsed(BStr(bs[..n]), bs[n..])
    case 3 => if |bs| < n then Fail else Parsed(TStr(bs[..n]), bs[n..])
    case 4 =>
      (match DecodeItems(n, bs)
       case Fail => Fail
       case Parsed(items, rest) => Parsed(Array(items), rest))
    case 5 =>
      (match DecodeEntries(n, bs)
       case Fail => Fail
       case Parsed(entries, rest) => if SortedKeys(entries) then Parsed(Map(entries), rest) else Fail)
    case 6 =>
      (match Decode(bs)
       case Fail => Fail
       case Parsed(content, rest) => Parsed(Tag(n, content), rest))
    case 7 => if n == 22 then Parsed(Null, bs) else Fail
  }

  function DecodeItems(n: nat, bs: Bytes): (r: Parse<seq<Value>>)
    ensures r.Parsed? ==> |r.rest| <= |bs| && |r.item| == n
    decreases |bs|, 1
  {
    if n == 0 then Parsed([], bs)
    else
      match Decode(bs)
      case Fail => Fail
      case Parsed(v, bs1) =>
        match DecodeItems(n - 1, bs1)
        case Fail => Fail
        case Parsed(vs, rest) => Parsed([v] + vs, rest)
  }

  function DecodeEntry(bs: Bytes): (r: Parse<Entry>)
    ensures r.Parsed? ==> |r.rest| < |bs|
    decreases |bs|, 1
  {
    match Decode(bs)
    case Fail => Fail
    case Parsed(k, bs1) =>
      match Decode(bs1)
      case Fail => Fail
      case Parsed(v, rest) => Parsed(Entry(k, v), rest)
  }

  function DecodeEntries(n: nat, bs: Bytes): (r: Parse<seq<Entry>>)
    ensures r.Parsed? ==> |r.rest| <= |bs| && |r.item| == n
    decreases |bs|, 2
  {
    if n == 0 then Parsed([], bs)
    else
      match DecodeEntry(bs)
      case Fail => Fail
      case Parsed(e, bs1) =>
        match DecodeEntries(n - 1, bs1)
        case Fail => Fail
        case Parsed(es, rest) => Parsed([e] + es, rest)
  }

  // ---------- Decoding undoes encoding ----------

  lemma {:induction false} DecodeEncode(v: Value, tail: Bytes)
    requires Canonical(v)
    ensures Decode(Encode(v) + tail) == Parsed(v, tail)
    decreases v, 1
  {
    match v
    case UInt(n) => HeadThenBody(0, n, [], tail);
    case NInt(n) => HeadThenBody(1, n, [], tail);
    case BStr(b) => HeadThenBody(2, |b|, b, tail);
    case TStr(t) => HeadThenBody(3, |t|, t, tail);
    case Array(items) =>
      HeadThenBody(4, |items|, EncodeItems(items), tail);
      DecodeEncodeItems(items, tail);
    case Map(entries) =>
      HeadThenBody(5, |entries|, EncodeEntries(entries), tail);
      DecodeEncodeEntries(entries, tail);
    case Tag(number, content) =>
      HeadThenBody(6, number, Encode(content), tail);
      DecodeEncode(content, tail);
    case Null => HeadThenBody(7, 22, [], tail);
  }

  lemma HeadThenBody(major: Major, n: nat, body: Bytes, tail: Bytes)
    requires n < TWO64
    ensures Decode(Head(major, n) + body + tail) == DecodeBody(major, n, body + tail)
    ensures body == [] ==> Decode(Head(major, n) + tail) == DecodeBody(major, n, tail)
  {
    assert Head(major, n) + body + tail == Head(major, n) + (body + tail);
    HeadRoundTrip(major, n, body + tail);
    assert body == [] ==> body + tail == tail;
  }

  lemma {:induction false} DecodeEncodeItems(items: seq<Value>, tail: Bytes)
    requires CanonicalItems(items)
    ensures DecodeItems(|items|, EncodeItems(items) + tail) == Parsed(items, tail)
    decreases items, 0
  {
    if items == [] {
      assert EncodeItems(items) + tail == tail;
    } else {
      assert EncodeItems(items) + tail == Encode(items[0]) + (EncodeItems(items[1..]) + tail);
      DecodeEncode(items[0], EncodeItems(items[1..]) + tail);
      DecodeEncodeItems(items[1..], tail);
      assert [items[0]] + items[1..] == items;
    }
  }

  lemma {:induction false} DecodeEncodeEntries(entries: seq<Entry>, tail: Bytes)
    requires CanonicalEntries(entries)
    ensures DecodeEntries(|entries|, EncodeEntries(entries) + tail) == Parsed(entries, tail)
    decreases entries, 0
  {
    if entries == [] {
      assert EncodeEntries(entries) + tail == tail;
    } else {
      assert EncodeEntries(entries) + tail == EncodeEntry(entries[0]) + (EncodeEntries(entries[1..]) + tail);
      DecodeEncodeEntry(entries[0], EncodeEntries(entries[1..]) + tail);
      DecodeEncodeEntries(entries[1..], tail);
      assert [entries[0]] + entries[1..] == entries;
    }
  }

  lemma {:induction false} DecodeEncodeEntry(e: Entry, tail: Bytes)
    requires CanonicalEntry(e)
    ensures DecodeEntry(EncodeEntry(e) + tail) == Parsed(e, tail)
    decreases e, 2
  {
    assert EncodeEntry(e) + tail == Encode(e.key) + (Encode(e.val) + tail);
    DecodeEncode(e.key, Encode(e.val) + tail);
    DecodeEncode(e.val, tail);
  }

  // ---------- Encoding undoes decoding ----------

  lemma {:induction false} EncodeDecode(bs: Bytes, v: Value, rest: Bytes)
    requires Decode(bs) == Parsed(v, rest)
    ensures Canonical(v) && bs == Encode(v) + rest
    decreases |bs|, 0
  {
    HeadUnique(bs);
    var h := DecodeHead(bs);
    EncodeDecodeBody(h.major, h.n, h.rest, v, rest);
  }

  lemma {:induction false} EncodeDecodeBody(major: Major, n: nat, bs: Bytes, v: Value, rest: Bytes)
    requires n < TWO64 && DecodeBody(major, n, bs) == Parsed(v, rest)
    ensures Canonical(v) && Head(major, n) + bs == Encode(v) + rest
    decreases |bs|, 3
  {
    match major
    case 4 => EncodeDecodeItems(n, bs, v.items, rest);
    case 5 => EncodeDecodeEntries(n, bs, v.entries, rest);
    case 6 => EncodeDecode(bs, v.content, rest);
    case _ =>
  }

  lemma ItemsStep(n: nat, bs: Bytes, items: seq<Value>, rest: Bytes)
    requires n != 0 && DecodeItems(n, bs) == Parsed(items, rest)
    ensures Decode(bs).Parsed?
    ensures var more := DecodeItems(n - 1, Decode(bs).rest);
            more.Parsed? && items == [Decode(bs).item] + more.item && rest == more.rest
  {
  }

  lemma {:induction false} EncodeDecodeItems(n: nat, bs: Bytes, items: seq<Value>, rest: Bytes)
    requires DecodeItems(n, bs) == Parsed(items, rest)
    ensures CanonicalItems(items) && bs == EncodeItems(items) + rest
    decreases |bs|, 1
  {
    if n != 0 {
      ItemsStep(n, bs, items, rest);
      var v, bs1 := Decode(bs).item, Decode(bs).rest;
      EncodeDecode(bs, v, bs1);
      EncodeDecodeItems(n - 1, bs1, items[1..], rest);
      ItemsCons(v, items[1..]);
      Glue(bs, Encode(v), bs1, EncodeItems(items[1..]), rest);
      assert items == [v] + items[1..];
    }
  }

  lemma EntriesStep(n: nat, bs: Bytes, entries: seq<Entry>, rest: Bytes)
    requires n != 0 && DecodeEntries(n, bs) == Parsed(entries, rest)
    ensures DecodeEntry(bs).Parsed?
    ensures var more := DecodeEntries(n - 1, DecodeEntry(bs).rest);
            more.Parsed? && entries == [DecodeEntry(bs).item] + more.item && rest == more.rest
  {
  }

  lemma {:induction false} EncodeDecodeEntries(n: nat, bs: Bytes, entries: seq<Entry>, rest: Bytes)
    requires DecodeEntries(n, bs) == Parsed(entries, rest)
    ensures CanonicalEntries(entries) && bs == EncodeEntries(entries) + rest
    decreases |bs|, 2
  {
    if n != 0 {
      EntriesStep(n, bs, entries, rest);
      var e, bs1 := DecodeEntry(bs).item, DecodeEntry(bs).rest;
      EncodeDecodeEntry(bs, e, bs1);
      EncodeDecodeEntries(n - 1, bs1, entries[1..], rest);
      EntriesCons(e, entries[1..]);
      Glue(bs, EncodeEntry(e), bs1, EncodeEntries(entries[1..]), rest);
      assert entries == [e] + entries[1..];
    }
  }

  lemma {:induction false} EncodeDecodeEntry(bs: Bytes, e: Entry, rest: Bytes)
    requires DecodeEntry(bs) == Parsed(e, rest)
    ensures CanonicalEntry(e) && bs == EncodeEntry(e) + rest
    decreases |bs|, 1
  {
    var k := Decode(bs);
    EncodeDecode(bs, e.key, k.rest);
    EncodeDecode(k.rest, e.val, rest);
  }

  // ---------- Consequences ----------

  /** The decoder accepts exactly the canonical encodings, each with one value. */
  lemma DecodeIffEncoding(bs: Bytes, v: Value, rest: Bytes)
    ensures Decode(bs) == Parsed(v, rest) <==> Canonical(v) && bs == Encode(v) + rest
  {
    if Decode(bs) == Parsed(v, rest) {
      EncodeDecode(bs, v, rest);
    }
    if Canonical(v) && bs == Encode(v) + rest {
      DecodeEncode(v, rest);
    }
  }

  /** No encoding is a prefix of another: whatever follows, the split is the same. */
  lemma PrefixFree(v: Value, w: Value, s: Bytes, t: Bytes)
    requires Canonical(v) && Canonical(w)
    requires Encode(v) + s == Encode(w) + t
    ensures v == w && s == t
  {
    DecodeEncode(v, s);
    DecodeEncode(w, t);
  }

  lemma EncodeInjective(v: Value, w: Value)
    requires Canonical(v) && Canonical(w)
    requires Encode(v) == Encode(w)
    ensures v == w
  {
    PrefixFree(v, w, [], []);
  }
}
