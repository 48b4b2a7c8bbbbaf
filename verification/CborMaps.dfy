/**
 * Marshalling of Go maps with string keys: the entries are visited in some iteration order
 * and sorted before they are written (section 3.9 of RFC 7049).
 */
module CborMaps {
  import opened Prelude
  import opened ByteOrder
  import opened Cbor

  type TextMap = map<Bytes, Bytes>

  /** A Go string is shorter than 2^63 bytes; anything below 2^64 fits a CBOR head. */
  ghost predicate FitsCbor(m: TextMap)
  {
    |m| < TWO64 && forall k | k in m :: |k| < TWO64 && |m[k]| < TWO64
  }

  /** The library's key order: length first on the encoded keys. */
  predicate TextLess(a: Bytes, b: Bytes)
  {
    LengthFirst(Encode(TStr(a)), Encode(TStr(b)))
  }

  function TextEntries(m: TextMap, keys: seq<Bytes>): (es: seq<Entry>)
    requires forall k | k in keys :: k in m
    ensures |es| == |keys|
    ensures forall i | 0 <= i < |es| :: es[i] == Entry(TStr(keys[i]), TStr(m[keys[i]]))
  {
    seq(|keys|, i requires 0 <= i < |keys| => Entry(TStr(keys[i]), TStr(m[keys[i]])))
  }

  /** `order` is the iteration order in which the encoder met the keys. */
  function TextMapValue(m: TextMap, order: seq<Bytes>): Value
    requires Enumerates(order, m.Keys)
  {
    SameMembers(SortBy(TextLess, order), order);
    Map(TextEntries(m, SortBy(TextLess, order)))
  }

  function MarshalTextMap(m: TextMap, order: seq<Bytes>): Bytes
    requires Enumerates(order, m.Keys)
  {
    Encode(TextMapValue(m, order))
  }

  // ---------- The order on text keys ----------

  lemma {:induction false} BigEndianLex(n: nat, m: nat, k: nat)
    requires n < m < Pow256(k)
    ensures Lex(BigEndian(n, k), BigEndian(m, k))
  {
    var p, q := BigEndian(n / 256, k - 1), BigEndian(m / 256, k - 1);
    if n / 256 < m / 256 {
      BigEndianLex(n / 256, m / 256, k - 1);
      LexDecidedByPrefix(p, q, [n % 256], [m % 256]);
    } else {
      assert Lex([n % 256], [m % 256]);
      LexCommonPrefix(p, [n % 256], [m % 256]);
    }
  }

  lemma LexBehindByte(b: byte, x: Bytes, y: Bytes)
    requires Lex(x, y)
    ensures Lex([b] + x, [b] + y)
  {
    assert ([b] + x)[1..] == x && ([b] + y)[1..] == y;
  }

  /** Heads of different sizes, and one-byte heads, differ in their first bytes. */
  lemma FirstByteGrows(major: Major, n: nat, m: nat)
    requires n < m < TWO64 && (ExtraBytes(n) != ExtraBytes(m) || ExtraBytes(n) == 0)
    ensures ExtraBytes(n) <= ExtraBytes(m) && Head(major, n)[0] < Head(major, m)[0]
  {
  }

  lemma SameSizeHeadLex(major: Major, n: nat, m: nat, x: Bytes, y: Bytes)
    requires n < m < TWO64 && ExtraBytes(n) == ExtraBytes(m) != 0
    ensures Lex(Head(major, n) + x, Head(major, m) + y)
  {
    var k := ExtraBytes(n);
    Pow256Values();
    BigEndianLex(n, m, k);
    LexDecidedByPrefix(BigEndian(n, k), BigEndian(m, k), x, y);
    LexBehindByte(major * 32 + SizeCode(k), BigEndian(n, k) + x, BigEndian(m, k) + y);
    assert Head(major, n) + x == [major * 32 + SizeCode(k)] + (BigEndian(n, k) + x);
    assert Head(major, m) + y == [major * 32 + SizeCode(k)] + (BigEndian(m, k) + y);
  }

  lemma HeadLex(major: Major, n: nat, m: nat, x: Bytes, y: Bytes)
    requires n < m < TWO64
    ensures Lex(Head(major, n) + x, Head(major, m) + y)
    ensures |Head(major, n)| <= |Head(major, m)|
  {
    if ExtraBytes(n) == ExtraBytes(m) != 0 {
      SameSizeHeadLex(major, n, m, x, y);
    } else {
      FirstByteGrows(major, n, m);
    }
  }

  /**
   * For text keys the length-first order of section 3.9 of RFC 7049 and the bytewise order of
   * section 4.2.1 of RFC 8949 are the same order.
   */
  lemma LengthFirstIsBytewise(a: Bytes, b: Bytes)
    requires |a| < TWO64 && |b| < TWO64
    ensures TextLess(a, b) <==> Lex(Encode(TStr(a)), Encode(TStr(b)))
    ensures TextLess(a, b) <==> LengthFirst(a, b)
  {
    if |a| < |b| {
      HeadLex(3, |a|, |b|, a, b);
    } else if |b| < |a| {
      HeadLex(3, |b|, |a|, b, a);
      if Lex(Encode(TStr(a)), Encode(TStr(b))) {
        LexTransitive(Encode(TStr(a)), Encode(TStr(b)), Encode(TStr(a)));
        LexIrreflexive(Encode(TStr(a)));
      }
    } else {
      LexCommonPrefix(Head(3, |a|), a, b);
    }
  }

  lemma TextLessOrders(keys: set<Bytes>)
    requires forall k | k in keys :: |k| < TWO64
    ensures Orders(TextLess, keys)
  {
    LengthFirstOrders(keys);
    forall a, b | a in keys && b in keys ensures TextLess(a, b) <==> LengthFirst(a, b) {
      LengthFirstIsBytewise(a, b);
    }
  }

  // ---------- Marshalled maps ----------

  lemma {:induction false} TextEntriesCanonical(m: TextMap, keys: seq<Bytes>)
    requires forall k | k in keys :: k in m
    requires forall k | k in m :: |k| < TWO64 && |m[k]| < TWO64
    ensures CanonicalEntries(TextEntries(m, keys))
  {
    if keys != [] {
      assert keys[0] in keys;
      TextEntriesCanonical(m, keys[1..]);
      assert TextEntries(m, keys)[1..] == TextEntries(m, keys[1..]);
    }
  }

  lemma TextMapCanonical(m: TextMap, order: seq<Bytes>)
    requires FitsCbor(m) && Enumerates(order, m.Keys)
    ensures Canonical(TextMapValue(m, order))
  {
    var keys := SortBy(TextLess, order);
    TextLessOrders(m.Keys);
    SortEnumeration(TextLess, order, m.Keys);
    DistinctLength(keys, m.Keys);
    TextEntriesCanonical(m, keys);
    var es := TextEntries(m, keys);
    forall i, j | 0 <= i < j < |es| ensures LengthFirst(Encode(es[i].key), Encode(es[j].key)) {
      assert TextLess(keys[i], keys[j]);
    }
  }

  /** Whatever order Go's map iteration takes, the bytes are the same. */
  lemma MarshalIgnoresIterationOrder(m: TextMap, order1: seq<Bytes>, order2: seq<Bytes>)
    requires FitsCbor(m) && Enumerates(order1, m.Keys) && Enumerates(order2, m.Keys)
    ensures MarshalTextMap(m, order1) == MarshalTextMap(m, order2)
  {
    TextLessOrders(m.Keys);
    SortIgnoresOrder(TextLess, order1, order2, m.Keys);
  }

  /** Two maps have the same encoding exactly when they are equal. */
  lemma MarshalTextMapInjective(m1: TextMap, order1: seq<Bytes>, m2: TextMap, order2: seq<Bytes>)
    requires FitsCbor(m1) && Enumerates(order1, m1.Keys)
    requires FitsCbor(m2) && Enumerates(order2, m2.Keys)
    ensures MarshalTextMap(m1, order1) == MarshalTextMap(m2, order2) <==> m1 == m2
  {
    if m1 == m2 {
      MarshalIgnoresIterationOrder(m1, order1, order2);
    }
    if MarshalTextMap(m1, order1) == MarshalTextMap(m2, order2) {
      TextMapCanonical(m1, order1);
      TextMapCanonical(m2, order2);
      EncodeInjective(TextMapValue(m1, order1), TextMapValue(m2, order2));
      EntriesDetermineMap(m1, order1, m2, order2);
      EntriesDetermineMap(m2, order2, m1, order1);
      assert m1.Keys == m2.Keys;
    }
  }

  lemma EntriesDetermineMap(m1: TextMap, order1: seq<Bytes>, m2: TextMap, order2: seq<Bytes>)
    requires Enumerates(order1, m1.Keys) && Enumerates(order2, m2.Keys)
    requires TextMapValue(m1, order1) == TextMapValue(m2, order2)
    ensures forall k | k in m1 :: k in m2 && m2[k] == m1[k]
  {
    var keys1, keys2 := SortBy(TextLess, order1), SortBy(TextLess, order2);
    SameMembers(keys1, order1);
    SameMembers(keys2, order2);
    forall k | k in m1 ensures k in m2 && m2[k] == m1[k] {
      assert k in keys1;
      var i :| 0 <= i < |keys1| && keys1[i] == k;
      assert TextEntries(m1, keys1)[i] == TextEntries(m2, keys2)[i];
      assert keys2[i] in m2;
    }
  }

  // ---------- What a payload made of a map is ----------

  /** The entries are those of the map: text keys with text values, each once. */
  ghost predicate SameEntries(es: seq<Entry>, m: TextMap)
  {
    && |es| == |m|
    && (forall i | 0 <= i < |es| ::
          && es[i].key.TStr? && es[i].val.TStr?
          && es[i].key.text in m && m[es[i].key.text] == es[i].val.text)
    && forall k | k in m :: Entry(TStr(k), TStr(m[k])) in es
  }

  /** A strict decoder reads these bytes as a map with the entries of `m`, and nothing behind it. */
  ghost predicate EncodesMap(bs: Bytes, m: TextMap)
  {
    var v := Decode(bs);
    v.Parsed? && v.rest == [] && v.item.Map? && SameEntries(v.item.entries, m)
  }

  function KeyTexts(es: seq<Entry>): (keys: seq<Bytes>)
    requires forall i | 0 <= i < |es| :: es[i].key.TStr?
    ensures |keys| == |es| && forall i | 0 <= i < |es| :: keys[i] == es[i].key.text
  {
    if es == [] then [] else [es[0].key.text] + KeyTexts(es[1..])
  }

  lemma MarshalledEncodesMap(m: TextMap, order: seq<Bytes>)
    requires FitsCbor(m) && Enumerates(order, m.Keys)
    ensures EncodesMap(MarshalTextMap(m, order), m)
  {
    var keys := SortBy(TextLess, order);
    SameMembers(keys, order);
    TextMapCanonical(m, order);
    DecodeEncode(TextMapValue(m, order), []);
    assert MarshalTextMap(m, order) + [] == MarshalTextMap(m, order);
    TextLessOrders(m.Keys);
    SortEnumeration(TextLess, order, m.Keys);
    EntriesOfAll(m, keys);
  }

  lemma EntriesOfAll(m: TextMap, keys: seq<Bytes>)
    requires Enumerates(keys, m.Keys)
    ensures SameEntries(TextEntries(m, keys), m)
  {
    DistinctLength(keys, m.Keys);
    var es := TextEntries(m, keys);
    forall k | k in m ensures Entry(TStr(k), TStr(m[k])) in es {
      assert k in keys;
      var i :| 0 <= i < |keys| && keys[i] == k;
      assert es[i] == Entry(TStr(k), TStr(m[k]));
    }
  }

  lemma SortedEntries(es: seq<Entry>, m: TextMap)
    requires SameEntries(es, m) && SortedKeys(es)
    ensures Enumerates(KeyTexts(es), m.Keys) && Sorted(TextLess, KeyTexts(es))
    ensures TextEntries(m, KeyTexts(es)) == es
  {
    var keys := KeyTexts(es);
    forall k | k in m ensures k in keys {
      var i :| 0 <= i < |es| && es[i] == Entry(TStr(k), TStr(m[k]));
      assert keys[i] == k;
    }
    forall i, j | 0 <= i < j < |keys| ensures TextLess(keys[i], keys[j]) && keys[i] != keys[j] {
      assert es[i].key == TStr(keys[i]) && es[j].key == TStr(keys[j]);
      LexIrreflexive(Encode(es[i].key));
    }
  }

  /** Only one byte string encodes a map: the one the encoder writes, in whatever order it meets the keys. */
  lemma EncodesMapIff(bs: Bytes, m: TextMap, order: seq<Bytes>)
    requires FitsCbor(m) && Enumerates(order, m.Keys)
    ensures EncodesMap(bs, m) <==> bs == MarshalTextMap(m, order)
  {
    MarshalledEncodesMap(m, order);
    if EncodesMap(bs, m) {
      var es := Decode(bs).item.entries;
      var keys := SortBy(TextLess, order);
      EncodeDecode(bs, Map(es), []);
      SortedEntries(es, m);
      TextLessOrders(m.Keys);
      SortEnumeration(TextLess, order, m.Keys);
      SortedUnique(TextLess, keys, KeyTexts(es), m.Keys);
    }
  }

  /** The bytes for a map of two short keys and values, the shorter or smaller key first. */
  lemma TwoEntriesLayout(k: Bytes, v: Bytes, l: Bytes, w: Bytes)
    requires |k| < 24 && |v| < 24 && |l| < 24 && |w| < 24 && LengthFirst(k, l)
    ensures k != l && Enumerates([k, l], map[k := v, l := w].Keys)
    ensures MarshalTextMap(map[k := v, l := w], [k, l]) ==
            [0xA2] + (([0x60 + |k|] + k + ([0x60 + |v|] + v)) + (([0x60 + |l|] + l + ([0x60 + |w|] + w)) + []))
  {
    LexIrreflexive(k);
    LengthFirstIsBytewise(k, l);
    var m := map[k := v, l := w];
    assert SortBy(TextLess, [k, l]) == [k, l] by { SortOfTwo(k, l); }
    var d, e := Entry(TStr(k), TStr(v)), Entry(TStr(l), TStr(w));
    assert TextEntries(m, [k, l]) == [d] + [e];
    assert [e] + [] == [e];
    EntriesCons(d, [e]);
    EntriesCons(e, []);
  }

  lemma SortOfTwo(k: Bytes, l: Bytes)
    requires TextLess(k, l)
    ensures SortBy(TextLess, [k, l]) == [k, l]
  {
    assert [k, l][1..] == [l] && [l][1..] == [];
    assert Insert(TextLess, l, []) == [l];
  }

  /** The bytes for a map of one short key and value: A1, then two text strings. */
  lemma OneEntryLayout(k: Bytes, v: Bytes)
    requires |k| < 24 && |v| < 24
    ensures MarshalTextMap(map[], []) == [0xA0]
    ensures MarshalTextMap(map[k := v], [k]) == [0xA1, 0x60 + |k|] + k + [0x60 + |v|] + v
  {
    var m := map[k := v];
    assert m.Keys == {k};
    assert SortBy(TextLess, [k]) == [k];
    var e := Entry(TStr(k), TStr(v));
    assert TextEntries(m, [k]) == [e];
    assert EncodeEntries([e]) == EncodeEntry(e) + EncodeEntries([]);
  }
}
