/**
 * Assembly of COSE_Sign1 objects and signature structures (sections 4.2 and 4.4 of RFC 8152),
 * and the verifier that a recipient runs on them.
 */
module Cose {
  import opened Prelude
  import opened CryptoLib
  import opened Cbor

  const ALG_LABEL: nat := 1
  const ES256_NEGATED: nat := 6        // the algorithm identifier -7 is -1 - 6
  const KID_LABEL: nat := 4
  const SIGN1_TAG: nat := 18
  const SIGN1_CONTEXT: Bytes := [83, 105, 103, 110, 97, 116, 117, 114, 101, 49] // "Signature1"

  /** The map {1: -7}, encoded once when the signer is created. */
  function ProtectedHeader(): Bytes
  {
    Encode(Map([Entry(UInt(ALG_LABEL), NInt(ES256_NEGATED))]))
  }

  function SigStructure(protected: Bytes, payload: Bytes): Value
  {
    Array([TStr(SIGN1_CONTEXT), BStr(protected), BStr([]), BStr(payload)])
  }

  function GetSigStructBytes(payload: Bytes): Bytes
  {
    Encode(SigStructure(ProtectedHeader(), payload))
  }

  datatype CoseObject = CoseObject(protected: Bytes, kid: Bytes, payload: Bytes, signature: Bytes)

  function Sign1Value(o: CoseObject): Value
  {
    Tag(SIGN1_TAG, Array([BStr(o.protected), Map([Entry(UInt(KID_LABEL), BStr(o.kid))]),
                          BStr(o.payload), BStr(o.signature)]))
  }

  function EncodeCose(o: CoseObject): Bytes
  {
    Encode(Sign1Value(o))
  }

  function GetCose(kid: Bytes, payload: Bytes, signature: Bytes): Bytes
  {
    EncodeCose(CoseObject(ProtectedHeader(), kid, payload, signature))
  }

  function CreateSignedCose(c: Crypto, hash: Sha256Sum, priv: Bytes, kid: Bytes, payload: Bytes, rnd: Bytes):
      Option<Bytes>
  {
    var signature :- c.sign(priv, hash, rnd);
    Some(GetCose(kid, payload, signature))
  }

  // ---------- The recipient ----------

  /** Reads a tagged COSE_Sign1 object whose unprotected header holds just a key identifier. */
  function DecodeCose(bs: Bytes): Option<CoseObject>
  {
    match Decode(bs)
    case Fail => None
    case Parsed(v, rest) => if rest == [] then FromValue(v) else None
  }

  function FromValue(v: Value): Option<CoseObject>
  {
    if && v.Tag? && v.number == SIGN1_TAG && v.content.Array? && |v.content.items| == 4
       && v.content.items[0].BStr? && v.content.items[2].BStr? && v.content.items[3].BStr?
       && IsKidMap(v.content.items[1])
    then
      var items := v.content.items;
      Some(CoseObject(items[0].bytes, items[1].entries[0].val.bytes, items[2].bytes, items[3].bytes))
    else None
  }

  predicate IsKidMap(v: Value)
  {
    && v.Map? && |v.entries| == 1
    && v.entries[0].key == UInt(KID_LABEL) && v.entries[0].val.BStr?
  }

  /** The digest a verifier computes from the decoded object alone. */
  function RebuiltDigest(c: Crypto, o: CoseObject): Sha256Sum
  {
    c.sha256(Encode(SigStructure(o.protected, o.payload)))
  }

  predicate Verifies(c: Crypto, pub: Bytes, bs: Bytes)
  {
    match DecodeCose(bs)
    case None => false
    case Some(o) => c.verify(pub, RebuiltDigest(c, o), o.signature)
  }

  // ---------- Properties ----------

  ghost predicate Fits(o: CoseObject)
  {
    |o.protected| < TWO64 && |o.kid| < TWO64 && |o.payload| < TWO64 && |o.signature| < TWO64
  }

  lemma ProtectedHeaderBytes()
    ensures ProtectedHeader() == [0xA1, 0x01, 0x26]
  {
    var e := Entry(UInt(ALG_LABEL), NInt(ES256_NEGATED));
    assert EncodeEntry(e) == [0x01, 0x26];
    assert EncodeEntries([e]) == EncodeEntry(e) + EncodeEntries([]);
  }

  lemma ListsAsCons<T>(a: T, b: T, c: T, d: T)
    ensures [a, b, c, d] == [a] + [b, c, d] && [b, c, d] == [b] + [c, d] && [c, d] == [c] + [d] && [d] == [d] + []
  {
  }

  lemma TwoItems(a: Value, b: Value, c: Value, d: Value)
    ensures EncodeItems([c, d]) == Encode(c) + Encode(d)
    ensures CanonicalItems([c, d]) <==> Canonical(c) && Canonical(d)
  {
    ListsAsCons(a, b, c, d);
    ItemsCons(c, [d]);
    ItemsCons(d, []);
  }

  lemma FourItemsEncode(a: Value, b: Value, c: Value, d: Value)
    ensures EncodeItems([a, b, c, d]) == Encode(a) + Encode(b) + Encode(c) + Encode(d)
  {
    ListsAsCons(a, b, c, d);
    ItemsCons(a, [b, c, d]);
    ItemsCons(b, [c, d]);
    TwoItems(a, b, c, d);
    Regroup(Encode(a), Encode(b), Encode(c), Encode(d));
  }

  lemma Regroup(a: Bytes, b: Bytes, c: Bytes, d: Bytes)
    ensures a + (b + (c + d)) == a + b + c + d
  {
  }

  lemma FourItemsCanonical(a: Value, b: Value, c: Value, d: Value)
    ensures CanonicalItems([a, b, c, d]) <==> Canonical(a) && Canonical(b) && Canonical(c) && Canonical(d)
  {
    ListsAsCons(a, b, c, d);
    ItemsCons(a, [b, c, d]);
    ItemsCons(b, [c, d]);
    TwoItems(a, b, c, d);
  }

  lemma ArrayOfFour(items: seq<Value>)
    requires |items| == 4
    ensures Encode(Array(items)) == [0x84] + EncodeItems(items)
  {
  }

  lemma PrependHead(head: Bytes, a: Bytes, b: Bytes, c: Bytes, d: Bytes)
    ensures head + (a + b + c + d) == head + a + b + c + d
  {
  }

  lemma EncodeFour(a: Value, b: Value, c: Value, d: Value)
    ensures Encode(Array([a, b, c, d])) == [0x84] + Encode(a) + Encode(b) + Encode(c) + Encode(d)
  {
    ArrayOfFour([a, b, c, d]);
    FourItemsEncode(a, b, c, d);
    PrependHead([0x84], Encode(a), Encode(b), Encode(c), Encode(d));
  }

  /** The bytes that are hashed, laid out as section 4.4 of RFC 8152 prescribes. */
  lemma SigStructureLayout(payload: Bytes)
    ensures GetSigStructBytes(payload) ==
            [0x84, 0x6A, 0x53, 0x69, 0x67, 0x6E, 0x61, 0x74, 0x75, 0x72, 0x65, 0x31] +
            [0x43, 0xA1, 0x01, 0x26, 0x40] + Head(2, |payload|) + payload
  {
    SigStructureFields(payload);
    assert [0x84, 0x6A] + SIGN1_CONTEXT == [0x84, 0x6A, 0x53, 0x69, 0x67, 0x6E, 0x61, 0x74, 0x75, 0x72, 0x65, 0x31];
  }

  lemma SigStructureFields(payload: Bytes)
    ensures GetSigStructBytes(payload) ==
            [0x84, 0x6A] + SIGN1_CONTEXT + [0x43, 0xA1, 0x01, 0x26, 0x40] + Head(2, |payload|) + payload
  {
    ProtectedHeaderBytes();
    EncodeFour(TStr(SIGN1_CONTEXT), BStr(ProtectedHeader()), BStr([]), BStr(payload));
    assert Encode(TStr(SIGN1_CONTEXT)) == [0x6A] + SIGN1_CONTEXT;
    assert Encode(BStr(ProtectedHeader())) == [0x43, 0xA1, 0x01, 0x26];
    assert Encode(BStr([])) == [0x40];
    assert Encode(BStr(payload)) == Head(2, |payload|) + payload;
  }

  /** The bytes of an issued object: tag 18, four fields, an 8-byte kid, a 64-byte signature. */
  lemma CoseLayout(kid: Bytes, payload: Bytes, signature: Bytes)
    requires |kid| == 8 && |signature| == 64
    ensures GetCose(kid, payload, signature) ==
            [0xD2, 0x84, 0x43, 0xA1, 0x01, 0x26, 0xA1, 0x04, 0x48] + kid + Head(2, |payload|) + payload +
            [0x58, 0x40] + signature
  {
    ProtectedHeaderBytes();
    var e := Entry(UInt(KID_LABEL), BStr(kid));
    EncodeFour(BStr(ProtectedHeader()), Map([e]), BStr(payload), BStr(signature));
    assert Encode(BStr(ProtectedHeader())) == [0x43, 0xA1, 0x01, 0x26];
    KidMapLayout(kid);
    SignatureLayout(signature);
    assert Encode(BStr(payload)) == Head(2, |payload|) + payload;
    assert Head(6, SIGN1_TAG) == [0xD2];
    JoinFields(kid, Head(2, |payload|), payload, signature);
  }

  lemma JoinFields(kid: Bytes, head: Bytes, payload: Bytes, signature: Bytes)
    ensures [0xD2] + ([0x84] + [0x43, 0xA1, 0x01, 0x26] + ([0xA1, 0x04, 0x48] + kid) + (head + payload) +
                      ([0x58, 0x40] + signature))
            == [0xD2, 0x84, 0x43, 0xA1, 0x01, 0x26, 0xA1, 0x04, 0x48] + kid + head + payload + [0x58, 0x40] + signature
  {
  }

  lemma SignatureLayout(signature: Bytes)
    requires |signature| == 64
    ensures Encode(BStr(signature)) == [0x58, 0x40] + signature
  {
    HeadLayout(2, 64);
  }

  lemma KidMapLayout(kid: Bytes)
    requires |kid| == 8
    ensures Encode(Map([Entry(UInt(KID_LABEL), BStr(kid))])) == [0xA1, 0x04, 0x48] + kid
  {
    var e := Entry(UInt(KID_LABEL), BStr(kid));
    assert Encode(UInt(KID_LABEL)) == [0x04] && Encode(BStr(kid)) == [0x48] + kid;
    assert EncodeEntries([e]) == EncodeEntry(e) + EncodeEntries([]);
  }

  lemma Sign1Canonical(o: CoseObject)
    ensures Canonical(Sign1Value(o)) <==> Fits(o)
  {
    var e := Entry(UInt(KID_LABEL), BStr(o.kid));
    assert CanonicalEntries([e]) <==> CanonicalEntry(e);
    assert CanonicalEntry(e) <==> Canonical(BStr(o.kid));
    assert Canonical(Map([e])) <==> |o.kid| < TWO64;
    assert Canonical(BStr(o.protected)) <==> |o.protected| < TWO64;
    FourItemsCanonical(BStr(o.protected), Map([e]), BStr(o.payload), BStr(o.signature));
  }

  lemma SigStructureCanonical(protected: Bytes, payload: Bytes)
    ensures Canonical(SigStructure(protected, payload)) <==> |protected| < TWO64 && |payload| < TWO64
  {
    FourItemsCanonical(TStr(SIGN1_CONTEXT), BStr(protected), BStr([]), BStr(payload));
  }

  /** The recipient reads back exactly what was assembled, and nothing but such objects decodes. */
  lemma DecodeCoseIff(bs: Bytes, o: CoseObject)
    ensures DecodeCose(bs) == Some(o) <==> Fits(o) && bs == EncodeCose(o)
  {
    Sign1Canonical(o);
    if Fits(o) && bs == EncodeCose(o) {
      assert bs == Encode(Sign1Value(o)) + [];
      DecodeEncode(Sign1Value(o), []);
    }
    if DecodeCose(bs) == Some(o) {
      var v := Decode(bs).item;
      EncodeDecode(bs, v, []);
      ValueOfObject(v, o);
    }
  }

  lemma ValueOfObject(v: Value, o: CoseObject)
    requires FromValue(v) == Some(o)
    ensures v == Sign1Value(o)
  {
    var items := v.content.items;
    assert items[1].entries == [Entry(UInt(KID_LABEL), BStr(o.kid))];
    assert items == [BStr(o.protected), items[1], BStr(o.payload), BStr(o.signature)];
  }

  /** Different headers or payloads are never signed under the same bytes. */
  lemma ToBeSignedInjective(p1: Bytes, d1: Bytes, p2: Bytes, d2: Bytes)
    requires |p1| < TWO64 && |d1| < TWO64 && |p2| < TWO64 && |d2| < TWO64
    requires Encode(SigStructure(p1, d1)) == Encode(SigStructure(p2, d2))
    ensures p1 == p2 && d1 == d2
  {
    SigStructureCanonical(p1, d1);
    SigStructureCanonical(p2, d2);
    EncodeInjective(SigStructure(p1, d1), SigStructure(p2, d2));
    var v := SigStructure(p1, d1).items;
    var w := SigStructure(p2, d2).items;
    assert v[1] == w[1] && v[3] == w[3];
  }

  /**
   * The object made for `payload` decodes to tag 18 over its four fields, and it verifies exactly
   * when the signature is good for the digest rebuilt from the payload it carries.
   */
  lemma SignedCoseVerifiesIff(c: Crypto, hash: Sha256Sum, priv: Bytes, pub: Bytes, kid: Bytes, payload: Bytes,
                              rnd: Bytes)
    requires Lawful(c) && KeyPair(c, priv, pub)
    requires |kid| < TWO64 && |payload| < TWO64
    requires c.sign(priv, hash, rnd).Some?
    ensures var sig := c.sign(priv, hash, rnd).value;
            var bs := CreateSignedCose(c, hash, priv, kid, payload, rnd);
            && bs.Some?
            && DecodeCose(bs.value) == Some(CoseObject(ProtectedHeader(), kid, payload, sig))
            && (Verifies(c, pub, bs.value) <==> c.verify(pub, c.sha256(GetSigStructBytes(payload)), sig))
            && (hash == c.sha256(GetSigStructBytes(payload)) ==> Verifies(c, pub, bs.value))
  {
    var sig := c.sign(priv, hash, rnd).value;
    ProtectedHeaderBytes();
    DecodeCoseIff(GetCose(kid, payload, sig), CoseObject(ProtectedHeader(), kid, payload, sig));
  }
}
