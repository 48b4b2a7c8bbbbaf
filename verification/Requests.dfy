/** What a signing request is worth: its payload and the digest to be signed. */
module Requests {
  import opened Prelude
  import opened ByteOrder
  import opened CryptoLib
  import opened Cbor
  import opened CborMaps
  import opened Cose
  import Hex
  import Base64

  const HASH_LEN: nat := 32

  datatype ContentType = TextType | BinType | JsonType | CborType | OtherType

  /** A Go map of strings with the iteration order in which the encoder walks it. */
  datatype StringMap = StringMap(m: TextMap, order: seq<Bytes>)
  type GoMap = s: StringMap | Enumerates(s.order, s.m.Keys) && FitsCbor(s.m) witness StringMap(map[], [])

  /** What `json.Unmarshal` into a string-to-string map makes of a body. */
  datatype JsonBody = NotStringMap | JsonNull | JsonMap(strings: GoMap)

  datatype Request = Request(
    authToken: Bytes,
    contentType: ContentType,
    hexEncoding: bool,      // Content-Transfer-Encoding is "hex"
    hashEndpoint: bool,     // the path ends in "/hash"
    body: Bytes,
    json: JsonBody
  )

  // ---------- Hash requests ----------

  /** `body` represents the hash `h` in the format that the headers announce. */
  ghost predicate Carries(ct: ContentType, hexEncoding: bool, body: Bytes, h: Bytes)
  {
    match ct
    case BinType => body == h
    case TextType =>
      if hexEncoding then Hex.SpellsBytes(body, h)
      else Base64.Spells(Base64.StripLineBreaks(body), h)
    case _ => false
  }

  function DecodedBody(ct: ContentType, hexEncoding: bool, body: Bytes): Option<Bytes>
  {
    match ct
    case BinType => Some(body)
    case TextType => if hexEncoding then Hex.Decode(body) else Base64.DecodeString(body)
    case _ => None
  }

  function HashFromBody(ct: ContentType, hexEncoding: bool, body: Bytes): Option<Sha256Sum>
  {
    var data :- DecodedBody(ct, hexEncoding, body);
    if |data| == HASH_LEN then Some(data) else None
  }

  lemma DecodedBodyIff(ct: ContentType, hexEncoding: bool, body: Bytes, h: Bytes)
    ensures DecodedBody(ct, hexEncoding, body) == Some(h) <==> Carries(ct, hexEncoding, body, h)
  {
    Hex.DecodeDigitsIff(body, h);
    Base64.DecodeIff(body, h);
  }

  /** A body is accepted as the hash `h` exactly when it represents `h` and `h` has 32 bytes. */
  lemma HashFromBodyIff(ct: ContentType, hexEncoding: bool, body: Bytes, h: Sha256Sum)
    ensures HashFromBody(ct, hexEncoding, body) == Some(h) <==> Carries(ct, hexEncoding, body, h)
  {
    DecodedBodyIff(ct, hexEncoding, body, h);
  }

  method GetHashFromHashRequest(ct: ContentType, hexEncoding: bool, body: Bytes) returns (hash: Option<Sha256Sum>)
    ensures hash.Some? ==> Carries(ct, hexEncoding, body, hash.value)
    ensures hash.None? ==> forall h: Sha256Sum :: !Carries(ct, hexEncoding, body, h)
    ensures hash == HashFromBody(ct, hexEncoding, body)
  {
    forall h: Sha256Sum ensures HashFromBody(ct, hexEncoding, body) == Some(h) <==> Carries(ct, hexEncoding, body, h) {
      HashFromBodyIff(ct, hexEncoding, body, h);
    }
    var data := body;
    if ct == TextType {
      var decoded := if hexEncoding then Hex.Decode(data) else Base64.DecodeString(data);
      if decoded.None? { return None; }
      data := decoded.value;
    } else if ct != BinType {
      return None;
    }
    if |data| != HASH_LEN { return None; }
    return Some(data);
  }

  /** Each of the documented formats yields the hash, in either letter case and with line breaks anywhere. */
  lemma HashFormats(h: Sha256Sum, anyHex: bool, hexText: Bytes, base64Text: Bytes)
    requires Hex.SpellsBytes(hexText, h)
    requires Base64.StripLineBreaks(base64Text) == Base64.EncodeToString(h)
    ensures HashFromBody(BinType, anyHex, h) == Some(h)
    ensures HashFromBody(TextType, true, hexText) == Some(h)
    ensures HashFromBody(TextType, false, base64Text) == Some(h)
  {
    Hex.DecodeDigitsIff(hexText, h);
    Base64.DecodeWithLineBreaks(base64Text, h);
  }

  // ---------- Data requests ----------

  /** A nil map, which is what the JSON text `null` leaves, is encoded as CBOR null. */
  function GetCborFromJson(json: JsonBody): Option<Bytes>
  {
    match json
    case NotStringMap => None
    case JsonNull => Some(Encode(Null))
    case JsonMap(s) => Some(MarshalTextMap(s.m, s.order))
  }

  function DataPayload(ct: ContentType, data: Bytes, json: JsonBody): Option<Bytes>
  {
    match ct
    case JsonType => GetCborFromJson(json)
    case CborType => Some(data)
    case _ => None
  }

  /** `payload` is what a data request asks to be signed. */
  ghost predicate Represents(ct: ContentType, body: Bytes, json: JsonBody, payload: Bytes)
  {
    match ct
    case CborType => payload == body
    case JsonType =>
      (match json
       case NotStringMap => false
       case JsonNull => payload == [0xF6]
       case JsonMap(s) => EncodesMap(payload, s.m))
    case _ => false
  }

  /** A data request has just the payload that it represents. */
  lemma DataPayloadIff(ct: ContentType, body: Bytes, json: JsonBody, payload: Bytes)
    ensures DataPayload(ct, body, json) == Some(payload) <==> Represents(ct, body, json, payload)
  {
    NullLayout();
    if json.JsonMap? { EncodesMapIff(payload, json.strings.m, json.strings.order); }
  }

  lemma NullLayout()
    ensures Encode(Null) == [0xF6]
  {
  }

  lemma EveryEntry(es: seq<Entry>, m: TextMap)
    requires SameEntries(es, m)
    ensures forall i | 0 <= i < |es| :: exists k | k in m :: es[i] == Entry(TStr(k), TStr(m[k]))
  {
    forall i | 0 <= i < |es| ensures exists k | k in m :: es[i] == Entry(TStr(k), TStr(m[k])) {
      assert es[i] == Entry(TStr(es[i].key.text), TStr(m[es[i].key.text]));
    }
  }

  method GetPayloadAndHashFromDataRequest(c: Crypto, ct: ContentType, body: Bytes, json: JsonBody)
      returns (r: Option<(Bytes, Sha256Sum)>)
    ensures r.Some? <==> ct == CborType || (ct == JsonType && json != NotStringMap)
    ensures r.Some? && ct == CborType ==> r.value.0 == body
    ensures r.Some? && ct == JsonType && json.JsonNull? ==> r.value.0 == [0xF6]
    ensures r.Some? && ct == JsonType && json.JsonMap? ==>
              var v, m := Decode(r.value.0), json.strings.m;
              && v.Parsed? && v.rest == [] && v.item.Map? && |v.item.entries| == |m|
              && (forall i | 0 <= i < |m| ::
                    exists k | k in m :: v.item.entries[i] == Entry(TStr(k), TStr(m[k])))
              && (forall k | k in m :: Entry(TStr(k), TStr(m[k])) in v.item.entries)
    ensures r.Some? ==> r.value.1 == c.sha256(Encode(SigStructure([0xA1, 0x01, 0x26], r.value.0)))
    ensures r.Some? ==> DataPayload(ct, body, json) == Some(r.value.0)
  {
    ProtectedHeaderBytes();
    var data := body;
    if ct == JsonType {
      var encoded := GetCborFromJson(json);
      if encoded.None? { return None; }
      data := encoded.value;
      NullLayout();
      if json.JsonMap? {
        MarshalledEncodesMap(json.strings.m, json.strings.order);
        EveryEntry(Decode(data).item.entries, json.strings.m);
      }
    } else if ct != CborType {
      return None;
    }
    var toBeSigned := GetSigStructBytes(data);
    return Some((data, c.sha256(toBeSigned)));
  }

  function PayloadAndHash(c: Crypto, r: Request): Option<(Bytes, Sha256Sum)>
  {
    if r.hashEndpoint then
      var h :- HashFromBody(r.contentType, r.hexEncoding, r.body);
      Some((r.body, h))
    else
      var data :- DataPayload(r.contentType, r.body, r.json);
      Some((data, c.sha256(GetSigStructBytes(data))))
  }

  /** Steps 1 and 2 of the README's instructions, with the literal header bytes it prescribes. */
  function ClientToBeSigned(data: Bytes): Bytes
  {
    Encode(Array([TStr(SIGN1_CONTEXT), BStr([0xA1, 0x01, 0x26]), BStr([]), BStr(data)]))
  }

  /** The request asks for `payload` to be put into an object and for `hash` to be signed. */
  ghost predicate Asks(c: Crypto, r: Request, payload: Bytes, hash: Sha256Sum)
  {
    if r.hashEndpoint then payload == r.body && Carries(r.contentType, r.hexEncoding, r.body, hash)
    else Represents(r.contentType, r.body, r.json, payload) && hash == c.sha256(ClientToBeSigned(payload))
  }

  /** Each request asks for one payload and one hash at most, and those are found. */
  lemma PayloadAndHashIff(c: Crypto, r: Request, payload: Bytes, hash: Sha256Sum)
    ensures PayloadAndHash(c, r) == Some((payload, hash)) <==> Asks(c, r, payload, hash)
  {
    HashFromBodyIff(r.contentType, r.hexEncoding, r.body, hash);
    DataPayloadIff(r.contentType, r.body, r.json, payload);
    ProtectedHeaderBytes();
  }

  method GetPayloadAndHash(c: Crypto, r: Request) returns (p: Option<(Bytes, Sha256Sum)>)
    ensures p == PayloadAndHash(c, r)
  {
    if r.hashEndpoint {
      var hash := GetHashFromHashRequest(r.contentType, r.hexEncoding, r.body);
      p := if hash.None? then None else Some((r.body, hash.value));
    } else {
      p := GetPayloadAndHashFromDataRequest(c, r.contentType, r.body, r.json);
      ProtectedHeaderBytes();
    }
  }

  // ---------- The two routes to one digest ----------

  /** Steps 5 and 6: decode the reply and put the original data into its payload field. */
  function Repair(reply: Bytes, data: Bytes): Option<Bytes>
  {
    var o :- DecodeCose(reply);
    Some(EncodeCose(o.(payload := data)))
  }

  /** Data route: the service signs the digest that every verifier rebuilds, so its object verifies. */
  lemma DataRouteVerifies(c: Crypto, r: Request, priv: Bytes, pub: Bytes, kid: Bytes, rnd: Bytes)
    requires Lawful(c) && KeyPair(c, priv, pub) && !r.hashEndpoint
    requires PayloadAndHash(c, r).Some?
    requires |kid| < TWO64 && |PayloadAndHash(c, r).value.0| < TWO64
    ensures var (payload, hash) := PayloadAndHash(c, r).value;
            var reply := CreateSignedCose(c, hash, priv, kid, payload, rnd);
            reply.Some? ==>
              && DecodeCose(reply.value).Some?
              && RebuiltDigest(c, DecodeCose(reply.value).value) == hash
              && Verifies(c, pub, reply.value)
  {
    var (payload, hash) := PayloadAndHash(c, r).value;
    if c.sign(priv, hash, rnd).Some? {
      SignedCoseVerifiesIff(c, hash, priv, pub, kid, payload, rnd);
    }
  }

  /**
   * Hash route: a client that follows the README ends up with byte for byte the object which the
   * data route makes for the same data, key identifier and signing randomness, and it verifies.
   */
  lemma HashRouteRefinesDataRoute(c: Crypto, r: Request, data: Bytes, priv: Bytes, pub: Bytes, kid: Bytes, rnd: Bytes)
    requires Lawful(c) && KeyPair(c, priv, pub) && r.hashEndpoint
    requires Carries(r.contentType, r.hexEncoding, r.body, c.sha256(ClientToBeSigned(data)))
    requires |kid| < TWO64 && |data| < TWO64 && |r.body| < TWO64
    ensures PayloadAndHash(c, r) == Some((r.body, c.sha256(ClientToBeSigned(data))))
    ensures var digest := c.sha256(ClientToBeSigned(data));
            var dataRequest := r.(hashEndpoint := false, contentType := CborType, body := data);
            var viaHash := CreateSignedCose(c, digest, priv, kid, r.body, rnd);
            var viaData := CreateSignedCose(c, digest, priv, kid, data, rnd);
            && PayloadAndHash(c, dataRequest) == Some((data, digest))
            && (viaHash.Some? <==> viaData.Some?)
            && (viaHash.Some? ==> Repair(viaHash.value, data) == viaData && Verifies(c, pub, viaData.value))
  {
    var digest := c.sha256(ClientToBeSigned(data));
    ProtectedHeaderBytes();
    HashFromBodyIff(r.contentType, r.hexEncoding, r.body, digest);
    if c.sign(priv, digest, rnd).Some? {
      SignedCoseVerifiesIff(c, digest, priv, pub, kid, r.body, rnd);
      SignedCoseVerifiesIff(c, digest, priv, pub, kid, data, rnd);
    }
  }

  /** Unrepaired, the reply makes a verifier hash other bytes than the ones that were signed. */
  lemma UnrepairedReplyHashesOtherBytes(c: Crypto, reply: CoseObject, data: Bytes)
    requires |reply.protected| < TWO64 && |reply.payload| < TWO64 && |data| < TWO64
    ensures Encode(SigStructure(reply.protected, reply.payload)) == ClientToBeSigned(data) <==>
            reply.payload == data && reply.protected == ProtectedHeader()
  {
    ProtectedHeaderBytes();
    if Encode(SigStructure(reply.protected, reply.payload)) == ClientToBeSigned(data) {
      ToBeSignedInjective(reply.protected, reply.payload, [0xA1, 0x01, 0x26], data);
    }
  }
}
