/**
 * JSON texts of string maps, as Go's `json.MarshalIndent(m, "", "  ")` writes them, and a parser
 * for objects of strings and objects with white space between the tokens. Strings are restricted
 * to characters that need no escape.
 */
module JsonText {
  import opened Prelude
  import opened ByteOrder

  const QUOTE: byte := 34
  const COMMA: byte := 44
  const COLON: byte := 58
  const LBRACE: byte := 123
  const RBRACE: byte := 125
  const SPACE: byte := 32
  const LF: byte := 10

  type StringMap = map<Bytes, Bytes>

  datatype Json = JString(text: Bytes) | JObject(members: seq<Member>)
  datatype Member = Member(name: Bytes, value: Json)

  /** Printable ASCII that JSON strings contain as it is; `<`, `>` and `&` are escaped by Go. */
  predicate PlainChar(c: byte)
  {
    32 <= c <= 126 && c != QUOTE && c != 92 && c != 60 && c != 62 && c != 38
  }

  predicate Plain(s: Bytes)
  {
    forall i | 0 <= i < |s| :: PlainChar(s[i])
  }

  ghost predicate PlainMap(m: StringMap)
  {
    forall k | k in m :: Plain(k) && Plain(m[k])
  }

  // ---------- Printer ----------

  function Line(k: Bytes, v: Bytes): Bytes
  {
    [LF, SPACE, SPACE, QUOTE] + k + [QUOTE, COLON, SPACE, QUOTE] + v + [QUOTE]
  }

  /** The members behind the opening brace, up to and including the closing one. */
  function Lines(m: StringMap, keys: seq<Bytes>): Bytes
    requires keys != [] && forall k | k in keys :: k in m
  {
    if |keys| == 1 then Line(keys[0], m[keys[0]]) + [LF, RBRACE]
    else Line(keys[0], m[keys[0]]) + [COMMA] + Lines(m, keys[1..])
  }

  function PrintKeys(m: StringMap, keys: seq<Bytes>): Bytes
    requires forall k | k in keys :: k in m
  {
    if keys == [] then [LBRACE, RBRACE] else [LBRACE] + Lines(m, keys)
  }

  /** The keys in the increasing order in which Go prints them. */
  ghost function SortedKeys(keys: set<Bytes>): (s: seq<Bytes>)
    ensures Enumerates(s, keys) && Sorted(Lex, s)
  {
    if keys == {} then []
    else
      var k :| k in keys;
      var s := SortedKeys(keys - {k});
      var r := Insert(Lex, k, s);
      LexOrders(keys);
      InsertSorted(Lex, k, s, keys);
      SameMembers(r, s + [k]);
      SortedIsDistinct(r);
      r
  }

  lemma SortedIsDistinct(s: seq<Bytes>)
    requires Sorted(Lex, s)
    ensures Distinct(s)
  {
    forall i, j | 0 <= i < j < |s| ensures s[i] != s[j] { LexIrreflexive(s[i]); }
  }

  ghost function Print(m: StringMap): Bytes
  {
    PrintKeys(m, SortedKeys(m.Keys))
  }

  /** The printed form of a map with at most one entry. */
  lemma PrintLayout(k: Bytes, v: Bytes)
    ensures Print(map[]) == [123, 125]
    ensures Print(map[k := v]) == [123, 10, 32, 32, 34] + k + [34, 58, 32, 34] + v + [34, 10, 125]
  {
    var m := map[k := v];
    var keys := SortedKeys(m.Keys);
    assert m.Keys == {k};
    DistinctLength(keys, {k});
    DistinctLength(SortedKeys({}), {});
    assert keys[0] in keys;
  }

  /** Every line but the last ends in a comma, and the last one is followed by the closing brace. */
  lemma LinesLayout(m: StringMap, keys: seq<Bytes>)
    requires keys != [] && forall k | k in keys :: k in m
    ensures Lines(m, keys) == [10, 32, 32, 34] + keys[0] + [34, 58, 32, 34] + m[keys[0]] + [34] +
              if |keys| == 1 then [10, 125] else ([44] + Lines(m, keys[1..]))
  {
  }

  /** The printed form of a map with two entries, the smaller key first. */
  lemma PrintTwoLayout(k: Bytes, v: Bytes, l: Bytes, w: Bytes)
    requires Lex(k, l)
    ensures Print(map[k := v, l := w]) ==
            [123] + ([10, 32, 32, 34] + k + [34, 58, 32, 34] + v + [34] + ([44] +
                     ([10, 32, 32, 34] + l + [34, 58, 32, 34] + w + [34] + [10, 125])))
  {
    LexIrreflexive(k);
    var m := map[k := v, l := w];
    assert m.Keys == {k, l};
    LexOrders({k, l});
    SortedUnique(Lex, SortedKeys(m.Keys), [k, l], {k, l});
    LinesLayout(m, [k, l]);
    LinesLayout(m, [l]);
    assert [k, l][1..] == [l];
  }

  /** Marshals a map whose keys are met in no particular order. */
  method Marshal(m: StringMap) returns (text: Bytes)
    ensures text == Print(m)
  {
    var order: seq<Bytes> := [];
    var left := m.Keys;
    while left != {}
      invariant left <= m.Keys && Enumerates(order, m.Keys - left)
      decreases left
    {
      var k :| k in left;
      order, left := order + [k], left - {k};
    }
    assert m.Keys - left == m.Keys;
    LexOrders(m.Keys);
    SortEnumeration(Lex, order, m.Keys);
    SortedUnique(Lex, SortBy(Lex, order), SortedKeys(m.Keys), m.Keys);
    text := PrintKeys(m, SortBy(Lex, order));
  }

  // ---------- Parser ----------

  predicate IsSpace(c: byte) { c == 32 || c == 9 || c == 10 || c == 13 }

  function SkipSpace(s: Bytes): (r: Bytes)
    ensures |r| <= |s|
    ensures r != [] ==> !IsSpace(r[0])
  {
    if s != [] && IsSpace(s[0]) then SkipSpace(s[1..]) else s
  }

  /** What stands behind the token `c`, if that is the next one. */
  function After(c: byte, s: Bytes): (r: Option<Bytes>)
    ensures r.Some? ==> |r.value| < |s|
  {
    var t := SkipSpace(s);
    if t != [] && t[0] == c then Some(t[1..]) else None
  }

  /** The rest of a string whose opening quote has been read. */
  function ParseString(s: Bytes): (r: Parse<Bytes>)
    ensures r.Parsed? ==> |r.rest| < |s|
  {
    if s == [] then Fail
    else if s[0] == QUOTE then Parsed([], s[1..])
    else if s[0] < 32 || s[0] > 126 || s[0] == 92 then Fail
    else
      match ParseString(s[1..])
      case Fail => Fail
      case Parsed(t, rest) => Parsed([s[0]] + t, rest)
  }

  function ParseValue(s: Bytes): (r: Parse<Json>)
    ensures r.Parsed? ==> |r.rest| < |s|
    decreases |s|, 0
  {
    match After(QUOTE, s)
    case Some(t) =>
      (match ParseString(t)
       case Fail => Fail
       case Parsed(text, rest) => Parsed(JString(text), rest))
    case None =>
      match After(LBRACE, s)
      case None => Fail
      case Some(t) => ParseObject(t)
  }

  /** The rest of an object whose opening brace has been read. */
  function ParseObject(s: Bytes): (r: Parse<Json>)
    ensures r.Parsed? ==> |r.rest| < |s|
    decreases |s|, 2
  {
    match After(RBRACE, s)
    case Some(rest) => Parsed(JObject([]), rest)
    case None =>
      match ParseMembers(s)
      case Fail => Fail
      case Parsed(members, rest) => Parsed(JObject(members), rest)
  }

  function ParseMembers(s: Bytes): (r: Parse<seq<Member>>)
    ensures r.Parsed? ==> |r.rest| < |s|
    decreases |s|, 1
  {
    match ParseMember(s)
    case Fail => Fail
    case Parsed(m, t) =>
      match After(COMMA, t)
      case None => EndMembers(m, t)
      case Some(u) =>
        match ParseMembers(u)
        case Fail => Fail
        case Parsed(ms, rest) => Parsed([m] + ms, rest)
  }

  function EndMembers(m: Member, t: Bytes): (r: Parse<seq<Member>>)
    ensures r.Parsed? ==> |r.rest| < |t|
  {
    match After(RBRACE, t)
    case None => Fail
    case Some(rest) => Parsed([m], rest)
  }

  function ParseName(s: Bytes): (r: Parse<Bytes>)
    ensures r.Parsed? ==> |r.rest| < |s|
  {
    match After(QUOTE, s)
    case None => Fail
    case Some(t) =>
      match ParseString(t)
      case Fail => Fail
      case Parsed(name, u) =>
        match After(COLON, u)
        case None => Fail
        case Some(v) => Parsed(name, v)
  }

  function ParseMember(s: Bytes): (r: Parse<Member>)
    ensures r.Parsed? ==> |r.rest| < |s|
    decreases |s|, 0
  {
    match ParseName(s)
    case Fail => Fail
    case Parsed(name, t) =>
      match ParseValue(t)
      case Fail => Fail
      case Parsed(v, rest) => Parsed(Member(name, v), rest)
  }

  /** A whole text: one value with nothing but white space behind it. */
  function ParseText(s: Bytes): Option<Json>
  {
    match ParseValue(s)
    case Fail => None
    case Parsed(v, rest) => if SkipSpace(rest) == [] then Some(v) else None
  }

  /** Unmarshalling into a string map: all values must be strings, and a later duplicate wins. */
  function MapOf(members: seq<Member>): Option<StringMap>
  {
    if members == [] then Some(map[])
    else
      var n := |members| - 1;
      match MapOf(members[..n])
      case None => None
      case Some(m) =>
        match members[n].value
        case JString(text) => Some(m[members[n].name := text])
        case JObject(_) => None
  }

  function ParseMap(s: Bytes): Option<StringMap>
  {
    match ParseText(s)
    case Some(JObject(members)) => MapOf(members)
    case _ => None
  }

  // ---------- Parsing undoes printing ----------

  lemma {:induction false} PlainStringParses(k: Bytes, tail: Bytes)
    requires Plain(k)
    ensures ParseString(k + [QUOTE] + tail) == Parsed(k, tail)
  {
    var s := k + [QUOTE] + tail;
    if k == [] {
      assert s[1..] == tail;
    } else {
      assert s[1..] == k[1..] + [QUOTE] + tail;
      PlainStringParses(k[1..], tail);
      assert PlainChar(k[0]) && k == [k[0]] + k[1..];
    }
  }

  lemma AfterToken(c: byte, tail: Bytes)
    requires !IsSpace(c)
    ensures After(c, [c] + tail) == Some(tail)
    ensures forall d: byte | d != c :: After(d, [c] + tail) == None
  {
    var s := [c] + tail;
    assert s[0] == c && s[1..] == tail;
    assert SkipSpace(s) == s;
  }

  lemma AfterSpace(c: byte, space: byte, s: Bytes)
    requires IsSpace(space)
    ensures After(c, [space] + s) == After(c, s)
  {
    assert ([space] + s)[1..] == s;
  }

  /** Tokens are found behind the indentation of a line. */
  lemma AfterIndent(c: byte, s: Bytes)
    ensures After(c, [LF] + ([SPACE] + ([SPACE] + s))) == After(c, s)
  {
    AfterSpace(c, LF, [SPACE] + ([SPACE] + s));
    AfterSpace(c, SPACE, [SPACE] + s);
    AfterSpace(c, SPACE, s);
  }

  lemma QuotedParses(v: Bytes, tail: Bytes)
    requires Plain(v)
    ensures ParseValue([SPACE] + ([QUOTE] + (v + [QUOTE] + tail))) == Parsed(JString(v), tail)
  {
    AfterSpace(QUOTE, SPACE, [QUOTE] + (v + [QUOTE] + tail));
    AfterToken(QUOTE, v + [QUOTE] + tail);
    PlainStringParses(v, tail);
  }

  lemma NameParses(k: Bytes, value: Bytes)
    requires Plain(k)
    ensures var s := [LF] + ([SPACE] + ([SPACE] + ([QUOTE] + (k + [QUOTE] + ([COLON] + value)))));
            ParseName(s) == Parsed(k, value) && After(RBRACE, s) == None
  {
    var s := [QUOTE] + (k + [QUOTE] + ([COLON] + value));
    AfterIndent(QUOTE, s);
    AfterIndent(RBRACE, s);
    AfterToken(QUOTE, k + [QUOTE] + ([COLON] + value));
    PlainStringParses(k, [COLON] + value);
    AfterToken(COLON, value);
  }

  lemma LineLayout(k: Bytes, v: Bytes, tail: Bytes)
    ensures Line(k, v) + tail ==
            [LF] + ([SPACE] + ([SPACE] + ([QUOTE] + (k + [QUOTE] + ([COLON] +
              ([SPACE] + ([QUOTE] + (v + [QUOTE] + tail))))))))
  {
  }

  lemma MemberParses(s: Bytes, k: Bytes, value: Bytes, v: Json, tail: Bytes)
    requires ParseName(s) == Parsed(k, value) && ParseValue(value) == Parsed(v, tail)
    ensures ParseMember(s) == Parsed(Member(k, v), tail)
  {
  }

  lemma LineParses(k: Bytes, v: Bytes, tail: Bytes)
    requires Plain(k) && Plain(v)
    ensures ParseMember(Line(k, v) + tail) == Parsed(Member(k, JString(v)), tail)
    ensures After(RBRACE, Line(k, v) + tail) == None
  {
    var value := [SPACE] + ([QUOTE] + (v + [QUOTE] + tail));
    LineLayout(k, v, tail);
    NameParses(k, value);
    QuotedParses(v, tail);
    MemberParses(Line(k, v) + tail, k, value, JString(v), tail);
  }

  function MembersOf(m: StringMap, keys: seq<Bytes>): (ms: seq<Member>)
    requires forall k | k in keys :: k in m
    ensures |ms| == |keys|
    ensures forall i | 0 <= i < |ms| :: ms[i] == Member(keys[i], JString(m[keys[i]]))
  {
    seq(|keys|, i requires 0 <= i < |keys| => Member(keys[i], JString(m[keys[i]])))
  }

  lemma LastLineParses(k: Bytes, v: Bytes, tail: Bytes)
    requires Plain(k) && Plain(v)
    ensures var s := Line(k, v) + ([LF] + ([RBRACE] + tail));
            ParseMembers(s) == Parsed([Member(k, JString(v))], tail) && After(RBRACE, s) == None
  {
    LineParses(k, v, [LF] + ([RBRACE] + tail));
    AfterSpace(COMMA, LF, [RBRACE] + tail);
    AfterSpace(RBRACE, LF, [RBRACE] + tail);
    AfterToken(RBRACE, tail);
  }

  lemma MembersCons(m: StringMap, keys: seq<Bytes>)
    requires keys != [] && forall k | k in keys :: k in m
    ensures MembersOf(m, keys) == [Member(keys[0], JString(m[keys[0]]))] + MembersOf(m, keys[1..])
    ensures |keys| == 1 ==> MembersOf(m, keys) == [Member(keys[0], JString(m[keys[0]]))]
  {
  }

  lemma NextLineParses(k: Bytes, v: Bytes, more: Bytes, ms: seq<Member>, tail: Bytes)
    requires Plain(k) && Plain(v) && ParseMembers(more) == Parsed(ms, tail)
    ensures var s := Line(k, v) + ([COMMA] + more);
            ParseMembers(s) == Parsed([Member(k, JString(v))] + ms, tail) && After(RBRACE, s) == None
  {
    LineParses(k, v, [COMMA] + more);
    AfterToken(COMMA, more);
  }

  lemma LinesCons(m: StringMap, keys: seq<Bytes>, tail: Bytes)
    requires keys != [] && forall k | k in keys :: k in m
    ensures Lines(m, keys) + tail == Line(keys[0], m[keys[0]]) +
              if |keys| == 1 then [LF] + ([RBRACE] + tail) else [COMMA] + (Lines(m, keys[1..]) + tail)
  {
  }

  lemma {:induction false} LinesParse(m: StringMap, keys: seq<Bytes>, tail: Bytes)
    requires keys != [] && PlainMap(m) && forall k | k in keys :: k in m
    ensures ParseMembers(Lines(m, keys) + tail) == Parsed(MembersOf(m, keys), tail)
    ensures After(RBRACE, Lines(m, keys) + tail) == None
  {
    LinesCons(m, keys, tail);
    MembersCons(m, keys);
    if |keys| == 1 {
      LastLineParses(keys[0], m[keys[0]], tail);
    } else {
      LinesParse(m, keys[1..], tail);
      NextLineParses(keys[0], m[keys[0]], Lines(m, keys[1..]) + tail, MembersOf(m, keys[1..]), tail);
    }
  }

  lemma PrintedValueParses(m: StringMap, keys: seq<Bytes>, tail: Bytes)
    requires PlainMap(m) && forall k | k in keys :: k in m
    ensures ParseValue(PrintKeys(m, keys) + tail) == Parsed(JObject(MembersOf(m, keys)), tail)
  {
    if keys == [] {
      assert PrintKeys(m, keys) + tail == [LBRACE] + ([RBRACE] + tail);
      AfterToken(LBRACE, [RBRACE] + tail);
      AfterToken(RBRACE, tail);
    } else {
      assert PrintKeys(m, keys) + tail == [LBRACE] + (Lines(m, keys) + tail);
      AfterToken(LBRACE, Lines(m, keys) + tail);
      LinesParse(m, keys, tail);
    }
  }

  function Restrict(m: StringMap, keys: seq<Bytes>): StringMap
    requires forall k | k in keys :: k in m
  {
    map k | k in keys :: m[k]
  }

  lemma {:induction false} MapOfMembers(m: StringMap, keys: seq<Bytes>)
    requires forall k | k in keys :: k in m
    ensures MapOf(MembersOf(m, keys)) == Some(Restrict(m, keys))
  {
    if keys == [] {
      assert Restrict(m, keys) == map[];
    } else {
      var n := |keys| - 1;
      var k := keys[n];
      MapOfMembers(m, keys[..n]);
      assert MembersOf(m, keys)[..n] == MembersOf(m, keys[..n]);
      assert keys == keys[..n] + [k];
      assert Restrict(m, keys) == Restrict(m, keys[..n])[k := m[k]];
    }
  }

  lemma WholeTextParses(s: Bytes, v: Json)
    requires ParseValue(s + []) == Parsed(v, [])
    ensures ParseText(s) == Some(v)
  {
    assert s + [] == s;
  }

  lemma WholeTextIsMap(s: Bytes, members: seq<Member>)
    requires ParseText(s) == Some(JObject(members))
    ensures ParseMap(s) == MapOf(members)
  {
  }

  lemma RestrictToAll(m: StringMap, keys: seq<Bytes>)
    requires Enumerates(keys, m.Keys)
    ensures forall k | k in keys :: k in m
    ensures Restrict(m, keys) == m
  {
  }

  lemma PrintedKeysParse(m: StringMap, keys: seq<Bytes>)
    requires PlainMap(m) && forall k | k in keys :: k in m
    ensures ParseText(PrintKeys(m, keys)) == Some(JObject(MembersOf(m, keys)))
    ensures ParseMap(PrintKeys(m, keys)) == Some(Restrict(m, keys))
  {
    PrintedValueParses(m, keys, []);
    WholeTextParses(PrintKeys(m, keys), JObject(MembersOf(m, keys)));
    WholeTextIsMap(PrintKeys(m, keys), MembersOf(m, keys));
    MapOfMembers(m, keys);
  }

  /** Reading what was printed gives the map back. */
  lemma ParsePrint(m: StringMap)
    requires PlainMap(m)
    ensures ParseText(Print(m)) == Some(JObject(MembersOf(m, SortedKeys(m.Keys))))
    ensures ParseMap(Print(m)) == Some(m)
  {
    RestrictToAll(m, SortedKeys(m.Keys));
    PrintedKeysParse(m, SortedKeys(m.Keys));
  }

  // ---------- What else is read, and what is not ----------

  /** Blanks, tabs, line feeds and carriage returns are skipped between tokens, and nothing else is. */
  lemma WhiteSpace(c: byte, space: byte, s: Bytes)
    requires c !in {' ' as int, '\t' as int, '\n' as int, '\r' as int}
    ensures After(c, [space] + s) ==
            if space in {' ' as int, '\t' as int, '\n' as int, '\r' as int} then After(c, s)
            else if space == c then Some(s) else None
  {
    if IsSpace(space) { AfterSpace(c, space, s); } else { AfterToken(space, s); }
  }

  /** A later member with the same name wins, and a value that is no string is refused. */
  lemma MapOfMore(members: seq<Member>, name: Bytes, value: Json)
    requires MapOf(members).Some?
    ensures MapOf(members + [Member(name, value)]) ==
            if value.JString? then Some(MapOf(members).value[name := value.text]) else None
  {
    assert (members + [Member(name, value)])[..|members|] == members;
  }

  /** Nothing but white space may follow the printed map. */
  lemma TrailingBytesFail(m: StringMap, rest: Bytes)
    requires PlainMap(m)
    ensures ParseText(Print(m) + rest).Some? <==> SkipSpace(rest) == []
  {
    PrintedValueParses(m, SortedKeys(m.Keys), rest);
  }

  // ---------- No strict prefix of a printed text parses ----------

  lemma {:induction false} SkipSpaceExtends(s: Bytes, q: Bytes)
    requires SkipSpace(s) != []
    ensures SkipSpace(s + q) == SkipSpace(s) + q
  {
    if IsSpace(s[0]) {
      assert (s + q)[1..] == s[1..] + q;
      SkipSpaceExtends(s[1..], q);
    }
  }

  /** Once a token has been seen, bytes behind it do not change what it is. */
  lemma AfterExtends(s: Bytes, q: Bytes)
    requires SkipSpace(s) != []
    ensures forall c :: After(c, s + q) == match After(c, s) case None => None case Some(t) => Some(t + q)
  {
    SkipSpaceExtends(s, q);
    assert (SkipSpace(s) + q)[1..] == SkipSpace(s)[1..] + q;
  }

  lemma {:induction false} ParseStringExtends(s: Bytes, q: Bytes)
    requires ParseString(s).Parsed?
    ensures ParseString(s + q) == Parsed(ParseString(s).item, ParseString(s).rest + q)
  {
    assert (s + q)[1..] == s[1..] + q;
    if s[0] != QUOTE {
      ParseStringExtends(s[1..], q);
    }
  }

  lemma {:induction false} ParseValueExtends(s: Bytes, q: Bytes)
    requires ParseValue(s).Parsed?
    ensures ParseValue(s + q) == Parsed(ParseValue(s).item, ParseValue(s).rest + q)
    decreases |s|, 0
  {
    AfterExtends(s, q);
    if After(QUOTE, s).Some? {
      ParseStringExtends(After(QUOTE, s).value, q);
    } else {
      ParseObjectExtends(After(LBRACE, s).value, q);
    }
  }

  lemma {:induction false} ParseObjectExtends(s: Bytes, q: Bytes)
    requires ParseObject(s).Parsed?
    ensures ParseObject(s + q) == Parsed(ParseObject(s).item, ParseObject(s).rest + q)
    decreases |s|, 2
  {
    if After(RBRACE, s).None? {
      assert ParseMember(s).Parsed? && ParseName(s).Parsed? && After(QUOTE, s).Some?;
    }
    AfterExtends(s, q);
    if After(RBRACE, s).None? {
      ParseMembersExtends(s, q);
    }
  }

  lemma ParseNameExtends(s: Bytes, q: Bytes)
    requires ParseName(s).Parsed?
    ensures ParseName(s + q) == Parsed(ParseName(s).item, ParseName(s).rest + q)
  {
    AfterExtends(s, q);
    var t := After(QUOTE, s).value;
    ParseStringExtends(t, q);
    AfterExtends(ParseString(t).rest, q);
  }

  lemma {:induction false} ParseMemberExtends(s: Bytes, q: Bytes)
    requires ParseMember(s).Parsed?
    ensures ParseMember(s + q) == Parsed(ParseMember(s).item, ParseMember(s).rest + q)
    decreases |s|, 0
  {
    ParseNameExtends(s, q);
    ParseValueExtends(ParseName(s).rest, q);
  }

  lemma {:induction false} ParseMembersExtends(s: Bytes, q: Bytes)
    requires ParseMembers(s).Parsed?
    ensures ParseMembers(s + q) == Parsed(ParseMembers(s).item, ParseMembers(s).rest + q)
    decreases |s|, 1
  {
    ParseMemberExtends(s, q);
    var t := ParseMember(s).rest;
    AfterExtends(t, q);
    if After(COMMA, t).Some? {
      ParseMembersExtends(After(COMMA, t).value, q);
    }
  }

  /** A torn write of a printed map is never taken for a complete text. */
  lemma StrictPrefixFails(m: StringMap, n: nat)
    requires PlainMap(m) && n < |Print(m)|
    ensures ParseText(Print(m)[..n]) == None
  {
    var text, keys := Print(m), SortedKeys(m.Keys);
    var s, q := text[..n], text[n..];
    assert text == s + q && text + [] == text && |q| > 0;
    PrintedValueParses(m, keys, []);
    if ParseValue(s).Parsed? {
      ParseValueExtends(s, q);
    }
  }
}
