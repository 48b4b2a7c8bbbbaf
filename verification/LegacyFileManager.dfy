/**
 * The conversion of a legacy keystore file, whose entries lie under a field "Keystore", into one
 * that holds the entries themselves.
 */
module LegacyKeystores {
  import opened Prelude
  import opened ByteOrder
  import opened JsonText
  import opened BackedFile
  import Hex

  const KEYSTORE_FIELD: Bytes := [107, 101, 121, 115, 116, 111, 114, 101] // "keystore"

  /** Go matches field names without regard to case. */
  predicate IsKeystoreField(name: Bytes)
  {
    Hex.ToLower(name) == KEYSTORE_FIELD
  }

  /** Unmarshalling into the legacy struct: other fields are ignored, the field must be a string map. */
  function LegacyEntries(members: seq<Member>): Option<JsonText.StringMap>
  {
    if members == [] then Some(map[])
    else
      var n := |members| - 1;
      match LegacyEntries(members[..n])
      case None => None
      case Some(entries) =>
        if !IsKeystoreField(members[n].name) then Some(entries)
        else
          match members[n].value
          case JString(_) => None
          case JObject(ms) => if MapOf(ms).None? then None else Some(entries + MapOf(ms).value)
  }

  function ParseLegacy(text: Bytes): Option<JsonText.StringMap>
  {
    match ParseText(text)
    case Some(JObject(members)) => LegacyEntries(members)
    case _ => None
  }

  class LegacyFileManager {
    const disk: Disk
    var keystore: JsonText.StringMap

    constructor (disk: Disk)
      ensures this.disk == disk && keystore == map[]
    {
      this.disk, keystore := disk, map[];
    }

    method LoadKeys(faults: ReadFaults) returns (ok: bool)
      modifies this
      ensures var loaded := LoadMain(disk.State(), faults, ParseMap, old(keystore));
              (ok <==> loaded.Some?) && keystore == if ok then loaded.value else old(keystore)
    {
      var r := LoadFile(disk, MainFile, faults, ParseMap, keystore);
      ok := r.Some?;
      if ok { keystore := r.value; }
    }

    /** Rewrites a legacy file; a file without legacy entries is left alone. */
    method PortLegacyKeystoreFile(reading: ReadFaults, writing: WriteFaults) returns (ok: bool)
      modifies disk
      ensures var legacy := LoadMain(old(disk.State()), reading, ParseLegacy, map[]);
              if legacy.None? || legacy.value == map[] then disk.State() == old(disk.State()) && (ok <==> legacy.Some?)
              else
                && (ok <==> writing.torn.None?)
                && disk.main == Some(if writing.torn.Some? then Prefix(Print(legacy.value), writing.torn.value)
                                     else Print(legacy.value))
                && (!writing.renameFails && ok ==> disk.State() == Persisted(old(disk.State()), Print(legacy.value)))
    {
      var legacy := LoadFile(disk, MainFile, reading, ParseLegacy, map[]);
      if legacy.None? { return false; }
      if legacy.value == map[] { return true; }
      var text := Marshal(legacy.value);
      ok := PersistFile(disk, text, writing);
    }
  }

  /** One port without faults. */
  ghost function Port(f: Files): Option<Files>
  {
    match LoadMain(f, NO_FAULTS, ParseLegacy, map[])
    case None => None
    case Some(m) => Some(if m == map[] then f else Persisted(f, Print(m)))
  }

  lemma {:induction false} LegacyEntriesOfStrings(m: JsonText.StringMap, keys: seq<Bytes>)
    requires forall k | k in keys :: k in m
    ensures LegacyEntries(MembersOf(m, keys)) ==
            if exists i | 0 <= i < |keys| :: IsKeystoreField(keys[i]) then None else Some(map[])
  {
    if keys != [] {
      var n := |keys| - 1;
      LegacyEntriesOfStrings(m, keys[..n]);
      assert MembersOf(m, keys)[..n] == MembersOf(m, keys[..n]);
      assert forall i | 0 <= i < n :: keys[..n][i] == keys[i];
    }
  }

  /** A ported file has no legacy entries, unless one of its own keys reads like the legacy field. */
  lemma PortedIsNotLegacy(m: JsonText.StringMap)
    requires PlainMap(m)
    ensures ParseLegacy(Print(m)) == if exists k | k in m :: IsKeystoreField(k) then None else Some(map[])
  {
    var keys := SortedKeys(m.Keys);
    ParsePrint(m);
    LegacyEntriesOfStrings(m, keys);
    if k :| k in m && IsKeystoreField(k) {
      assert k in keys;
    }
    forall i | 0 <= i < |keys| && IsKeystoreField(keys[i]) ensures exists k | k in m :: IsKeystoreField(k) {
      assert keys[i] in keys;
    }
  }

  lemma PrintedLoads(m: JsonText.StringMap, bck: Option<Bytes>)
    requires PlainMap(m)
    ensures LoadMain(Files(Some(Print(m)), bck), NO_FAULTS, ParseMap, map[]) == Some(m)
  {
    ParsePrint(m);
    LoadParsed(Files(Some(Print(m)), bck), ParseMap, m);
  }

  /** Loading after a port gives exactly the entries of the legacy file. */
  lemma PortKeepsEntries(f: Files, m: JsonText.StringMap)
    requires LoadMain(f, NO_FAULTS, ParseLegacy, map[]) == Some(m) && m != map[] && PlainMap(m)
    ensures Port(f).Some? && LoadMain(Port(f).value, NO_FAULTS, ParseMap, map[]) == Some(m)
  {
    PrintedLoads(m, f.main);
  }

  /**
   * A second port leaves both files as they are exactly when no entry is named like the legacy
   * field; the entries' names are UUIDs, so it always does.
   */
  lemma PortIdempotentIff(f: Files, m: JsonText.StringMap)
    requires LoadMain(f, NO_FAULTS, ParseLegacy, map[]) == Some(m) && m != map[] && PlainMap(m)
    ensures Port(f).Some? && (Port(Port(f).value) == Port(f) <==> !exists k | k in m :: IsKeystoreField(k))
  {
    PortedIsNotLegacy(m);
    var g := Port(f).value;
    assert g == Files(Some(Print(m)), f.main);
    if exists k | k in m :: IsKeystoreField(k) {
      assert ParseLegacy(f.main.value) != ParseLegacy(Print(m)) || LoadBackup(g, NO_FAULTS, ParseLegacy, map[]) == None;
    }
  }

  /** Entry names are 36 or 37 characters long; the field name has 8. */
  lemma UuidNamesAreNotTheField(name: Bytes)
    requires |name| >= 36
    ensures !IsKeystoreField(name)
  {
    assert |Hex.ToLower(name)| == |name|;
  }

  // ---------- What a legacy file is ----------

  const LEGACY_FIELD: Bytes :=
    ['K' as int, 'e' as int, 'y' as int, 's' as int, 't' as int, 'o' as int, 'r' as int, 'e' as int]

  lemma LegacyFieldMatches()
    ensures IsKeystoreField(LEGACY_FIELD) && Plain(LEGACY_FIELD)
  {
    forall i | 0 <= i < 8 ensures Hex.ToLower(LEGACY_FIELD)[i] == KEYSTORE_FIELD[i] {
      Hex.ToLowerAt(LEGACY_FIELD, i);
    }
  }

  ghost predicate NoField(members: seq<Member>)
  {
    forall i | 0 <= i < |members| :: !IsKeystoreField(members[i].name)
  }

  lemma {:induction false} OtherFieldsAreIgnored(members: seq<Member>, more: seq<Member>)
    requires NoField(more)
    ensures LegacyEntries(members + more) == LegacyEntries(members)
  {
    if more == [] {
      assert members + more == members;
    } else {
      var all, init := members + more, more[..|more| - 1];
      assert all[..|all| - 1] == members + init;
      assert all[|all| - 1] == more[|more| - 1];
      OtherFieldsAreIgnored(members, init);
    }
  }

  /** Among other fields, just the entries of the one that holds the keystore are taken. */
  lemma FieldIsTaken(before: seq<Member>, name: Bytes, entries: seq<Member>, after: seq<Member>)
    requires NoField(before) && IsKeystoreField(name) && NoField(after)
    ensures LegacyEntries(before + [Member(name, JObject(entries))] + after) == MapOf(entries)
  {
    var field := Member(name, JObject(entries));
    OtherFieldsAreIgnored(before + [field], after);
    OtherFieldsAreIgnored([], before);
    assert [] + before == before && (before + [field])[..|before|] == before;
    if MapOf(entries).Some? { assert map[] + MapOf(entries).value == MapOf(entries).value; }
  }

  /** A legacy file: one field whose value is the printed map. */
  ghost function LegacyText(m: JsonText.StringMap): Bytes
  {
    ['{' as int] + (['"' as int] + (LEGACY_FIELD + ['"' as int] + ([':' as int] + (Print(m) + ['}' as int]))))
  }

  lemma FieldParses(name: Bytes, m: JsonText.StringMap, keys: seq<Bytes>)
    requires Plain(name) && PlainMap(m) && forall k | k in keys :: k in m
    ensures ParseMember([QUOTE] + (name + [QUOTE] + ([COLON] + (PrintKeys(m, keys) + [RBRACE])))) ==
            Parsed(Member(name, JObject(MembersOf(m, keys))), [RBRACE])
  {
    var value := PrintKeys(m, keys) + [RBRACE];
    AfterToken(QUOTE, name + [QUOTE] + ([COLON] + value));
    PlainStringParses(name, [COLON] + value);
    AfterToken(COLON, value);
    PrintedValueParses(m, keys, [RBRACE]);
    MemberParses([QUOTE] + (name + [QUOTE] + ([COLON] + value)), name, value, JObject(MembersOf(m, keys)), [RBRACE]);
  }

  lemma ObjectOfOneParses(s: Bytes, t: Bytes, member: Member)
    requires s == [QUOTE] + t && ParseMember(s) == Parsed(member, [RBRACE])
    ensures ParseText([LBRACE] + s) == Some(JObject([member]))
  {
    AfterToken(LBRACE, s);
    AfterToken(QUOTE, t);
    AfterToken(RBRACE, []);
    assert [RBRACE] + [] == [RBRACE];
    assert ParseMembers(s) == Parsed([member], []);
    assert ParseObject(s) == Parsed(JObject([member]), []);
  }

  /** The entries of a legacy file are those of the map under its field. */
  lemma ParseLegacyText(m: JsonText.StringMap)
    requires PlainMap(m)
    ensures ParseLegacy(LegacyText(m)) == Some(m)
  {
    var keys := SortedKeys(m.Keys);
    var entries := MembersOf(m, keys);
    var behind := LEGACY_FIELD + [QUOTE] + ([COLON] + (Print(m) + [RBRACE]));
    LegacyFieldMatches();
    FieldParses(LEGACY_FIELD, m, keys);
    ObjectOfOneParses([QUOTE] + behind, behind, Member(LEGACY_FIELD, JObject(entries)));
    FieldIsTaken([], LEGACY_FIELD, entries, []);
    assert [] + [Member(LEGACY_FIELD, JObject(entries))] + [] == [Member(LEGACY_FIELD, JObject(entries))];
    MapOfMembers(m, keys);
    RestrictToAll(m, keys);
  }

  /** So a port rewrites a legacy file as the map it holds, and keeps the legacy file as the backup. */
  lemma LegacyFileIsPorted(m: JsonText.StringMap, bck: Option<Bytes>)
    requires PlainMap(m) && m != map[]
    ensures Port(Files(Some(LegacyText(m)), bck)) == Some(Files(Some(Print(m)), Some(LegacyText(m))))
  {
    var f := Files(Some(LegacyText(m)), bck);
    ParseLegacyText(m);
    LoadParsed(f, ParseLegacy, m);
  }
}
