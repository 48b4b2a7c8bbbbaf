/** The keystore map, its entry names, and its JSON text with base64 values. */
module Keystores {
  import opened Prelude
  import opened JsonText
  import Hex
  import Base64

  type Keystore = map<Bytes, Bytes>

  datatype Kind = PrivateKind | PublicKind

  const UNDERSCORE: byte := 95

  /** Private keys are filed under the uuid text behind an underscore, public keys under the bare text. */
  function EntryId(kind: Kind, uid: Uuid): Bytes
  {
    match kind
    case PrivateKind => [UNDERSCORE] + Hex.UuidString(uid)
    case PublicKind => Hex.UuidString(uid)
  }

  /** The private key's name is an underscore and the public key's, which is the uuid text. */
  lemma EntryIdText(uid: Uuid, i: nat)
    requires i < 16
    ensures EntryId(PrivateKind, uid) == ['_' as int] + EntryId(PublicKind, uid)
    ensures var name := EntryId(PublicKind, uid);
            && |name| == 36 && name[8] == name[13] == name[18] == name[23] == '-' as int
            && name[Hex.Column(i)] == "0123456789abcdef"[uid[i] / 16] as int
            && name[Hex.Column(i) + 1] == "0123456789abcdef"[uid[i] % 16] as int
  {
    Hex.UuidText(uid, i);
  }

  lemma EntryIdInjective(k1: Kind, u1: Uuid, k2: Kind, u2: Uuid)
    requires EntryId(k1, u1) == EntryId(k2, u2)
    ensures k1 == k2 && u1 == u2
  {
    assert |EntryId(k1, u1)| == |EntryId(k2, u2)|;
    var s, t := Hex.UuidString(u1), Hex.UuidString(u2);
    assert ([UNDERSCORE] + s)[1..] == s && ([UNDERSCORE] + t)[1..] == t;
    Hex.UuidStringInjective(u1, u2);
  }

  lemma {:induction false} HexPlain(b: Bytes)
    ensures Plain(Hex.Encode(b))
  {
    if b != [] { HexPlain(b[1..]); }
  }

  lemma EntryIdPlain(kind: Kind, uid: Uuid)
    ensures Plain(EntryId(kind, uid))
  {
    HexPlain(uid);
  }

  // ---------- One map for two kinds of keys ----------

  datatype SetKey = SetKey(kind: Kind, uid: Uuid, key: Bytes)

  function Apply(ks: Keystore, op: SetKey): Keystore
  {
    ks[EntryId(op.kind, op.uid) := op.key]
  }

  function ApplyAll(ops: seq<SetKey>): Keystore
  {
    if ops == [] then map[] else Apply(ApplyAll(ops[..|ops| - 1]), ops[|ops| - 1])
  }

  /** The key set last for a uid and a kind, as two separate stores would remember it. */
  function LastSet(ops: seq<SetKey>, kind: Kind, uid: Uuid): Option<Bytes>
  {
    if ops == [] then None
    else
      var op := ops[|ops| - 1];
      if op.kind == kind && op.uid == uid then Some(op.key) else LastSet(ops[..|ops| - 1], kind, uid)
  }

  function Get(ks: Keystore, kind: Kind, uid: Uuid): Option<Bytes>
  {
    if EntryId(kind, uid) in ks then Some(ks[EntryId(kind, uid)]) else None
  }

  /** Two kinds of keys share one map without ever meeting. */
  lemma {:induction false} OneMapIsTwo(ops: seq<SetKey>, kind: Kind, uid: Uuid)
    ensures Get(ApplyAll(ops), kind, uid) == LastSet(ops, kind, uid)
  {
    if ops != [] {
      var op := ops[|ops| - 1];
      OneMapIsTwo(ops[..|ops| - 1], kind, uid);
      if EntryId(op.kind, op.uid) == EntryId(kind, uid) {
        EntryIdInjective(op.kind, op.uid, kind, uid);
      }
    }
  }

  // ---------- Text ----------

  ghost predicate PlainKeys(ks: Keystore)
  {
    forall k | k in ks :: Plain(k)
  }

  function EncodeValues(ks: Keystore): StringMap
  {
    map k | k in ks :: Base64.EncodeToString(ks[k])
  }

  function DecodeValues(m: StringMap): Option<Keystore>
  {
    if forall k | k in m :: Base64.DecodeString(m[k]).Some?
    then Some(map k | k in m :: Base64.DecodeString(m[k]).value)
    else None
  }

  ghost function KeystoreText(ks: Keystore): Bytes
  {
    Print(EncodeValues(ks))
  }

  function ParseKeystore(text: Bytes): Option<Keystore>
  {
    match ParseMap(text)
    case None => None
    case Some(m) => DecodeValues(m)
  }

  lemma ValuesPlain(ks: Keystore)
    requires PlainKeys(ks)
    ensures PlainMap(EncodeValues(ks))
  {
    forall k | k in ks ensures Plain(Base64.EncodeToString(ks[k])) {
      Base64.EncoderText(ks[k]);
    }
  }

  lemma ValuesRoundTrip(ks: Keystore)
    ensures DecodeValues(EncodeValues(ks)) == Some(ks)
  {
    var m := EncodeValues(ks);
    forall k | k in ks ensures Base64.DecodeString(m[k]) == Some(ks[k]) {
      Base64.RoundTrip(ks[k]);
    }
    assert DecodeValues(m).value == ks;
  }

  /** The file of one private key: the underscored name and the key in base64. */
  lemma KeystoreLayout(uid: Uuid, key: Bytes)
    ensures KeystoreText(map[EntryId(PrivateKind, uid) := key]) ==
            [123, 10, 32, 32, 34] + (['_' as int] + Hex.UuidString(uid)) + [34, 58, 32, 34]
            + Base64.EncodeToString(key) + [34, 10, 125]
  {
    var name := EntryId(PrivateKind, uid);
    assert EncodeValues(map[name := key]) == map[name := Base64.EncodeToString(key)];
    PrintLayout(name, Base64.EncodeToString(key));
  }

  /** Reading back a keystore file gives the keystore that was written. */
  lemma ParseKeystoreText(ks: Keystore)
    requires PlainKeys(ks)
    ensures ParseKeystore(KeystoreText(ks)) == Some(ks)
  {
    ValuesPlain(ks);
    ParsePrint(EncodeValues(ks));
    ValuesRoundTrip(ks);
  }

  /** No strict prefix of a keystore file parses, so every torn write is detected. */
  lemma TornTextFails(ks: Keystore, n: nat)
    requires PlainKeys(ks) && n < |KeystoreText(ks)|
    ensures ParseKeystore(KeystoreText(ks)[..n]) == None
  {
    ValuesPlain(ks);
    StrictPrefixFails(EncodeValues(ks), n);
  }
}

/** A file with its backup, and what loading and persisting do to the two. */
module BackedFile {
  import opened Prelude

  datatype Files = Files(main: Option<Bytes>, bck: Option<Bytes>)

  /** Whether reading an existing file fails. */
  datatype ReadFaults = ReadFaults(main: bool, bck: bool)

  const NO_FAULTS: ReadFaults := ReadFaults(false, false)

  type StringMap = map<Bytes, Bytes>

  /** Loading the backup: a missing file leaves the destination as it is. */
  function LoadBackup(f: Files, faults: ReadFaults, parse: Bytes -> Option<StringMap>, dest: StringMap):
      Option<StringMap>
  {
    if f.bck.None? then Some(dest)
    else if faults.bck then None
    else
      match parse(f.bck.value)
      case None => None
      case Some(m) => Some(dest + m)
  }

  /** Loading the file: an unreadable or unparsable one sends the reader to the backup. */
  function LoadMain(f: Files, faults: ReadFaults, parse: Bytes -> Option<StringMap>, dest: StringMap): Option<StringMap>
  {
    if f.main.None? then Some(dest)
    else if faults.main && (f.bck.None? || faults.bck) then None
    else
      match parse(if faults.main then f.bck.value else f.main.value)
      case None => LoadBackup(f, faults, parse, dest)
      case Some(m) => Some(dest + m)
  }

  /**
   * What loading makes of a file and its backup, case by case. An unreadable file is replaced by its
   * backup, which must then be there; an unparsable one only if there is a backup.
   */
  lemma LoadMainCases(f: Files, faults: ReadFaults, parse: Bytes -> Option<StringMap>, dest: StringMap)
    ensures var r := LoadMain(f, faults, parse, dest);
            var good := f.bck.Some? && !faults.bck && parse(f.bck.value).Some?;
            if f.main.None? then r == Some(dest)
            else if !faults.main && parse(f.main.value).Some? then r == Some(dest + parse(f.main.value).value)
            else if good then r == Some(dest + parse(f.bck.value).value)
            else if !faults.main && f.bck.None? then r == Some(dest)
            else r == None
  {
  }

  lemma LoadParsed(f: Files, parse: Bytes -> Option<StringMap>, m: StringMap)
    requires f.main.Some? && parse(f.main.value) == Some(m)
    ensures LoadMain(f, NO_FAULTS, parse, map[]) == Some(m)
  {
    assert map[] + m == m;
  }

  lemma LoadUnparsable(f: Files, parse: Bytes -> Option<StringMap>)
    requires f.main.Some? && parse(f.main.value) == None
    ensures LoadMain(f, NO_FAULTS, parse, map[]) == LoadBackup(f, NO_FAULTS, parse, map[])
  {
  }

  lemma LoadBackupParsed(f: Files, parse: Bytes -> Option<StringMap>, m: StringMap)
    requires f.bck.Some? && parse(f.bck.value) == Some(m)
    ensures LoadBackup(f, NO_FAULTS, parse, map[]) == Some(m)
  {
    assert map[] + m == m;
  }

  /** The files after a rename that worked and a write that completed. */
  function Persisted(f: Files, text: Bytes): Files
  {
    Files(Some(text), if f.main.Some? then f.main else f.bck)
  }

  function Prefix(text: Bytes, n: nat): Bytes
  {
    if n < |text| then text[..n] else text
  }

  /** Where a single persist may be interrupted. */
  datatype Point = BeforeRename | InWindow | Written(n: nat)

  function FilesAt(f: Files, text: Bytes, renameFails: bool, p: Point): Files
  {
    var renamed := if f.main.Some? && !renameFails then Files(None, f.main) else f;
    match p
    case BeforeRename => f
    case InWindow => renamed
    case Written(n) => renamed.(main := Some(Prefix(text, n)))
  }

  class Disk {
    var main: Option<Bytes>
    var bck: Option<Bytes>

    constructor (main: Option<Bytes>, bck: Option<Bytes>)
      ensures this.main == main && this.bck == bck
    {
      this.main, this.bck := main, bck;
    }

    function State(): Files
      reads this
    {
      Files(main, bck)
    }
  }

  /** The two names under which `loadFile` is called. */
  datatype Name = MainFile | BackupFile

  /** Loads a JSON file into a map, falling back to the backup file once. */
  method LoadFile(disk: Disk, file: Name, faults: ReadFaults, parse: Bytes -> Option<StringMap>, dest: StringMap)
      returns (r: Option<StringMap>)
    ensures r == if file.MainFile? then LoadMain(disk.State(), faults, parse, dest)
                 else LoadBackup(disk.State(), faults, parse, dest)
    decreases file.MainFile?
  {
    var stored, unreadable := disk.bck, faults.bck;
    if file.MainFile? { stored, unreadable := disk.main, faults.main; }
    if stored.None? { return Some(dest); }
    var contextBytes := stored.value;
    if unreadable {
      if file.BackupFile? || disk.bck.None? || faults.bck { return None; }
      contextBytes := disk.bck.value;
    }
    var parsed := parse(contextBytes);
    if parsed.None? {
      if file.BackupFile? { return None; }
      r := LoadFile(disk, BackupFile, faults, parse, dest);
      return;
    }
    return Some(dest + parsed.value);
  }

  /** Whether the rename works, and how many bytes get written when the write fails. */
  datatype WriteFaults = WriteFaults(renameFails: bool, torn: Option<nat>)

  /** Renames an existing file to the backup and writes the new text; a failed rename is only logged. */
  method PersistFile(disk: Disk, text: Bytes, faults: WriteFaults) returns (ok: bool)
    modifies disk
    ensures disk.bck == if old(disk.main).Some? && !faults.renameFails then old(disk.main) else old(disk.bck)
    ensures disk.main == Some(if faults.torn.Some? then Prefix(text, faults.torn.value) else text)
    ensures ok <==> faults.torn.None?
    ensures disk.State() == FilesAt(old(disk.State()), text, faults.renameFails,
                                    Written(if faults.torn.Some? then faults.torn.value else |text|))
  {
    if disk.main.Some? && !faults.renameFails {
      disk.bck := disk.main;
      disk.main := None;
    }
    disk.main := Some([]);
    disk.main := Some(if faults.torn.Some? then Prefix(text, faults.torn.value) else text);
    ok := faults.torn.None?;
  }
}

/** The file-based key manager. */
module FileManagement {
  import opened Prelude
  import opened JsonText
  import opened Keystores
  import opened BackedFile

  /** What a fresh start makes of the two files when both can be read. */
  function Load(f: Files): Option<Keystore>
  {
    LoadMain(f, NO_FAULTS, ParseKeystore, map[])
  }

  lemma LoadComplete(f: Files, ks: Keystore)
    requires PlainKeys(ks) && f.main == Some(KeystoreText(ks))
    ensures Load(f) == Some(ks)
  {
    ParseKeystoreText(ks);
    LoadParsed(f, ParseKeystore, ks);
  }

  /** A torn file sends the reader to the backup. */
  lemma LoadTorn(f: Files, written: Keystore, n: nat)
    requires PlainKeys(written) && n < |KeystoreText(written)| && f.main == Some(KeystoreText(written)[..n])
    ensures Load(f) == LoadBackup(f, NO_FAULTS, ParseKeystore, map[])
  {
    TornTextFails(written, n);
    LoadUnparsable(f, ParseKeystore);
  }

  /** The backup holds the map completely, or the map is the empty one of a first start. */
  ghost predicate BackedUp(f: Files, ks: Keystore)
  {
    f.bck == Some(KeystoreText(ks)) || (f.bck == None && ks == map[])
  }

  lemma BackupComplete(f: Files, ks: Keystore)
    requires PlainKeys(ks) && BackedUp(f, ks)
    ensures LoadBackup(f, NO_FAULTS, ParseKeystore, map[]) == Some(ks)
  {
    if f.bck.Some? {
      ParseKeystoreText(ks);
      LoadBackupParsed(f, ParseKeystore, ks);
    }
  }

  class FileManager {
    const disk: Disk
    var keystore: Keystore

    constructor (disk: Disk)
      ensures this.disk == disk && keystore == map[]
    {
      this.disk, keystore := disk, map[];
    }

    method LoadKeys(faults: ReadFaults) returns (ok: bool)
      modifies this
      ensures var loaded := LoadMain(disk.State(), faults, ParseKeystore, old(keystore));
              (ok <==> loaded.Some?) && keystore == if ok then loaded.value else old(keystore)
    {
      var r := LoadFile(disk, MainFile, faults, ParseKeystore, keystore);
      ok := r.Some?;
      if ok { keystore := r.value; }
    }

    method GetKey(kind: Kind, uid: Uuid) returns (key: Option<Bytes>)
      ensures key == Get(keystore, kind, uid)
    {
      var id := EntryId(kind, uid);
      key := if id in keystore then Some(keystore[id]) else None;
    }

    /** Rewrites the file; a completed write can be loaded back. */
    method PersistKeys(faults: WriteFaults) returns (ok: bool)
      requires PlainKeys(keystore)
      modifies disk
      ensures disk.main == Some(if faults.torn.Some? then Prefix(KeystoreText(keystore), faults.torn.value)
                                else KeystoreText(keystore))
      ensures disk.bck == if old(disk.main).Some? && !faults.renameFails then old(disk.main) else old(disk.bck)
      ensures ok <==> faults.torn.None?
      ensures ok ==> Load(disk.State()) == Some(keystore)
    {
      var text := Marshal(EncodeValues(keystore));
      ok := PersistFile(disk, text, faults);
      if ok { LoadComplete(disk.State(), keystore); }
    }

    /** Sets one key in memory and rewrites the file; no other key of either kind changes. */
    method SetKey(kind: Kind, uid: Uuid, key: Bytes, faults: WriteFaults) returns (ok: bool)
      requires PlainKeys(keystore)
      modifies this, disk
      ensures PlainKeys(keystore)
      ensures Get(keystore, kind, uid) == Some(key)
      ensures forall k, u | k != kind || u != uid :: Get(keystore, k, u) == Get(old(keystore), k, u)
      ensures ok <==> faults.torn.None?
      ensures ok ==> Load(disk.State()) == Some(keystore)
      ensures disk.bck == if old(disk.main).Some? && !faults.renameFails then old(disk.main) else old(disk.bck)
    {
      EntryIdPlain(kind, uid);
      SetOneKey(keystore, Keystores.SetKey.SetKey(kind, uid, key));
      keystore := keystore[EntryId(kind, uid) := key];
      ok := PersistKeys(faults);
    }
  }

  lemma SetOneKey(ks: Keystore, op: SetKey)
    ensures forall k, u ::
              Get(Apply(ks, op), k, u) == if k == op.kind && u == op.uid then Some(op.key) else Get(ks, k, u)
  {
    forall k, u | EntryId(k, u) == EntryId(op.kind, op.uid) ensures k == op.kind && u == op.uid {
      EntryIdInjective(k, u, op.kind, op.uid);
    }
  }
}
