/** The migration of file-based identities into the database, in one transaction. */
module Migration {
  import opened Prelude
  import opened Identities
  import opened Database
  import opened DatabaseAccess
  import opened Keystores
  import opened BackedFile
  import opened FileManagement
  import Hex

  /** An identity of the configured list, whose keys are filled in place. */
  class IdentityRecord {
    const uid: Uuid
    const authToken: Bytes
    var privateKey: Bytes
    var publicKey: Bytes

    constructor (uid: Uuid, authToken: Bytes)
      ensures this.uid == uid && this.authToken == authToken && privateKey == [] && publicKey == []
    {
      this.uid, this.authToken, privateKey, publicKey := uid, authToken, [], [];
    }

    function Value(): Identity
      reads this
    {
      Identity(uid, privateKey, publicKey, authToken)
    }
  }

  ghost predicate KeysIn(ks: Keystore, uid: Uuid)
  {
    ['_' as int] + Hex.UuidString(uid) in ks && Hex.UuidString(uid) in ks
  }

  /** The record holds the keys that the keystore has for its uid. */
  ghost predicate Filled(r: IdentityRecord, ks: Keystore)
    reads r
  {
    && KeysIn(ks, r.uid)
    && r.privateKey == ks[['_' as int] + Hex.UuidString(r.uid)] && r.publicKey == ks[Hex.UuidString(r.uid)]
  }

  method FillKeys(fileManager: FileManager, r: IdentityRecord) returns (ok: bool)
    modifies r
    ensures ok <==> KeysIn(fileManager.keystore, r.uid)
    ensures ok ==> Filled(r, fileManager.keystore)
  {
    var privateKey := fileManager.GetKey(PrivateKind, r.uid);
    if privateKey.None? { return false; }
    r.privateKey := privateKey.value;
    var publicKey := fileManager.GetKey(PublicKind, r.uid);
    if publicKey.None? { return false; }
    r.publicKey := publicKey.value;
    return true;
  }

  /** Fills every record with the keys that the keystore file holds for its uid. */
  method GetKeysFromFile(disk: Disk, identities: seq<IdentityRecord>, faults: ReadFaults) returns (ok: bool)
    modifies identities
    ensures var ks := LoadMain(disk.State(), faults, ParseKeystore, map[]);
            && (ok <==> ks.Some? && forall i | 0 <= i < |identities| ::
                          ['_' as int] + Hex.UuidString(identities[i].uid) in ks.value
                          && Hex.UuidString(identities[i].uid) in ks.value)
            && (ok ==> forall i | 0 <= i < |identities| ::
                         identities[i].privateKey == ks.value[['_' as int] + Hex.UuidString(identities[i].uid)]
                         && identities[i].publicKey == ks.value[Hex.UuidString(identities[i].uid)])
  {
    var fileManager := new FileManager(disk);
    var loaded := fileManager.LoadKeys(faults);
    if !loaded { return false; }
    ok := FillAll(fileManager, identities);
  }

  method FillAll(fileManager: FileManager, identities: seq<IdentityRecord>) returns (ok: bool)
    modifies identities
    ensures ok <==> forall i | 0 <= i < |identities| :: KeysIn(fileManager.keystore, identities[i].uid)
    ensures ok ==> forall i | 0 <= i < |identities| :: Filled(identities[i], fileManager.keystore)
  {
    var i := 0;
    while i < |identities|
      modifies identities
      invariant 0 <= i <= |identities|
      invariant forall j | 0 <= j < i :: Filled(identities[j], fileManager.keystore)
    {
      var filled := FillKeys(fileManager, identities[i]);
      if !filled { return false; }
      i := i + 1;
    }
    return true;
  }

  function Values(identities: seq<IdentityRecord>): (rows: seq<Identity>)
    reads identities
    ensures |rows| == |identities|
    ensures forall i | 0 <= i < |rows| :: rows[i] == identities[i].Value()
  {
    if identities == [] then [] else [identities[0].Value()] + Values(identities[1..])
  }

  datatype MigrationFaults = MigrationFaults(
    start: Fault,
    lookup: nat -> Fault,
    store: nat -> Fault,
    moves: nat -> seq<Move>,   // what other transactions do while the i-th insert waits for them
    commit: CommitFault
  )

  predicate Complete(row: Identity)
  {
    row.privateKey != [] && row.publicKey != [] && row.authToken != []
  }

  /** All rows are complete, their uids are distinct, and none is committed or pending in `db`. */
  ghost predicate Migratable(rows: seq<Identity>, db: Db)
  {
    && (forall i | 0 <= i < |rows| :: Complete(rows[i]))
    && DistinctUids(rows) && Disjoint(rows, db.table)
    && forall t | t in db.open && db.open[t].Active? :: Disjoint(rows, db.open[t].rows)
  }

  ghost predicate Faultless(faults: MigrationFaults, n: nat)
  {
    faults.start.NoFault? && forall i | 0 <= i < n :: faults.lookup(i).NoFault? && faults.store(i).NoFault?
  }

  /** The first `n` rows are inserted: nothing has failed, and none of their uids belongs to anyone else. */
  ghost predicate Inserted(rows: seq<Identity>, db: Db, faults: MigrationFaults, n: nat)
    requires n <= |rows|
    decreases n, 1
  {
    Faultless(faults, n) && Migratable(rows[..n], World(rows, db, faults, n))
  }

  /** What the inserts of the first `n` rows have waited for the other transactions to make of `db`. */
  ghost function World(rows: seq<Identity>, db: Db, faults: MigrationFaults, n: nat): Db
    requires n <= |rows|
    decreases n, 0
  {
    if n == 0 then db
    else
      var before := World(rows, db, faults, n - 1);
      if Inserted(rows, db, faults, n - 1) && Reached(rows, faults, n - 1)
      then Settle(before, rows[n - 1].uid, faults.moves(n - 1)) else before
  }

  /** The i-th row gets as far as an insert that may have to wait. */
  ghost predicate Reached(rows: seq<Identity>, faults: MigrationFaults, i: nat)
    requires i < |rows|
  {
    && faults.lookup(i).NoFault? && faults.store(i).NoFault? && Complete(rows[i])
    && !HasUid(rows[..i], rows[i].uid)
  }

  lemma {:induction false} UndisturbedWorld(rows: seq<Identity>, db: Db, faults: MigrationFaults, n: nat)
    requires n <= |rows| && forall i | 0 <= i < |rows| :: !Held(db, rows[i].uid)
    ensures World(rows, db, faults, n) == db
  {
    if n > 0 { UndisturbedWorld(rows, db, faults, n - 1); }
  }

  /** When no other transaction holds a listed uid, nothing waits, and the list alone decides. */
  lemma UndisturbedMigration(rows: seq<Identity>, db: Db, faults: MigrationFaults)
    requires forall i | 0 <= i < |rows| :: !Held(db, rows[i].uid)
    ensures World(rows, db, faults, |rows|) == db
    ensures Inserted(rows, db, faults, |rows|) <==> Faultless(faults, |rows|) && Migratable(rows, db)
  {
    UndisturbedWorld(rows, db, faults, |rows|);
    assert rows[..|rows|] == rows;
  }

  /** In any case the others only end their transactions, and commit nothing but what they held. */
  lemma {:induction false} WorldMovesOn(rows: seq<Identity>, db: Db, faults: MigrationFaults, n: nat)
    requires n <= |rows|
    ensures var world := World(rows, db, faults, n);
            && MovedOn(db, world)
            && forall k | |db.table| <= k < |world.table| :: Pending(db, world.table[k])
  {
    if n > 0 {
      var before, world := World(rows, db, faults, n - 1), World(rows, db, faults, n);
      WorldMovesOn(rows, db, faults, n - 1);
      SettleMovesOn(before, rows[n - 1].uid, faults.moves(n - 1));
      forall k | |db.table| <= k < |world.table| ensures Pending(db, world.table[k]) {
        if k < |before.table| {
          assert world.table[k] == before.table[k];
        } else {
          SettledRowsWerePending(before, rows[n - 1].uid, faults.moves(n - 1), k);
          PendingBefore(db, before, world.table[k]);
        }
      }
    }
  }

  /** What the others do meanwhile cannot take a uid that was free. */
  lemma {:induction false} SettleKeepsMigratable(rows: seq<Identity>, db: Db, uid: Uuid, moves: seq<Move>)
    requires Migratable(rows, db)
    ensures Migratable(rows, Settle(db, uid, moves))
    decreases |moves|
  {
    if moves != [] && !HasUid(db.table, uid) && Held(db, uid) {
      SettleKeepsMigratable(rows, AfterMove(db, moves[0]), uid, moves[1..]);
    }
  }

  lemma OneMoreMigratable(rows: seq<Identity>, i: nat, db: Db)
    requires i < |rows| && Migratable(rows[..i], db)
    ensures Migratable(rows[..i + 1], db) <==>
            Complete(rows[i]) && !HasUid(rows[..i], rows[i].uid) && Free(db, rows[i].uid)
  {
  }

  /** The next row is inserted exactly if it is reached and its uid is free after the wait. */
  lemma NextInserted(rows: seq<Identity>, db: Db, faults: MigrationFaults, i: nat)
    requires i < |rows| && Inserted(rows, db, faults, i)
    ensures Inserted(rows, db, faults, i + 1) <==>
            && Reached(rows, faults, i)
            && Free(Settle(World(rows, db, faults, i), rows[i].uid, faults.moves(i)), rows[i].uid)
  {
    var before := World(rows, db, faults, i);
    SettleKeepsMigratable(rows[..i], before, rows[i].uid, faults.moves(i));
    OneMoreMigratable(rows, i, World(rows, db, faults, i + 1));
  }

  /** Once a row is not inserted, the list is not migrated and nothing moves any more. */
  lemma {:induction false} NotInsertedStays(rows: seq<Identity>, db: Db, faults: MigrationFaults, i: nat, n: nat)
    requires i <= n <= |rows| && !Inserted(rows, db, faults, i)
    ensures !Inserted(rows, db, faults, n) && World(rows, db, faults, n) == World(rows, db, faults, i)
  {
    if i < n {
      NotInsertedStays(rows, db, faults, i, n - 1);
      assert rows[..n][..n - 1] == rows[..n - 1];
      if Migratable(rows[..n], World(rows, db, faults, n - 1)) {
        PrefixMigratable(rows[..n], n - 1, World(rows, db, faults, n - 1));
      }
    }
  }

  lemma PrefixMigratable(rows: seq<Identity>, n: nat, db: Db)
    requires n <= |rows| && Migratable(rows, db)
    ensures Migratable(rows[..n], db)
  {
  }

  /**
   * All or nothing: the table gains exactly all listed identities, or the migration changes
   * nothing. The identities are migrated exactly when nothing fails, all are complete and distinct,
   * and none has a row or is held by another transaction once the inserts no longer wait.
   */
  method MigrateIdentities(dm: DatabaseManager, identities: seq<IdentityRecord>, faults: MigrationFaults)
      returns (ok: bool)
    requires dm.Valid()
    modifies dm
    ensures dm.Valid()
    ensures var rows := Values(identities);
            var world := World(rows, old(dm.State()), faults, |rows|);
            var inserted := Inserted(rows, old(dm.State()), faults, |rows|);
            && dm.State() == (if inserted && !faults.commit.NotCommitted?
                              then world.(table := world.table + rows) else world)
            && (ok <==> inserted && faults.commit.Committed?)
    ensures (exists i | 0 <= i < |identities| ::
               identities[i].authToken == [] || identities[i].privateKey == [] || identities[i].publicKey == []) ==>
              !ok && dm.State() == World(Values(identities), old(dm.State()), faults, |identities|)
  {
    if Inserted(Values(identities), dm.State(), faults, |identities|) {
      IncompleteIsNotInserted(Values(identities), dm.State(), faults);
    }
    ok := MigrateRows(dm, Values(identities), faults);
  }

  lemma IncompleteIsNotInserted(rows: seq<Identity>, db: Db, faults: MigrationFaults)
    requires Inserted(rows, db, faults, |rows|)
    ensures forall i | 0 <= i < |rows| :: rows[i].authToken != [] && rows[i].privateKey != [] && rows[i].publicKey != []
  {
    assert rows[..|rows|] == rows;
  }

  method MigrateRows(dm: DatabaseManager, rows: seq<Identity>, faults: MigrationFaults) returns (ok: bool)
    requires dm.Valid()
    modifies dm
    ensures dm.Valid()
    ensures var world := World(rows, old(dm.State()), faults, |rows|);
            var inserted := Inserted(rows, old(dm.State()), faults, |rows|);
            && dm.State() == (if inserted && !faults.commit.NotCommitted?
                              then world.(table := world.table + rows) else world)
            && (ok <==> inserted && faults.commit.Committed?)
  {
    ghost var db := dm.State();
    var tx := dm.StartTransaction(faults.start);
    if tx.Err? {
      NotInsertedStays(rows, db, faults, 0, |rows|);
      return false;
    }
    WithoutTx(db, tx.value, Active([]));
    ok := InsertAll(dm, tx.value, rows, faults, db);
    if ok {
      ok := dm.CloseTransaction(tx.value, true, faults.commit);
    } else {
      // the deferred cancellation of the context
      var _ := dm.CloseTransaction(tx.value, false, Committed);
    }
  }

  /** The transaction `tx` has inserted just these rows, beside the database `rest` of the others. */
  ghost predicate HasInserted(dm: DatabaseManager, tx: TxId, rows: seq<Identity>, rest: Db)
    reads dm
  {
    && dm.Valid() && Rollback(dm.State(), tx) == rest
    && tx in dm.open && dm.open[tx] == Active(rows)
  }

  /** The loop over the list; `db` is the database before the transaction was opened. */
  method InsertAll(dm: DatabaseManager, tx: TxId, rows: seq<Identity>, faults: MigrationFaults, ghost db: Db)
      returns (ok: bool)
    requires faults.start.NoFault? && HasInserted(dm, tx, [], db)
    modifies dm
    ensures dm.Valid() && Rollback(dm.State(), tx) == World(rows, db, faults, |rows|)
    ensures ok <==> Inserted(rows, db, faults, |rows|)
    ensures ok ==> HasInserted(dm, tx, rows, World(rows, db, faults, |rows|))
  {
    var i := 0;
    while i < |rows|
      invariant 0 <= i <= |rows|
      invariant HasInserted(dm, tx, rows[..i], World(rows, db, faults, i))
      invariant Inserted(rows, db, faults, i)
    {
      var inserted := InsertNext(dm, tx, rows, faults, i, db);
      if !inserted {
        NotInsertedStays(rows, db, faults, i + 1, |rows|);
        return false;
      }
      i := i + 1;
    }
    assert rows[..i] == rows;
    return true;
  }

  method InsertNext(dm: DatabaseManager, tx: TxId, rows: seq<Identity>, faults: MigrationFaults, i: nat, ghost db: Db)
      returns (inserted: bool)
    requires i < |rows| && Inserted(rows, db, faults, i)
    requires HasInserted(dm, tx, rows[..i], World(rows, db, faults, i))
    modifies dm
    ensures dm.Valid() && Rollback(dm.State(), tx) == World(rows, db, faults, i + 1)
    ensures inserted <==> Inserted(rows, db, faults, i + 1)
    ensures inserted ==> HasInserted(dm, tx, rows[..i + 1], World(rows, db, faults, i + 1))
  {
    NextInserted(rows, db, faults, i);
    assert rows[..i + 1] == rows[..i] + [rows[i]];
    inserted := MigrateOne(dm, tx, rows[i], faults.lookup(i), faults.store(i), faults.moves(i));
  }

  /** The body of the loop: an identity that exists already is only warned about, and its insert fails. */
  method MigrateOne(dm: DatabaseManager, tx: TxId, id: Identity, lookup: Fault, store: Fault, moves: seq<Move>)
      returns (inserted: bool)
    requires dm.Valid() && tx in dm.open && dm.open[tx].Active?
    modifies dm
    ensures dm.Valid()
    ensures var db := old(dm.State());
            var rest, held := Rollback(db, tx), HasUid(db.open[tx].rows, id.uid);
            var reached := lookup.NoFault? && store.NoFault? && Complete(id) && !held;
            && Rollback(dm.State(), tx) == (if reached then Settle(rest, id.uid, moves) else rest)
            && (inserted <==> reached && Free(Settle(rest, id.uid, moves), id.uid))
            && (inserted ==> tx in dm.open && dm.open[tx] == Active(db.open[tx].rows + [id]))
  {
    ghost var db := dm.State();
    var existing := dm.GetIdentity(id.uid, lookup);
    if existing.Err? && existing.error != NotExist { return false; }
    if !Complete(id) { return false; }
    if HasUid(db.open[tx].rows, id.uid) {
      InsertedBeside(db, tx, id);
    } else {
      StoredBeside(db, tx, id, moves);
    }
    var r := dm.StoreNewIdentity(tx, id, store, moves);
    inserted := r.Inserted?;
  }
}
