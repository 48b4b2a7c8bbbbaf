/** The database connection: its methods change the table and the open transactions in place. */
module DatabaseAccess {
  import opened Prelude
  import opened Identities
  import opened Database

  /** What the server makes of a request: nothing wrong, no free connection, or any other error. */
  datatype Fault = NoFault | ConnectionLimit | OtherFault

  /** A commit may fail without effect, or take effect and lose its reply. */
  datatype CommitFault = Committed | NotCommitted | ReplyLost

  datatype DbError = NotExist | ConnectionNotAvailable | DbFailure

  function FaultError(fault: Fault): DbError
  {
    if fault.ConnectionLimit? then ConnectionNotAvailable else DbFailure
  }

  const MAX_DB_CONN_ATTEMPTS: nat := 5

  /** The fault that counts after the retries: that of the first attempt not refused for lack of connections. */
  function FaultAfterRetries(faults: nat -> Fault, attempt: nat): Fault
    requires attempt < MAX_DB_CONN_ATTEMPTS
    decreases MAX_DB_CONN_ATTEMPTS - attempt
  {
    if faults(attempt).ConnectionLimit? && attempt + 1 < MAX_DB_CONN_ATTEMPTS
    then FaultAfterRetries(faults, attempt + 1)
    else faults(attempt)
  }

  /** The first attempt that finds a connection decides, and the fifth in any case. */
  lemma RetriesGiveUpIff(faults: nat -> Fault)
    ensures FaultAfterRetries(faults, 0).ConnectionLimit? <==> forall i | 0 <= i < 5 :: faults(i).ConnectionLimit?
    ensures exists k | 0 <= k < 5 ::
              && FaultAfterRetries(faults, 0) == faults(k)
              && (forall i | 0 <= i < k :: faults(i).ConnectionLimit?)
              && (k == 4 || !faults(k).ConnectionLimit?)
  {
    var k := if !faults(0).ConnectionLimit? then 0 else if !faults(1).ConnectionLimit? then 1
             else if !faults(2).ConnectionLimit? then 2 else if !faults(3).ConnectionLimit? then 3 else 4;
    assert FaultAfterRetries(faults, 0) == faults(k);
  }

  class DatabaseManager {
    var table: seq<Identity>
    var open: map<TxId, Tx>
    var nextTx: TxId

    ghost predicate Valid()
      reads this
    {
      Consistent(State()) && forall t | t in open :: t < nextTx
    }

    function State(): Db
      reads this
    {
      Db(table, open)
    }

    constructor ()
      ensures Valid() && table == [] && open == map[]
    {
      table, open, nextTx := [], map[], 0;
    }

    method StartTransaction(fault: Fault) returns (tx: Result<TxId, DbError>)
      requires Valid()
      modifies this
      ensures Valid() && table == old(table)
      ensures fault.NoFault? ==> tx.Ok? && tx.value !in old(open) && open == old(open)[tx.value := Active([])]
      ensures !fault.NoFault? ==> tx == Err(FaultError(fault)) && open == old(open)
    {
      if !fault.NoFault? { return Err(FaultError(fault)); }
      tx := Ok(nextTx);
      open := open[nextTx := Active([])];
      nextTx := nextTx + 1;
    }

    /** Ends the transaction; an aborted one, or one that is gone, cannot be committed. */
    method CloseTransaction(tx: TxId, commit: bool, fault: CommitFault) returns (ok: bool)
      requires Valid()
      modifies this
      ensures Valid() && open == old(open) - {tx}
      ensures var effective := commit && !fault.NotCommitted? && tx in old(open) && old(open)[tx].Active?;
              && table == (if effective then old(table) + old(open)[tx].rows else old(table))
              && (commit ==> (ok <==> effective && fault.Committed?))
    {
      if commit && !fault.NotCommitted? {
        ok := tx in open && open[tx].Active? && fault.Committed?;
        CommitKeepsConsistent(State(), tx);
        if tx in open && open[tx].Active? { table := table + open[tx].rows; }
      } else {
        ok := !commit;
        RollbackKeepsConsistent(State(), tx);
      }
      open := open - {tx};
    }

    /**
     * A failed insert aborts the transaction. An insert of a uid that another transaction holds
     * waits while `moves` happen; then the row becomes pending exactly when its uid is free.
     */
    method StoreNewIdentity(tx: TxId, row: Identity, fault: Fault, moves: seq<Move>) returns (r: InsertOutcome)
      requires Valid()
      modifies this
      ensures Valid() && nextTx == old(nextTx)
      ensures var db, waited := old(State()), Waited(old(State()), tx, row.uid, moves);
              && (fault.NoFault? ==> State() == Insert(waited, tx, row) && r == InsertResult(waited, tx, row.uid))
              && (!fault.NoFault? ==> State() == (if tx in db.open then Abort(db, tx) else db) && r.Refused?)
      ensures MovedOn(Rollback(old(State()), tx), Rollback(State(), tx))
      ensures r.Refused? && tx in open ==> open[tx] == Aborted
      ensures r.Waits? ==> tx in open && open[tx] == old(open)[tx] && HeldElsewhere(State(), tx, row.uid)
      ensures r.Inserted? <==>
              && fault.NoFault? && tx in old(open) && old(open)[tx].Active? && !HasUid(old(open)[tx].rows, row.uid)
              && Free(Settle(Rollback(old(State()), tx), row.uid, moves), row.uid)
      ensures r.Inserted? ==> open[tx] == Active(old(open)[tx].rows + [row])
    {
      if !fault.NoFault? {
        if tx in open { open := open[tx := Aborted]; }
        return Refused;
      }
      var waited := Waited(State(), tx, row.uid, moves);
      WaitedKeepsConsistent(State(), tx, row.uid, moves);
      InsertKeepsConsistent(waited, tx, row);
      WaitedMovesOn(State(), tx, row.uid, moves);
      if tx in open && open[tx].Active? && !HasUid(open[tx].rows, row.uid) {
        WaitedInsertResult(State(), tx, row.uid, moves);
      }
      r := InsertResult(waited, tx, row.uid);
      var db := Insert(waited, tx, row);
      InsertedBeside(waited, tx, row);
      table, open := db.table, db.open;
    }

    method GetIdentity(uid: Uuid, fault: Fault) returns (r: Result<Identity, DbError>)
      ensures !fault.NoFault? ==> r == Err(FaultError(fault))
      ensures fault.NoFault? && r.Ok? ==> r.value in table && r.value.uid == uid
      ensures fault.NoFault? && r.Err? ==> r.error == NotExist && !HasUid(table, uid)
      ensures fault.NoFault? && r.Ok? ==> FindUid(table, uid) == Some(r.value)
    {
      if !fault.NoFault? { return Err(FaultError(fault)); }
      var row := FindUid(table, uid);
      r := if row.Some? then Ok(row.value) else Err(NotExist);
    }

    /** Any row with the key may be the answer. */
    method GetUuidForPublicKey(publicKey: Bytes, fault: Fault) returns (r: Result<Uuid, DbError>)
      ensures !fault.NoFault? ==> r == Err(FaultError(fault))
      ensures fault.NoFault? && r.Ok? ==> exists row | row in table :: row.publicKey == publicKey && row.uid == r.value
      ensures fault.NoFault? && r.Err? ==>
                r.error == NotExist && forall row | row in table :: row.publicKey != publicKey
    {
      if !fault.NoFault? { return Err(FaultError(fault)); }
      if exists i | 0 <= i < |table| :: table[i].publicKey == publicKey {
        var i :| 0 <= i < |table| && table[i].publicKey == publicKey;
        r := Ok(table[i].uid);
      } else {
        r := Err(NotExist);
      }
    }
  }
}
