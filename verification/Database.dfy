/** Identities and the form in which they are stored. */
module Identities {
  import opened Prelude
  import opened CryptoLib

  /** In memory the keys are PEM texts; in a table row they are ciphertext and raw key bytes. */
  datatype Identity = Identity(uid: Uuid, privateKey: Bytes, publicKey: Bytes, authToken: Bytes)

  predicate AttributesNotNil(i: Identity)
  {
    i.uid != NIL_UUID && i.privateKey != [] && i.publicKey != [] && i.authToken != []
  }

  /** What `Protocol.StoreNewIdentity` makes of an identity before it is inserted. */
  function EncodeIdentity(c: Crypto, id: Identity, rnd: Bytes): Option<Identity>
  {
    if !AttributesNotNil(id) then None
    else
      var ciphertext :- c.encrypt(id.privateKey, rnd);
      var raw :- c.pemToBytes(id.publicKey);
      Some(id.(privateKey := ciphertext, publicKey := raw))
  }

  /** What `Protocol.fetchIdentityFromStorage` makes of a row. */
  function DecodeRow(c: Crypto, row: Identity): Option<Identity>
  {
    var priv :- c.decrypt(row.privateKey);
    var pem :- c.bytesToPem(row.publicKey);
    var id := row.(privateKey := priv, publicKey := pem);
    if AttributesNotNil(id) then Some(id) else None
  }

  /** A row is made only of a complete identity, and holds its private key encrypted and its public key raw. */
  lemma EncodeIdentityIff(c: Crypto, id: Identity, rnd: Bytes, row: Identity)
    ensures EncodeIdentity(c, id, rnd) == Some(row) <==>
            && id.uid != [0, 0, 0, 0, 0, 0, 0, 0, 0, 0, 0, 0, 0, 0, 0, 0]
            && |id.privateKey| > 0 && |id.publicKey| > 0 && |id.authToken| > 0
            && c.encrypt(id.privateKey, rnd) == Some(row.privateKey)
            && c.pemToBytes(id.publicKey) == Some(row.publicKey)
            && row.uid == id.uid && row.authToken == id.authToken
  {
  }

  /** Reading a row decrypts the private key and turns the public key into PEM; nothing may be empty. */
  lemma DecodeRowIff(c: Crypto, row: Identity, id: Identity)
    ensures DecodeRow(c, row) == Some(id) <==>
            && c.decrypt(row.privateKey) == Some(id.privateKey)
            && c.bytesToPem(row.publicKey) == Some(id.publicKey)
            && id.uid == row.uid && id.authToken == row.authToken
            && id.uid != [0, 0, 0, 0, 0, 0, 0, 0, 0, 0, 0, 0, 0, 0, 0, 0]
            && |id.privateKey| > 0 && |id.publicKey| > 0 && |id.authToken| > 0
  {
  }

  /** The row decodes to an identity whose private key belongs to the stored public key. */
  ghost predicate SoundRow(c: Crypto, row: Identity)
  {
    && DecodeRow(c, row).Some?
    && KeyPair(c, DecodeRow(c, row).value.privateKey, row.publicKey)
  }

  /** Loading gives back what was stored, for every identity whose public key was derived from its private key. */
  lemma StoreThenLoad(c: Crypto, id: Identity, rnd: Bytes)
    requires Lawful(c) && EncodeIdentity(c, id, rnd).Some?
    requires c.publicKeyOf(id.privateKey) == Some(id.publicKey)
    ensures DecodeRow(c, EncodeIdentity(c, id, rnd).value) == Some(id)
    ensures SoundRow(c, EncodeIdentity(c, id, rnd).value)
  {
    var row := EncodeIdentity(c, id, rnd).value;
    assert KeyPair(c, id.privateKey, row.publicKey);
  }
}

/**
 * The identity table with its open transactions. Rows become visible when their transaction
 * commits; the primary key makes an insert fail on a committed uid and wait on a pending one.
 */
module Database {
  import opened Prelude
  import opened Identities

  type TxId = nat

  datatype Tx = Active(rows: seq<Identity>) | Aborted

  datatype Db = Db(table: seq<Identity>, open: map<TxId, Tx>)

  predicate HasUid(rows: seq<Identity>, uid: Uuid)
  {
    exists i | 0 <= i < |rows| :: rows[i].uid == uid
  }

  predicate HeldElsewhere(db: Db, tx: TxId, uid: Uuid)
  {
    exists t | t in db.open :: t != tx && db.open[t].Active? && HasUid(db.open[t].rows, uid)
  }

  /** Some open transaction holds the uid. */
  predicate Held(db: Db, uid: Uuid)
  {
    exists t | t in db.open :: db.open[t].Active? && HasUid(db.open[t].rows, uid)
  }

  /** The uid is neither committed nor pending anywhere. */
  predicate Free(db: Db, uid: Uuid)
  {
    !HasUid(db.table, uid) && !Held(db, uid)
  }

  datatype InsertOutcome = Inserted | Refused | Waits

  function InsertResult(db: Db, tx: TxId, uid: Uuid): InsertOutcome
  {
    if tx !in db.open || db.open[tx].Aborted? then Refused
    else if HasUid(db.table, uid) || HasUid(db.open[tx].rows, uid) then Refused
    else if HeldElsewhere(db, tx, uid) then Waits
    else Inserted
  }

  function Begin(db: Db, tx: TxId): Db
  {
    db.(open := db.open[tx := Active([])])
  }

  /** A failed statement aborts its transaction; a waiting one has not happened yet. */
  function Insert(db: Db, tx: TxId, row: Identity): Db
  {
    match InsertResult(db, tx, row.uid)
    case Inserted => db.(open := db.open[tx := Active(db.open[tx].rows + [row])])
    case Refused => if tx in db.open then Abort(db, tx) else db
    case Waits => db
  }

  function Abort(db: Db, tx: TxId): Db
  {
    db.(open := db.open[tx := Aborted])
  }

  function Rollback(db: Db, tx: TxId): Db
  {
    db.(open := db.open - {tx})
  }

  function Commit(db: Db, tx: TxId): Db
  {
    if tx in db.open && db.open[tx].Active?
    then Rollback(db, tx).(table := db.table + db.open[tx].rows)
    else Rollback(db, tx)
  }

  function FindUid(rows: seq<Identity>, uid: Uuid): (r: Option<Identity>)
    ensures r.Some? <==> HasUid(rows, uid)
    ensures r.Some? ==> r.value in rows && r.value.uid == uid
  {
    if rows == [] then None
    else if rows[0].uid == uid then
      assert HasUid(rows, uid);
      Some(rows[0])
    else
      assert HasUid(rows, uid) ==> HasUid(rows[1..], uid) by {
        if HasUid(rows, uid) {
          var i :| 0 <= i < |rows| && rows[i].uid == uid;
          assert rows[1..][i - 1].uid == uid;
        }
      }
      assert HasUid(rows[1..], uid) ==> HasUid(rows, uid) by {
        if HasUid(rows[1..], uid) {
          var i :| 0 <= i < |rows[1..]| && rows[1..][i].uid == uid;
          assert rows[i + 1].uid == uid;
        }
      }
      FindUid(rows[1..], uid)
  }

  // ---------- Waiting ----------

  /** What another transaction does while an insert waits: it commits or is rolled back. */
  datatype Move = Move(tx: TxId, commit: bool)

  function AfterMove(db: Db, m: Move): Db
  {
    if m.commit then Commit(db, m.tx) else Rollback(db, m.tx)
  }

  /** The other transactions move as long as one of them holds a uid that is not committed. */
  function Settle(rest: Db, uid: Uuid, moves: seq<Move>): Db
    decreases |moves|
  {
    if moves == [] || HasUid(rest.table, uid) || !Held(rest, uid) then rest
    else Settle(AfterMove(rest, moves[0]), uid, moves[1..])
  }

  /** The row is pending in an open transaction. */
  ghost predicate Pending(db: Db, row: Identity)
  {
    exists t | t in db.open :: db.open[t].Active? && row in db.open[t].rows
  }

  lemma PendingBefore(db: Db, db': Db, row: Identity)
    requires MovedOn(db, db') && Pending(db', row)
    ensures Pending(db, row)
  {
    var t :| t in db'.open && db'.open[t].Active? && row in db'.open[t].rows;
    assert t in db.open && db.open[t] == db'.open[t];
  }

  /** Rows that appear while an insert waits were pending before. */
  lemma {:induction false} SettledRowsWerePending(rest: Db, uid: Uuid, moves: seq<Move>, i: nat)
    requires |rest.table| <= i < |Settle(rest, uid, moves).table|
    ensures Pending(rest, Settle(rest, uid, moves).table[i])
    decreases |moves|
  {
    if moves != [] && !HasUid(rest.table, uid) && Held(rest, uid) {
      var next := AfterMove(rest, moves[0]);
      SettleMovesOn(next, uid, moves[1..]);
      if i < |next.table| {
        assert Settle(rest, uid, moves).table[i] == next.table[i];
        assert next.table[i] in rest.open[moves[0].tx].rows;
      } else {
        SettledRowsWerePending(next, uid, moves[1..], i);
        var t :| t in next.open && next.open[t].Active? && Settle(rest, uid, moves).table[i] in next.open[t].rows;
        assert t in rest.open && rest.open[t] == next.open[t];
      }
    }
  }

  function AfterMoves(db: Db, moves: seq<Move>): Db
    decreases |moves|
  {
    if moves == [] then db else AfterMoves(AfterMove(db, moves[0]), moves[1..])
  }

  /** An insert of the uid has to wait: it is not committed, but some open transaction holds it. */
  predicate Blocked(db: Db, uid: Uuid)
  {
    && (forall i | 0 <= i < |db.table| :: db.table[i].uid != uid)
    && exists t | t in db.open ::
         db.open[t].Active? && exists i | 0 <= i < |db.open[t].rows| :: db.open[t].rows[i].uid == uid
  }

  /** Waiting lasts exactly as long as the insert is blocked, or until nothing moves any more. */
  lemma {:induction false} SettleIs(rest: Db, uid: Uuid, moves: seq<Move>)
    ensures exists n | 0 <= n <= |moves| ::
              && Settle(rest, uid, moves) == AfterMoves(rest, moves[..n])
              && (forall m | 0 <= m < n :: Blocked(AfterMoves(rest, moves[..m]), uid))
              && (n == |moves| || !Blocked(AfterMoves(rest, moves[..n]), uid))
    decreases |moves|
  {
    if moves == [] || !Blocked(rest, uid) {
      assert Settle(rest, uid, moves) == AfterMoves(rest, moves[..0]);
    } else {
      var next := AfterMove(rest, moves[0]);
      SettleIs(next, uid, moves[1..]);
      var n :| 0 <= n <= |moves[1..]| && Settle(next, uid, moves[1..]) == AfterMoves(next, moves[1..][..n])
               && (forall m | 0 <= m < n :: Blocked(AfterMoves(next, moves[1..][..m]), uid))
               && (n == |moves[1..]| || !Blocked(AfterMoves(next, moves[1..][..n]), uid));
      FirstMove(rest, moves, n + 1);
      forall m | 0 <= m < n + 1 ensures Blocked(AfterMoves(rest, moves[..m]), uid) {
        if m > 0 { FirstMove(rest, moves, m); }
      }
    }
  }

  lemma FirstMove(db: Db, moves: seq<Move>, n: nat)
    requires 0 < n <= |moves|
    ensures AfterMoves(db, moves[..n]) == AfterMoves(AfterMove(db, moves[0]), moves[1..][..n - 1])
  {
    assert moves[..n][1..] == moves[1..][..n - 1];
  }

  /** A commit appends the transaction's rows if it is still active, and a rollback only ends it. */
  lemma MoveIs(db: Db, m: Move)
    ensures var db' := AfterMove(db, m);
            && db'.table == db.table + (if m.commit && m.tx in db.open && db.open[m.tx].Active?
                                        then db.open[m.tx].rows else [])
            && (forall t :: t in db'.open <==> t in db.open && t != m.tx)
            && (forall t | t in db'.open :: db'.open[t] == db.open[t])
  {
  }

  function WithTx(rest: Db, tx: TxId, state: Tx): Db
  {
    rest.(open := rest.open[tx := state])
  }

  /** The database when an insert goes on: the others have settled, or will never give way. */
  function Waited(db: Db, tx: TxId, uid: Uuid, moves: seq<Move>): Db
  {
    if tx in db.open && db.open[tx].Active? && !HasUid(db.open[tx].rows, uid)
    then WithTx(Settle(Rollback(db, tx), uid, moves), tx, db.open[tx])
    else db
  }

  /** Other transactions can only end, and rows are only ever appended. */
  ghost predicate MovedOn(db: Db, db': Db)
  {
    && db.table <= db'.table
    && db'.open.Keys <= db.open.Keys && forall t | t in db'.open :: db'.open[t] == db.open[t]
  }

  lemma {:induction false} SettleMovesOn(rest: Db, uid: Uuid, moves: seq<Move>)
    ensures MovedOn(rest, Settle(rest, uid, moves))
    decreases |moves|
  {
    if moves != [] && !HasUid(rest.table, uid) && Held(rest, uid) {
      var next := AfterMove(rest, moves[0]);
      assert MovedOn(rest, next);
      SettleMovesOn(next, uid, moves[1..]);
    }
  }

  lemma WithoutTx(rest: Db, tx: TxId, state: Tx)
    requires tx !in rest.open
    ensures Rollback(WithTx(rest, tx, state), tx) == rest
  {
    assert Rollback(WithTx(rest, tx, state), tx).open == rest.open;
  }

  lemma WaitedMovesOn(db: Db, tx: TxId, uid: Uuid, moves: seq<Move>)
    ensures Waited(db, tx, uid, moves).open.Keys <= db.open.Keys
    ensures MovedOn(Rollback(db, tx), Rollback(Waited(db, tx, uid, moves), tx))
    ensures var waited := Waited(db, tx, uid, moves);
            tx in db.open ==> tx in waited.open && waited.open[tx] == db.open[tx]
  {
    var rest := Settle(Rollback(db, tx), uid, moves);
    SettleMovesOn(Rollback(db, tx), uid, moves);
    if tx in db.open { WithoutTx(rest, tx, db.open[tx]); }
  }

  /** An insert concerns no other transaction. */
  lemma InsertedBeside(db: Db, tx: TxId, row: Identity)
    ensures Rollback(Insert(db, tx, row), tx) == Rollback(db, tx)
    ensures Insert(db, tx, row).open.Keys == db.open.Keys
  {
    assert Rollback(Insert(db, tx, row), tx).open == Rollback(db, tx).open;
  }

  /** An insert goes through exactly if, once the others have settled, none of them has the uid. */
  lemma WaitedInsertResult(db: Db, tx: TxId, uid: Uuid, moves: seq<Move>)
    requires tx in db.open && db.open[tx].Active? && !HasUid(db.open[tx].rows, uid)
    ensures var rest := Settle(Rollback(db, tx), uid, moves);
            && tx !in rest.open
            && (InsertResult(Waited(db, tx, uid, moves), tx, uid).Inserted? <==> Free(rest, uid))
  {
    var rest, waited := Settle(Rollback(db, tx), uid, moves), Waited(db, tx, uid, moves);
    SettleMovesOn(Rollback(db, tx), uid, moves);
    assert forall t | t in rest.open :: t in waited.open && waited.open[t] == rest.open[t];
    assert HeldElsewhere(waited, tx, uid) ==> !Free(rest, uid);
    if t :| t in rest.open && rest.open[t].Active? && HasUid(rest.open[t].rows, uid) {
      assert waited.open[t].Active? && HasUid(waited.open[t].rows, uid);
    }
  }

  /** Beside its own rows, an insert leaves what its wait has made of the others. */
  lemma StoredBeside(db: Db, tx: TxId, row: Identity, moves: seq<Move>)
    requires tx in db.open && db.open[tx].Active? && !HasUid(db.open[tx].rows, row.uid)
    ensures var settled := Settle(Rollback(db, tx), row.uid, moves);
            && tx !in settled.open && Rollback(Insert(Waited(db, tx, row.uid, moves), tx, row), tx) == settled
    ensures Rollback(Abort(db, tx), tx) == Rollback(db, tx)
  {
    WaitedInsertResult(db, tx, row.uid, moves);
    InsertedBeside(Waited(db, tx, row.uid, moves), tx, row);
    WithoutTx(Settle(Rollback(db, tx), row.uid, moves), tx, db.open[tx]);
    assert Rollback(Abort(db, tx), tx).open == Rollback(db, tx).open;
  }

  // ---------- Consistency ----------

  ghost predicate DistinctUids(rows: seq<Identity>)
  {
    forall i, j | 0 <= i < j < |rows| :: rows[i].uid != rows[j].uid
  }

  ghost predicate Disjoint(rows: seq<Identity>, others: seq<Identity>)
  {
    forall i, j | 0 <= i < |rows| && 0 <= j < |others| :: rows[i].uid != others[j].uid
  }

  /** No uid stands twice among committed rows and the pending rows of all transactions. */
  ghost predicate Consistent(db: Db)
  {
    && DistinctUids(db.table)
    && (forall t | t in db.open && db.open[t].Active? ::
          DistinctUids(db.open[t].rows) && Disjoint(db.open[t].rows, db.table))
    && (forall t, u | t in db.open && u in db.open && t != u && db.open[t].Active? && db.open[u].Active? ::
          Disjoint(db.open[t].rows, db.open[u].rows))
  }

  lemma UniqueRow(rows: seq<Identity>, a: Identity, b: Identity)
    requires DistinctUids(rows) && a in rows && b in rows && a.uid == b.uid
    ensures a == b
  {
    var i :| 0 <= i < |rows| && rows[i] == a;
    var j :| 0 <= j < |rows| && rows[j] == b;
  }

  lemma InsertKeepsConsistent(db: Db, tx: TxId, row: Identity)
    requires Consistent(db)
    ensures Consistent(Insert(db, tx, row))
  {
    if InsertResult(db, tx, row.uid) == Inserted {
      var rows := db.open[tx].rows + [row];
      forall t | t in db.open && t != tx && db.open[t].Active?
        ensures Disjoint(rows, db.open[t].rows) && Disjoint(db.open[t].rows, rows)
      {
        assert !HasUid(db.open[t].rows, row.uid);
      }
    }
  }

  lemma CommitKeepsConsistent(db: Db, tx: TxId)
    requires Consistent(db)
    ensures Consistent(Commit(db, tx))
  {
  }

  lemma RollbackKeepsConsistent(db: Db, tx: TxId)
    requires Consistent(db)
    ensures Consistent(Rollback(db, tx))
  {
  }

  /** A move of another transaction, with `tx` looking on. */
  function MoveBeside(db: Db, tx: TxId, m: Move): Db
  {
    if m.tx == tx then db else AfterMove(db, m)
  }

  lemma MoveBesideIs(db: Db, tx: TxId, m: Move)
    requires tx in db.open
    ensures var db' := MoveBeside(db, tx, m);
            && tx in db'.open && db'.open[tx] == db.open[tx]
            && Rollback(db', tx) == AfterMove(Rollback(db, tx), m)
  {
    assert Rollback(MoveBeside(db, tx, m), tx).open == AfterMove(Rollback(db, tx), m).open;
  }

  lemma {:induction false} WaitedKeepsConsistent(db: Db, tx: TxId, uid: Uuid, moves: seq<Move>)
    requires Consistent(db)
    ensures Consistent(Waited(db, tx, uid, moves))
    decreases |moves|
  {
    if tx in db.open && db.open[tx].Active? && !HasUid(db.open[tx].rows, uid) {
      var rest := Rollback(db, tx);
      if moves == [] || HasUid(rest.table, uid) || !Held(rest, uid) {
        assert WithTx(rest, tx, db.open[tx]).open == db.open;
      } else {
        var next := MoveBeside(db, tx, moves[0]);
        CommitKeepsConsistent(db, moves[0].tx);
        RollbackKeepsConsistent(db, moves[0].tx);
        MoveBesideIs(db, tx, moves[0]);
        WaitedKeepsConsistent(next, tx, uid, moves[1..]);
      }
    }
  }
}
