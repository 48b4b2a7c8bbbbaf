/** The registration of one identity as an ordered series of effects, and the start-up loop over many. */
module IdentityHandling {
  import opened Prelude
  import opened CryptoLib
  import opened Identities
  import opened Database
  import opened DatabaseAccess
  import opened Caches
  import opened ProtocolObject
  import R = Registration

  /** The backend refuses the key, or accepts it and loses the reply, or confirms it. */
  datatype SubmitOutcome = Rejected | AcceptedReplyLost | Confirmed

  class Backend {
    var log: seq<R.Accepted>

    constructor ()
      ensures log == []
    {
      log := [];
    }

    method SubmitKeyRegistration(uid: Uuid, publicKey: Bytes, outcome: SubmitOutcome) returns (ok: bool)
      modifies this
      ensures log == if outcome.Rejected? then old(log) else old(log) + [R.Accepted(uid, publicKey)]
      ensures ok <==> outcome.Confirmed?
    {
      if !outcome.Rejected? { log := log + [R.Accepted(uid, publicKey)]; }
      ok := outcome.Confirmed?;
    }
  }

  /** Everything a call of `initIdentity` depends on besides its arguments. */
  datatype Conditions = Conditions(
    key: Option<Bytes>,       // the generated private key PEM
    start: nat -> Fault,
    rnd: Bytes,               // randomness of the key encryption
    store: Fault,
    moves: seq<Move>,         // what other transactions do while the insert waits for them
    requests: bool,           // the key registration and the CSR can be created
    submit: SubmitOutcome,
    commit: CommitFault
  )

  /** The identity for a generated key, if the key is usable. */
  function NewIdentity(c: Crypto, uid: Uuid, auth: Bytes, k: Conditions): Option<Identity>
  {
    var priv :- k.key;
    var pem :- c.publicKeyOf(priv);
    Some(Identity(uid, priv, pem, auth))
  }

  /** The row for a generated key, if no attribute of the identity is empty. */
  function NewRow(c: Crypto, uid: Uuid, auth: Bytes, k: Conditions): Option<Identity>
  {
    var id :- NewIdentity(c, uid, auth, k);
    EncodeIdentity(c, id, k.rnd)
  }

  /** What a call leaves behind, and whether it reports success. */
  datatype Outcome = Outcome(db: Db, log: seq<R.Accepted>, ok: bool)

  /**
   * The key reaches the backend only if its row can be inserted, and the row is committed only if
   * the backend has confirmed the key. In every other case the call itself leaves the table as it
   * was. What other transactions do while the insert waits stays done.
   */
  function AfterInit(c: Crypto, db: Db, log: seq<R.Accepted>, uid: Uuid, auth: Bytes, k: Conditions): Outcome
  {
    var row := NewRow(c, uid, auth, k);
    if row.None? || !FaultAfterRetries(k.start, 0).NoFault? then Outcome(db, log, false)
    else AfterStart(db, log, row.value, k)
  }

  function AfterStart(db: Db, log: seq<R.Accepted>, row: Identity, k: Conditions): Outcome
  {
    if !k.store.NoFault? then Outcome(db, log, false) else AfterWait(Settle(db, row.uid, k.moves), log, row, k)
  }

  /** `db` is the database when the insert no longer waits. */
  function AfterWait(db: Db, log: seq<R.Accepted>, row: Identity, k: Conditions): Outcome
  {
    var submitted := Free(db, row.uid) && k.requests && !k.submit.Rejected?;
    var committed := submitted && k.submit.Confirmed? && !k.commit.NotCommitted?;
    Outcome(if committed then db.(table := db.table + [row]) else db,
            if submitted then log + [R.Accepted(row.uid, row.publicKey)] else log,
            committed && k.commit.Committed?)
  }

  /** A call that reports success has committed the row and registered its key; no call touches rows that exist. */
  lemma InitOutcome(c: Crypto, db: Db, log: seq<R.Accepted>, uid: Uuid, auth: Bytes, k: Conditions)
    ensures var out, row := AfterInit(c, db, log, uid, auth, k), NewRow(c, uid, auth, k);
            && db.table <= out.db.table && log <= out.log
            && (out.ok ==> row.Some? && row.value in out.db.table
                           && out.log == log + [R.Accepted(uid, row.value.publicKey)])
            && (HasUid(db.table, uid) ==> out.db == db && out.log == log && !out.ok)
  {
    SettleMovesOn(db, uid, k.moves);
  }

  /** The key pair is generated, its public key is known, and nothing that a row needs is missing. */
  ghost predicate Usable(c: Crypto, uid: Uuid, auth: Bytes, k: Conditions)
  {
    && k.key.Some? && k.key.value != [] && auth != []
    && uid != [0, 0, 0, 0, 0, 0, 0, 0, 0, 0, 0, 0, 0, 0, 0, 0]
    && c.encrypt(k.key.value, k.rnd).Some?
    && var pem := c.publicKeyOf(k.key.value);
       pem.Some? && pem.value != [] && c.pemToBytes(pem.value).Some?
  }

  /**
   * Exactly what a call does. It submits the public key once its row is inserted, and commits the
   * row, with the private key encrypted, once the key is confirmed; it succeeds exactly if the
   * reply to the commit arrives.
   */
  lemma InitOutcomeIs(c: Crypto, db: Db, log: seq<R.Accepted>, uid: Uuid, auth: Bytes, k: Conditions)
    ensures var out := AfterInit(c, db, log, uid, auth, k);
            var started := Usable(c, uid, auth, k) && FaultAfterRetries(k.start, 0).NoFault?;
            if !started || !k.store.NoFault? then out == Outcome(db, log, false)
            else
              var settled := Settle(db, uid, k.moves);
              var key := c.pemToBytes(c.publicKeyOf(k.key.value).value).value;
              var row := Identity(uid, c.encrypt(k.key.value, k.rnd).value, key, auth);
              if !Free(settled, uid) || !k.requests || k.submit.Rejected? then out == Outcome(settled, log, false)
              else
                var confirmed := k.submit.Confirmed? && !k.commit.NotCommitted?;
                && out.log == log + [R.Accepted(uid, key)]
                && out.db == (if confirmed then settled.(table := settled.table + [row]) else settled)
                && (out.ok <==> confirmed && k.commit.Committed?)
  {
  }

  /** Nothing stands in the way of registering the identity. */
  ghost predicate Favourable(c: Crypto, id: Identity, lookup: nat -> Fault, k: Conditions)
  {
    && FaultAfterRetries(lookup, 0).NoFault? && id.authToken != []
    && NewRow(c, id.uid, id.authToken, k).Some?
    && FaultAfterRetries(k.start, 0).NoFault? && k.store.NoFault?
    && k.requests && k.submit.Confirmed? && k.commit.Committed?
  }

  ghost predicate AllDecodable(c: Crypto, table: seq<Identity>)
  {
    forall i | 0 <= i < |table| :: DecodeRow(c, table[i]).Some?
  }

  lemma FoundIsDecodable(c: Crypto, table: seq<Identity>, uid: Uuid)
    requires AllDecodable(c, table) && HasUid(table, uid)
    ensures DecodeRow(c, FindUid(table, uid).value).Some?
  {
    var i :| 0 <= i < |table| && table[i] == FindUid(table, uid).value;
  }

  lemma NewRowDecodable(c: Crypto, uid: Uuid, auth: Bytes, k: Conditions)
    requires Lawful(c) && NewRow(c, uid, auth, k).Some?
    ensures DecodeRow(c, NewRow(c, uid, auth, k).value).Some?
  {
    var priv := k.key.value;
    StoreThenLoad(c, Identity(uid, priv, c.publicKeyOf(priv).value, auth), k.rnd);
  }

  class IdentityHandler {
    const protocol: Protocol
    const backend: Backend

    constructor (protocol: Protocol, backend: Backend)
      ensures this.protocol == protocol && this.backend == backend
    {
      this.protocol, this.backend := protocol, backend;
    }

    method InitIdentity(uid: Uuid, auth: Bytes, k: Conditions) returns (ok: bool)
      requires protocol.Valid()
      modifies protocol.ctxManager, backend
      ensures protocol.Valid()
      ensures Outcome(protocol.ctxManager.State(), backend.log, ok) ==
              AfterInit(protocol.c, old(protocol.ctxManager.State()), old(backend.log), uid, auth, k)
      ensures auth == [] || uid == [0, 0, 0, 0, 0, 0, 0, 0, 0, 0, 0, 0, 0, 0, 0, 0] ==>
                && !ok && backend.log == old(backend.log)
                && protocol.ctxManager.State() == old(protocol.ctxManager.State())
    {
      InitOutcomeIs(protocol.c, protocol.ctxManager.State(), backend.log, uid, auth, k);
      var dm := protocol.ctxManager;
      if k.key.None? { return false; }
      var privKeyPem := k.key.value;
      var pubKeyPem := protocol.c.publicKeyOf(privKeyPem);
      if pubKeyPem.None? { return false; }
      var newIdentity := Identity(uid, privKeyPem, pubKeyPem.value, auth);

      var tx := protocol.StartTransaction(k.start);
      if tx.Err? { return false; }
      WithoutTx(old(dm.State()), tx.value, Active([]));
      ok := StoreRegisterCommit(tx.value, newIdentity, k);
    }

    /** The part of `initIdentity` behind the deferred cancellation of its transaction. */
    method StoreRegisterCommit(tx: TxId, id: Identity, k: Conditions) returns (ok: bool)
      requires protocol.Valid()
      requires tx in protocol.ctxManager.open && protocol.ctxManager.open[tx] == Active([])
      requires protocol.c.publicKeyOf(id.privateKey) == Some(id.publicKey)
      modifies protocol.ctxManager, backend
      ensures protocol.Valid()
      ensures var row, rest := EncodeIdentity(protocol.c, id, k.rnd), Rollback(old(protocol.ctxManager.State()), tx);
              Outcome(protocol.ctxManager.State(), backend.log, ok) ==
                if row.None? then Outcome(rest, old(backend.log), false)
                else AfterStart(rest, old(backend.log), row.value, k)
    {
      ghost var row, db := EncodeIdentity(protocol.c, id, k.rnd), protocol.ctxManager.State();
      if row.Some? { StoredBeside(db, tx, row.value, k.moves); }
      var stored := protocol.StoreNewIdentity(tx, id, k.rnd, k.store, k.moves);
      if !stored.Inserted? {
        Cancel(tx);
        return false;
      }
      var confirmed := RegisterPublicKey(id.privateKey, id.uid, k);
      if !confirmed {
        Cancel(tx);
        return false;
      }
      ok := CommitRow(tx, row.value, k.commit);
    }

    /** Signs a registration for the key that belongs to the private key and submits it. */
    method RegisterPublicKey(privKeyPem: Bytes, uid: Uuid, k: Conditions) returns (ok: bool)
      modifies backend
      ensures var pem := protocol.c.publicKeyOf(privKeyPem);
              var key := if pem.Some? then protocol.c.pemToBytes(pem.value) else None;
              && backend.log == (if k.requests && key.Some? && !k.submit.Rejected?
                                 then old(backend.log) + [R.Accepted(uid, key.value)] else old(backend.log))
              && (ok <==> k.requests && key.Some? && k.submit.Confirmed?)
    {
      var publicKey := R.KeyOf(protocol.c, privKeyPem);
      if !k.requests || publicKey.None? { return false; }
      ok := backend.SubmitKeyRegistration(uid, publicKey.value, k.submit);
    }

    /** Commits a transaction holding one row, keeping the caches sound. */
    method CommitRow(tx: TxId, ghost row: Identity, fault: CommitFault) returns (ok: bool)
      requires protocol.Valid()
      requires tx in protocol.ctxManager.open && protocol.ctxManager.open[tx] == Active([row])
      modifies protocol.ctxManager
      ensures protocol.Valid()
      ensures protocol.ctxManager.open == old(protocol.ctxManager.open) - {tx}
      ensures protocol.ctxManager.table ==
                if fault.NotCommitted? then old(protocol.ctxManager.table) else old(protocol.ctxManager.table) + [row]
      ensures ok <==> fault.Committed?
    {
      CachesSurviveCommits(protocol.c, protocol.ctxManager.table, [row], protocol.identityCache, protocol.uidCache);
      ok := protocol.ctxManager.CloseTransaction(tx, true, fault);
    }

    /** The deferred cancellation of the context rolls the transaction back. */
    method Cancel(tx: TxId)
      requires protocol.Valid()
      modifies protocol.ctxManager
      ensures protocol.Valid()
      ensures protocol.ctxManager.open == old(protocol.ctxManager.open) - {tx}
      ensures protocol.ctxManager.table == old(protocol.ctxManager.table)
    {
      var _ := protocol.ctxManager.CloseTransaction(tx, false, Committed);
    }

    /** The body of the start-up loop: an identity that has a row is skipped. */
    method InitIfAbsent(id: Identity, lookup: nat -> Fault, k: Conditions) returns (ok: bool)
      requires protocol.Valid()
      modifies protocol.ctxManager, protocol`identityCache, backend
      ensures protocol.Valid()
      ensures Grown(protocol.c, old(protocol.ctxManager.State()), protocol.ctxManager.State(), id, k)
      ensures ok ==> HasUid(protocol.ctxManager.table, id.uid)
      ensures HasUid(old(protocol.ctxManager.table), id.uid) ==>
                protocol.ctxManager.State() == old(protocol.ctxManager.State())
      ensures id.authToken == [] && !HasUid(old(protocol.ctxManager.table), id.uid) ==>
                && !ok && backend.log == old(backend.log)
                && protocol.ctxManager.State() == old(protocol.ctxManager.State())
      ensures (&& AllDecodable(protocol.c, old(protocol.ctxManager.table)) && Favourable(protocol.c, id, lookup, k)
               && !Held(old(protocol.ctxManager.State()), id.uid)) ==> ok
    {
      ghost var db := protocol.ctxManager.State();
      if AllDecodable(protocol.c, db.table) && HasUid(db.table, id.uid) {
        FoundIsDecodable(protocol.c, db.table, id.uid);
      }
      var exists' := protocol.Exists(id.uid, lookup);
      UnchangedGrown(protocol.c, db, id, k);
      if exists'.Err? { return false; }
      if exists'.value { return true; }
      if id.authToken == [] { return false; }
      InitGrows(protocol.c, db, backend.log, id, k);
      ok := InitIdentity(id.uid, id.authToken, k);
    }

    /**
     * Initializes every listed identity that has no row yet. Rows that exist are never touched; on
     * success every listed uid has one. Nothing but a fault, an unusable identity or another
     * transaction that holds one of the uids prevents it.
     */
    method InitIdentities(ids: seq<Identity>, lookups: nat -> nat -> Fault, conditions: nat -> Conditions)
        returns (ok: bool)
      requires protocol.Valid()
      modifies protocol.ctxManager, protocol`identityCache, backend
      ensures protocol.Valid()
      ensures InitializedFrom(old(protocol.ctxManager.State()), protocol.ctxManager.State(), ids)
      ensures ok ==> forall i | 0 <= i < |ids| :: HasUid(protocol.ctxManager.table, ids[i].uid)
      ensures (&& Lawful(protocol.c) && Undisturbed(protocol.c, old(protocol.ctxManager.State()), ids)
               && forall i | 0 <= i < |ids| :: Favourable(protocol.c, ids[i], lookups(i), conditions(i))) ==> ok
    {
      var dm := protocol.ctxManager;
      ghost var first := dm.State();
      var i := 0;
      while i < |ids|
        invariant 0 <= i <= |ids| && protocol.Valid()
        invariant InitializedFrom(first, dm.State(), ids)
        invariant forall j | 0 <= j < i :: HasUid(dm.table, ids[j].uid)
        invariant Lawful(protocol.c) && Undisturbed(protocol.c, first, ids) ==> Undisturbed(protocol.c, dm.State(), ids)
      {
        ghost var before := dm.State();
        var done := InitIfAbsent(ids[i], lookups(i), conditions(i));
        OneMore(protocol.c, first, before, dm.State(), ids, i, conditions(i));
        if Lawful(protocol.c) && Undisturbed(protocol.c, before, ids) {
          StillUndisturbed(protocol.c, before, dm.State(), ids, i, conditions(i));
        }
        if !done { return false; }
        i := i + 1;
      }
      return true;
    }
  }

  /** Other transactions may have ended; the rows that are new are theirs, or that of the identity. */
  ghost predicate Grown(c: Crypto, db: Db, db': Db, id: Identity, k: Conditions)
  {
    var row := NewRow(c, id.uid, id.authToken, k);
    && MovedOn(db, db')
    && (forall i | |db.table| <= i < |db'.table| :: Pending(db, db'.table[i]) || Some(db'.table[i]) == row)
    && (!Held(db, id.uid) ==>
          db'.open == db.open && (db'.table == db.table || (row.Some? && db'.table == db.table + [row.value])))
  }

  lemma UnchangedGrown(c: Crypto, db: Db, id: Identity, k: Conditions)
    ensures Grown(c, db, db, id, k)
  {
  }

  lemma InitGrows(c: Crypto, db: Db, log: seq<R.Accepted>, id: Identity, k: Conditions)
    ensures var out := AfterInit(c, db, log, id.uid, id.authToken, k);
            && Grown(c, db, out.db, id, k)
            && (out.ok ==> HasUid(out.db.table, id.uid))
  {
    var settled, out := Settle(db, id.uid, k.moves), AfterInit(c, db, log, id.uid, id.authToken, k);
    SettleMovesOn(db, id.uid, k.moves);
    forall i | |db.table| <= i < |settled.table| ensures Pending(db, settled.table[i]) {
      SettledRowsWerePending(db, id.uid, k.moves, i);
    }
    if out.ok { assert out.db.table[|settled.table|].uid == id.uid; }
  }

  /** The rows of `db` are still there, and the new ones were pending before or are made for a listed identity. */
  ghost predicate InitializedFrom(db: Db, db': Db, ids: seq<Identity>)
  {
    && MovedOn(db, db')
    && forall k | |db.table| <= k < |db'.table| :: Pending(db, db'.table[k]) || Listed(db'.table[k], ids)
  }

  ghost predicate Listed(row: Identity, ids: seq<Identity>)
  {
    exists i | 0 <= i < |ids| :: ids[i].uid == row.uid && ids[i].authToken == row.authToken
  }

  lemma OneMore(c: Crypto, first: Db, before: Db, after: Db, ids: seq<Identity>, i: nat, k: Conditions)
    requires InitializedFrom(first, before, ids) && i < |ids|
    requires Grown(c, before, after, ids[i], k)
    ensures InitializedFrom(first, after, ids)
    ensures forall j | 0 <= j < |ids| && HasUid(before.table, ids[j].uid) :: HasUid(after.table, ids[j].uid)
  {
    StillThere(before.table, after.table, ids);
    forall n | |first.table| <= n < |after.table|
      ensures Pending(first, after.table[n]) || Listed(after.table[n], ids)
    {
      if n < |before.table| {
        assert after.table[n] == before.table[n];
      } else if Pending(before, after.table[n]) {
        PendingBefore(first, before, after.table[n]);
      } else {
        assert ids[i].uid == after.table[n].uid && ids[i].authToken == after.table[n].authToken;
      }
    }
  }

  lemma StillThere(before: seq<Identity>, after: seq<Identity>, ids: seq<Identity>)
    requires before <= after
    ensures forall j | 0 <= j < |ids| && HasUid(before, ids[j].uid) :: HasUid(after, ids[j].uid)
  {
    forall j | 0 <= j < |ids| && HasUid(before, ids[j].uid) ensures HasUid(after, ids[j].uid) {
      var k :| 0 <= k < |before| && before[k].uid == ids[j].uid;
      assert after[k].uid == ids[j].uid;
    }
  }

  /** All rows decode, and no other transaction holds a listed uid. */
  ghost predicate Undisturbed(c: Crypto, db: Db, ids: seq<Identity>)
  {
    AllDecodable(c, db.table) && forall j | 0 <= j < |ids| :: !Held(db, ids[j].uid)
  }

  lemma StillUndisturbed(c: Crypto, db: Db, db': Db, ids: seq<Identity>, i: nat, k: Conditions)
    requires Lawful(c) && Undisturbed(c, db, ids) && i < |ids| && Grown(c, db, db', ids[i], k)
    ensures Undisturbed(c, db', ids)
  {
    if db'.table != db.table { NewRowDecodable(c, ids[i].uid, ids[i].authToken, k); }
  }

  // ---------- The method is a run of the concurrent model ----------

  function MoveEvent(m: Move): R.Event
  {
    if m.commit then R.CommitTx(m.tx, true) else R.EndTx(m.tx)
  }

  /** What the other calls do while the insert of `call` waits; `db` is the database without that call. */
  function MoveSteps(db: Db, call: TxId, uid: Uuid, moves: seq<Move>): seq<R.Event>
    decreases |moves|
  {
    if moves == [] || HasUid(db.table, uid) || !Held(db, uid) then []
    else
      var rest := MoveSteps(AfterMove(db, moves[0]), call, uid, moves[1..]);
      if moves[0].tx == call then rest else [MoveEvent(moves[0])] + rest
  }

  /** The steps of a call once its insert no longer waits, up to the deferred cancellation. */
  function StepsAfterWait(db: Db, call: TxId, row: Identity, k: Conditions): seq<R.Event>
  {
    [R.Store(call, k.rnd)] + StepsAfterStore(db, call, row, k)
  }

  function StepsAfterStore(db: Db, call: TxId, row: Identity, k: Conditions): seq<R.Event>
  {
    if !Free(db, row.uid) || !k.requests || k.submit.Rejected? then [R.Fail(call)] + [R.EndTx(call)]
    else if !k.submit.Confirmed? then [R.Submit(call, false)] + [R.EndTx(call)]
    else if k.commit.NotCommitted? then [R.Submit(call, true)] + ([R.Fail(call)] + [R.EndTx(call)])
    else [R.Submit(call, true)] + ([R.CommitTx(call, k.commit.Committed?)] + [R.EndTx(call)])
  }

  function StepsInside(c: Crypto, db: Db, call: TxId, id: Identity, k: Conditions): seq<R.Event>
  {
    var row := EncodeIdentity(c, id, k.rnd);
    if row.None? || !k.store.NoFault? then [R.Fail(call)] + [R.EndTx(call)]
    else MoveSteps(db, call, id.uid, k.moves) + StepsAfterWait(Settle(db, id.uid, k.moves), call, row.value, k)
  }

  function CallSteps(c: Crypto, db: Db, call: TxId, uid: Uuid, auth: Bytes, k: Conditions): seq<R.Event>
  {
    var id := NewIdentity(c, uid, auth, k);
    if id.None? then []
    else
      var generate := R.Generate(call, uid, auth, k.key.value);
      if !FaultAfterRetries(k.start, 0).NoFault? then [generate] + [R.Fail(call)]
      else [generate] + ([R.StartTx(call)] + StepsInside(c, db, call, id.value, k))
  }

  lemma Next(c: Crypto, s: R.State, e: R.Event, rest: seq<R.Event>)
    ensures R.Continue(c, s, [e] + rest) == R.Continue(c, R.Step(c, s, e), rest)
  {
    assert ([e] + rest)[1..] == rest;
  }

  lemma Last(c: Crypto, s: R.State, e: R.Event)
    ensures R.Continue(c, s, [e]) == R.Step(c, s, e)
  {
  }

  lemma {:induction false} ContinueAppend(c: Crypto, s: R.State, a: seq<R.Event>, b: seq<R.Event>)
    ensures R.Continue(c, s, a + b) == R.Continue(c, R.Continue(c, s, a), b)
    decreases |a|
  {
    if a == [] {
      assert a + b == b;
    } else {
      assert a + b == [a[0]] + (a[1..] + b);
      Next(c, s, a[0], a[1..] + b);
      ContinueAppend(c, R.Step(c, s, a[0]), a[1..], b);
    }
  }

  /** The call's transaction is open on the database `db` of all others, and holds these rows. */
  ghost predicate InTx(s: R.State, db: Db, call: TxId, rows: seq<Identity>)
  {
    call !in db.open && s.db == WithTx(db, call, Active(rows)) && call in s.calls
  }

  /** The cancellation restores the open transactions of the others. */
  lemma EndRestores(c: Crypto, s: R.State, db: Db, call: TxId)
    requires s.db.table == db.table && s.db.open - {call} == db.open
    ensures R.Continue(c, s, [R.EndTx(call)]) == s.(db := db)
  {
    Last(c, s, R.EndTx(call));
  }

  lemma FailEnds(c: Crypto, s: R.State, db: Db, call: TxId)
    requires s.db.table == db.table && s.db.open - {call} == db.open
    ensures var s' := R.Continue(c, s, [R.Fail(call)] + [R.EndTx(call)]);
            s'.db == db && s'.backend == s.backend
  {
    Next(c, s, R.Fail(call), [R.EndTx(call)]);
    EndRestores(c, R.Step(c, s, R.Fail(call)), db, call);
  }

  /** Only calls whose key is registered may commit while this one waits. */
  ghost predicate CommitsAreReady(s: R.State, db: Db, moves: seq<Move>)
  {
    forall i | 0 <= i < |moves| && moves[i].commit && moves[i].tx in db.open ::
      moves[i].tx in s.calls && s.calls[moves[i].tx].phase.Registered?
  }

  lemma MoveRuns(c: Crypto, s: R.State, db: Db, call: TxId, m: Move)
    requires InTx(s, db, call, []) && m.tx != call && CommitsAreReady(s, db, [m])
    ensures var s' := R.Step(c, s, MoveEvent(m));
            && InTx(s', AfterMove(db, m), call, []) && s'.backend == s.backend
            && forall t | t in s.calls && t != m.tx :: t in s'.calls && s'.calls[t] == s.calls[t]
  {
    assert [m][0] == m;
    var s' := R.Step(c, s, MoveEvent(m));
    assert s.db.open - {m.tx} == (db.open - {m.tx})[call := Active([])];
    if m.commit && m.tx !in db.open {
      assert s.db.open - {m.tx} == s.db.open && db.open - {m.tx} == db.open;
    }
  }

  lemma MovesRun(c: Crypto, s: R.State, db: Db, call: TxId, uid: Uuid, moves: seq<Move>)
    requires InTx(s, db, call, []) && CommitsAreReady(s, db, moves)
    ensures var s' := R.Continue(c, s, MoveSteps(db, call, uid, moves));
            && InTx(s', Settle(db, uid, moves), call, []) && s'.backend == s.backend
            && s'.calls[call] == s.calls[call]
    decreases |moves|
  {
    if moves != [] && !HasUid(db.table, uid) && Held(db, uid) {
      var m, rest := moves[0], moves[1..];
      var next := AfterMove(db, m);
      assert forall i | 0 <= i < |rest| :: rest[i] == moves[i + 1];
      if m.tx == call {
        assert db.open - {call} == db.open;
        MovesRun(c, s, next, call, uid, rest);
      } else {
        assert CommitsAreReady(s, db, [m]) by { assert [m][0] == moves[0]; }
        MoveRuns(c, s, db, call, m);
        Next(c, s, MoveEvent(m), MoveSteps(next, call, uid, rest));
        assert m.tx !in next.open;
        MovesRun(c, R.Step(c, s, MoveEvent(m)), next, call, uid, rest);
      }
    }
  }

  lemma StoreIfFree(c: Crypto, s: R.State, db: Db, call: TxId, row: Identity, rnd: Bytes)
    requires InTx(s, db, call, []) && s.calls[call].phase.TxOpen?
    requires EncodeIdentity(c, s.calls[call].id, rnd) == Some(row)
    ensures var s' := R.Step(c, s, R.Store(call, rnd));
            && s'.backend == s.backend && s'.db.table == db.table && s'.db.open - {call} == db.open
            && (Free(db, row.uid) ==>
                  InTx(s', db, call, [row]) && s'.calls[call] == s.calls[call].(phase := R.Stored(row)))
  {
    assert forall t | t in db.open :: t in s.db.open && s.db.open[t] == db.open[t];
    assert s.db.open[call].rows == [] && [] + [row] == [row];
    assert s.db.open - {call} == db.open;
    assert HeldElsewhere(s.db, call, row.uid) ==> Held(db, row.uid);
    assert InsertResult(s.db, call, row.uid) == Inserted <== Free(db, row.uid);
  }

  /** The steps behind a successful insert. */
  lemma StoredCallRuns(c: Crypto, s: R.State, db: Db, call: TxId, row: Identity, k: Conditions)
    requires InTx(s, db, call, [row]) && Free(db, row.uid) && s.calls[call].phase == R.Stored(row)
    requires s.calls[call].id.uid == row.uid && R.KeyOf(c, s.calls[call].id.privateKey) == Some(row.publicKey)
    ensures var out, s' := AfterWait(db, s.backend, row, k), R.Continue(c, s, StepsAfterStore(db, call, row, k));
            s'.db == out.db && s'.backend == out.log
  {
    assert s.db.open - {call} == db.open;
    if !k.requests || k.submit.Rejected? {
      FailEnds(c, s, db, call);
    } else {
      var submit := R.Submit(call, k.submit.Confirmed?);
      var s1 := R.Step(c, s, submit);
      assert s1.backend == s.backend + [R.Accepted(row.uid, row.publicKey)] && s1.db == s.db;
      if !k.submit.Confirmed? {
        Next(c, s, submit, [R.EndTx(call)]);
        EndRestores(c, s1, db, call);
      } else if k.commit.NotCommitted? {
        Next(c, s, submit, [R.Fail(call)] + [R.EndTx(call)]);
        FailEnds(c, s1, db, call);
      } else {
        var commit := R.CommitTx(call, k.commit.Committed?);
        var s2 := R.Step(c, s1, commit);
        Next(c, s, submit, [commit] + [R.EndTx(call)]);
        Next(c, s1, commit, [R.EndTx(call)]);
        assert s2.db.open - {call} == db.open;
        EndRestores(c, s2, db.(table := db.table + [row]), call);
      }
    }
  }

  lemma WaitedCallRuns(c: Crypto, s: R.State, db: Db, call: TxId, row: Identity, k: Conditions)
    requires InTx(s, db, call, []) && s.calls[call].phase.TxOpen? && s.calls[call].id.uid == row.uid
    requires EncodeIdentity(c, s.calls[call].id, k.rnd) == Some(row)
    requires c.publicKeyOf(s.calls[call].id.privateKey) == Some(s.calls[call].id.publicKey)
    ensures var out, s' := AfterWait(db, s.backend, row, k), R.Continue(c, s, StepsAfterWait(db, call, row, k));
            s'.db == out.db && s'.backend == out.log
  {
    var s1 := R.Step(c, s, R.Store(call, k.rnd));
    StoreIfFree(c, s, db, call, row, k.rnd);
    Next(c, s, R.Store(call, k.rnd), StepsAfterStore(db, call, row, k));
    if Free(db, row.uid) {
      StoredCallRuns(c, s1, db, call, row, k);
    } else {
      FailEnds(c, s1, db, call);
    }
  }

  lemma OpenedCallRuns(c: Crypto, s: R.State, db: Db, call: TxId, k: Conditions)
    requires InTx(s, db, call, []) && s.calls[call].phase.TxOpen? && CommitsAreReady(s, db, k.moves)
    requires c.publicKeyOf(s.calls[call].id.privateKey) == Some(s.calls[call].id.publicKey)
    ensures var row, s' := EncodeIdentity(c, s.calls[call].id, k.rnd),
                           R.Continue(c, s, StepsInside(c, db, call, s.calls[call].id, k));
            var out := if row.None? then Outcome(db, s.backend, false) else AfterStart(db, s.backend, row.value, k);
            s'.db == out.db && s'.backend == out.log
  {
    var id := s.calls[call].id;
    var row := EncodeIdentity(c, id, k.rnd);
    if row.None? || !k.store.NoFault? {
      assert s.db.open - {call} == db.open;
      FailEnds(c, s, db, call);
    } else {
      var settled, moves := Settle(db, id.uid, k.moves), MoveSteps(db, call, id.uid, k.moves);
      MovesRun(c, s, db, call, id.uid, k.moves);
      ContinueAppend(c, s, moves, StepsAfterWait(settled, call, row.value, k));
      WaitedCallRuns(c, R.Continue(c, s, moves), settled, call, row.value, k);
    }
  }

  /**
   * What the method does to the database and the backend, under whatever conditions, is what a
   * call of the concurrent model does in any state, when no other call interleaves except while
   * its insert waits, and those that commit then have registered their keys.
   */
  lemma InitIdentityIsARun(c: Crypto, s: R.State, call: TxId, uid: Uuid, auth: Bytes, k: Conditions)
    requires call !in s.calls && call !in s.db.open && CommitsAreReady(s, s.db, k.moves)
    ensures var out := AfterInit(c, s.db, s.backend, uid, auth, k);
            var s' := R.Continue(c, s, CallSteps(c, s.db, call, uid, auth, k));
            s'.db == out.db && s'.backend == out.log
  {
    var id := NewIdentity(c, uid, auth, k);
    if id.Some? {
      var generate := R.Generate(call, uid, auth, k.key.value);
      var s1 := R.Step(c, s, generate);
      if !FaultAfterRetries(k.start, 0).NoFault? {
        Next(c, s, generate, [R.Fail(call)]);
        Last(c, s1, R.Fail(call));
      } else {
        var inside := StepsInside(c, s.db, call, id.value, k);
        Next(c, s, generate, [R.StartTx(call)] + inside);
        Next(c, s1, R.StartTx(call), inside);
        OpenedCallRuns(c, R.Step(c, s1, R.StartTx(call)), s.db, call, k);
      }
    }
  }
}
