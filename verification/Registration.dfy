/**
 * Many `initIdentity` calls interleaving over one identity table and one backend. Every step may
 * fail; a call that returns early leaves its transaction open until the deferred cancellation of
 * its context rolls it back. Other programs, such as the migration, may commit rows at any time.
 * Events that are not enabled change nothing, so a run is any sequence.
 */
module Registration {
  import opened Prelude
  import opened CryptoLib
  import opened Identities
  import opened Database

  /** A key that the backend has accepted for a uid. */
  datatype Accepted = Accepted(uid: Uuid, publicKey: Bytes)

  datatype Phase =
    | KeyReady
    | TxOpen
    | Stored(row: Identity)       // inserted, not yet registered
    | Registered(row: Identity)   // the backend has confirmed the key
    | Returned(ok: bool)

  datatype Call = Call(id: Identity, phase: Phase)

  /** `own` lists the rows that calls have committed; the table may hold rows of other programs too. */
  datatype State = State(db: Db, backend: seq<Accepted>, calls: map<TxId, Call>, own: seq<Identity>)

  const INIT: State := State(Db([], map[]), [], map[], [])

  datatype Event =
    | Generate(call: TxId, uid: Uuid, auth: Bytes, priv: Bytes)
    | StartTx(call: TxId)
    | Store(call: TxId, rnd: Bytes)
    | Submit(call: TxId, confirmed: bool)    // the backend accepts; its reply may be lost
    | CommitTx(call: TxId, confirmed: bool)  // the commit takes effect; its reply may be lost
    | Fail(call: TxId)                       // the call's next step fails without effect
    | EndTx(call: TxId)                      // rollback by cancellation, or by the database server
    | Foreign(row: Identity)                 // another program commits a row
    | Stop                                   // the process ends, and with it every call

  /** The key that `GetSignedKeyRegistration` puts into the registration. */
  function KeyOf(c: Crypto, priv: Bytes): Option<Bytes>
  {
    var pem :- c.publicKeyOf(priv);
    c.pemToBytes(pem)
  }

  function SetPhase(s: State, call: TxId, phase: Phase): State
    requires call in s.calls
  {
    s.(calls := s.calls[call := s.calls[call].(phase := phase)])
  }

  function Step(c: Crypto, s: State, e: Event): State
  {
    match e
    case Generate(call, uid, auth, priv) =>
      if call in s.calls || call in s.db.open || c.publicKeyOf(priv).None? then s
      else s.(calls := s.calls[call := Call(Identity(uid, priv, c.publicKeyOf(priv).value, auth), KeyReady)])
    case StartTx(call) =>
      if call in s.calls && s.calls[call].phase.KeyReady?
      then SetPhase(s.(db := Begin(s.db, call)), call, TxOpen) else s
    case Store(call, rnd) =>
      if call in s.calls && s.calls[call].phase.TxOpen? then StoreStep(c, s, call, rnd) else s
    case Submit(call, confirmed) =>
      if call in s.calls && s.calls[call].phase.Stored? && KeyOf(c, s.calls[call].id.privateKey).Some? then
        var key := KeyOf(c, s.calls[call].id.privateKey).value;
        SetPhase(s.(backend := s.backend + [Accepted(s.calls[call].id.uid, key)]), call,
                 if confirmed then Registered(s.calls[call].phase.row) else Returned(false))
      else s
    case CommitTx(call, confirmed) =>
      if call in s.calls && s.calls[call].phase.Registered? then
        SetPhase(s.(db := Commit(s.db, call), own := s.own + (if Holds(s, call) then s.db.open[call].rows else [])),
                 call, Returned(confirmed && Holds(s, call)))
      else s
    case Fail(call) =>
      if call in s.calls && !s.calls[call].phase.Returned? then SetPhase(s, call, Returned(false)) else s
    case EndTx(call) => s.(db := Rollback(s.db, call))
    case Foreign(row) => if Free(s.db, row.uid) then s.(db := s.db.(table := s.db.table + [row])) else s
    case Stop => s.(calls := map t | t in s.calls :: s.calls[t].(phase := Returned(false)))
  }

  function StoreStep(c: Crypto, s: State, call: TxId, rnd: Bytes): State
    requires call in s.calls
  {
    match EncodeIdentity(c, s.calls[call].id, rnd)
    case None => SetPhase(s, call, Returned(false))
    case Some(row) =>
      match InsertResult(s.db, call, row.uid)
      case Inserted => SetPhase(s.(db := Insert(s.db, call, row)), call, Stored(row))
      case Refused => SetPhase(s.(db := Insert(s.db, call, row)), call, Returned(false))
      case Waits => s
  }

  /** The call's transaction is still open on the server. */
  predicate Holds(s: State, call: TxId)
  {
    call in s.db.open && s.db.open[call].Active?
  }

  function Run(c: Crypto, events: seq<Event>): State
  {
    if events == [] then INIT else Step(c, Run(c, events[..|events| - 1]), events[|events| - 1])
  }

  /** The events that follow a state. */
  function Continue(c: Crypto, s: State, events: seq<Event>): State
    decreases |events|
  {
    if events == [] then s else Continue(c, Step(c, s, events[0]), events[1..])
  }

  lemma {:induction false} RunContinue(c: Crypto, before: seq<Event>, after: seq<Event>)
    ensures Run(c, before + after) == Continue(c, Run(c, before), after)
    decreases |after|
  {
    if after == [] {
      assert before + after == before;
    } else {
      assert before + after == (before + [after[0]]) + after[1..];
      assert (before + [after[0]])[..|before|] == before;
      RunContinue(c, before + [after[0]], after[1..]);
    }
  }

  // ---------- What every step keeps ----------

  ghost predicate SoundCall(c: Crypto, s: State, call: TxId)
    requires call in s.calls
  {
    var k := s.calls[call];
    && c.publicKeyOf(k.id.privateKey) == Some(k.id.publicKey)
    && (k.phase.KeyReady? ==> call !in s.db.open)
    && (k.phase.TxOpen? && Holds(s, call) ==> s.db.open[call].rows == [])
    && (k.phase.Stored? || k.phase.Registered? ==>
          && k.phase.row.uid == k.id.uid
          && KeyOf(c, k.id.privateKey) == Some(k.phase.row.publicKey)
          && SoundRow(c, k.phase.row)
          && (Holds(s, call) ==> s.db.open[call].rows == [k.phase.row]))
    && (k.phase.Registered? ==> Accepted(k.phase.row.uid, k.phase.row.publicKey) in s.backend)
  }

  /** A row committed by a call is decodable, its keys belong together, and the backend has accepted its key. */
  ghost predicate SoundOwnRow(c: Crypto, s: State, row: Identity)
  {
    row in s.db.table && SoundRow(c, row) && Accepted(row.uid, row.publicKey) in s.backend
  }

  ghost predicate Inv(c: Crypto, s: State)
  {
    && Consistent(s.db)
    && (forall t | t in s.db.open :: t in s.calls)
    && (forall t | t in s.calls :: SoundCall(c, s, t))
    && (forall i | 0 <= i < |s.own| :: SoundOwnRow(c, s, s.own[i]))
  }

  ghost predicate Extends(s: State, s': State)
  {
    && |s.db.table| <= |s'.db.table| && s'.db.table[..|s.db.table|] == s.db.table
    && |s.backend| <= |s'.backend| && s'.backend[..|s.backend|] == s.backend
    && |s.own| <= |s'.own| && s'.own[..|s.own|] == s.own
  }

  lemma StoreKeepsInv(c: Crypto, s: State, call: TxId, rnd: Bytes)
    requires Lawful(c) && Inv(c, s) && call in s.calls && s.calls[call].phase.TxOpen?
    ensures Inv(c, StoreStep(c, s, call, rnd))
  {
    var id := s.calls[call].id;
    if EncodeIdentity(c, id, rnd).Some? {
      var row := EncodeIdentity(c, id, rnd).value;
      StoreThenLoad(c, id, rnd);
      InsertKeepsConsistent(s.db, call, row);
      var s' := StoreStep(c, s, call, rnd);
      StoredCallSound(c, s, call, rnd);
      forall t | t in s'.calls && t != call ensures SoundCall(c, s', t) {
        assert SoundCall(c, s, t);
      }
      forall i | 0 <= i < |s'.own| ensures SoundOwnRow(c, s', s'.own[i]) {
        assert SoundOwnRow(c, s, s.own[i]);
      }
    }
  }

  lemma StoredCallSound(c: Crypto, s: State, call: TxId, rnd: Bytes)
    requires Lawful(c) && Inv(c, s) && call in s.calls && s.calls[call].phase.TxOpen?
    requires EncodeIdentity(c, s.calls[call].id, rnd).Some?
    ensures SoundCall(c, StoreStep(c, s, call, rnd), call)
  {
    assert SoundCall(c, s, call);
    StoreThenLoad(c, s.calls[call].id, rnd);
  }

  lemma CommitKeepsInv(c: Crypto, s: State, call: TxId, confirmed: bool)
    requires Inv(c, s) && call in s.calls && s.calls[call].phase.Registered?
    ensures Inv(c, Step(c, s, CommitTx(call, confirmed)))
  {
    var s' := Step(c, s, CommitTx(call, confirmed));
    CommitKeepsConsistent(s.db, call);
    assert SoundCall(c, s, call);
    forall t | t in s'.calls ensures SoundCall(c, s', t) {
      assert SoundCall(c, s, t);
    }
    forall i | 0 <= i < |s'.own| ensures SoundOwnRow(c, s', s'.own[i]) {
      if i < |s.own| {
        assert SoundOwnRow(c, s, s.own[i]);
      }
    }
  }

  lemma SubmitKeepsInv(c: Crypto, s: State, call: TxId, confirmed: bool)
    requires Inv(c, s)
    ensures Inv(c, Step(c, s, Submit(call, confirmed)))
  {
    var s' := Step(c, s, Submit(call, confirmed));
    forall t | t in s'.calls ensures SoundCall(c, s', t) {
      assert SoundCall(c, s, t);
    }
    forall i | 0 <= i < |s'.own| ensures SoundOwnRow(c, s', s'.own[i]) {
      assert SoundOwnRow(c, s, s.own[i]);
    }
  }

  lemma StepExtends(c: Crypto, s: State, e: Event)
    ensures Extends(s, Step(c, s, e))
  {
  }

  lemma StepKeepsInv(c: Crypto, s: State, e: Event)
    requires Lawful(c) && Inv(c, s)
    ensures Inv(c, Step(c, s, e)) && Extends(s, Step(c, s, e))
  {
    StepExtends(c, s, e);
    match e
    case Store(call, rnd) =>
      if call in s.calls && s.calls[call].phase.TxOpen? {
        StoreKeepsInv(c, s, call, rnd);
      }
    case CommitTx(call, confirmed) =>
      if call in s.calls && s.calls[call].phase.Registered? {
        CommitKeepsInv(c, s, call, confirmed);
      }
    case Submit(call, confirmed) => SubmitKeepsInv(c, s, call, confirmed);
    case Foreign(row) => ForeignKeepsInv(c, s, row);
    case Stop => StopKeepsInv(c, s);
    case _ => LocalStepKeepsInv(c, s, e);
  }

  lemma ForeignKeepsInv(c: Crypto, s: State, row: Identity)
    requires Inv(c, s)
    ensures Inv(c, Step(c, s, Foreign(row)))
  {
    var s' := Step(c, s, Foreign(row));
    forall t | t in s'.calls ensures SoundCall(c, s', t) {
      assert SoundCall(c, s, t);
    }
    forall i | 0 <= i < |s'.own| ensures SoundOwnRow(c, s', s'.own[i]) {
      assert SoundOwnRow(c, s, s.own[i]);
    }
  }

  lemma StopKeepsInv(c: Crypto, s: State)
    requires Inv(c, s)
    ensures Inv(c, Step(c, s, Stop))
  {
    var s' := Step(c, s, Stop);
    forall t | t in s'.calls ensures SoundCall(c, s', t) {
      assert SoundCall(c, s, t);
    }
    forall i | 0 <= i < |s'.own| ensures SoundOwnRow(c, s', s'.own[i]) {
      assert SoundOwnRow(c, s, s.own[i]);
    }
  }

  lemma LocalStepKeepsInv(c: Crypto, s: State, e: Event)
    requires Inv(c, s) && (e.Generate? || e.StartTx? || e.Fail? || e.EndTx?)
    ensures Inv(c, Step(c, s, e))
  {
    var s' := Step(c, s, e);
    assert s'.db.table == s.db.table && s'.backend == s.backend && s'.own == s.own;
    forall t | t in s'.calls ensures SoundCall(c, s', t) {
      if t in s.calls { assert SoundCall(c, s, t); }
    }
    forall i | 0 <= i < |s'.own| ensures SoundOwnRow(c, s', s'.own[i]) {
      assert SoundOwnRow(c, s, s.own[i]);
    }
  }

  lemma {:induction false} RunInv(c: Crypto, events: seq<Event>)
    requires Lawful(c)
    ensures Inv(c, Run(c, events))
  {
    if events != [] {
      RunInv(c, events[..|events| - 1]);
      StepKeepsInv(c, Run(c, events[..|events| - 1]), events[|events| - 1]);
    }
  }

  lemma PrefixTrans<T>(a: seq<T>, b: seq<T>, d: seq<T>)
    requires |a| <= |b| <= |d| && b[..|a|] == a && d[..|b|] == b
    ensures d[..|a|] == a
  {
    assert d[..|a|] == d[..|b|][..|a|];
  }

  lemma ExtendsTrans(s: State, s': State, s'': State)
    requires Extends(s, s') && Extends(s', s'')
    ensures Extends(s, s'')
  {
    PrefixTrans(s.db.table, s'.db.table, s''.db.table);
    PrefixTrans(s.backend, s'.backend, s''.backend);
    PrefixTrans(s.own, s'.own, s''.own);
  }

  lemma {:induction false} RunExtends(c: Crypto, before: seq<Event>, after: seq<Event>)
    requires Lawful(c)
    ensures Extends(Run(c, before), Run(c, before + after))
  {
    if after == [] {
      assert before + after == before;
    } else {
      var events := before + after;
      var init := after[..|after| - 1];
      assert events[..|events| - 1] == before + init;
      RunExtends(c, before, init);
      RunInv(c, before + init);
      StepKeepsInv(c, Run(c, before + init), after[|after| - 1]);
      ExtendsTrans(Run(c, before), Run(c, before + init), Run(c, events));
    }
  }

  /** The row that a call has committed for a uid is the one the table holds for it. */
  lemma OwnRowIsSound(c: Crypto, s: State, uid: Uuid)
    requires Inv(c, s) && HasUid(s.own, uid)
    ensures var row := FindUid(s.db.table, uid);
            row.Some? && SoundRow(c, row.value) && Accepted(uid, row.value.publicKey) in s.backend
  {
    var i :| 0 <= i < |s.own| && s.own[i].uid == uid;
    assert SoundOwnRow(c, s, s.own[i]);
    var j :| 0 <= j < |s.db.table| && s.db.table[j] == s.own[i];
    assert HasUid(s.db.table, uid);
    UniqueRow(s.db.table, s.own[i], FindUid(s.db.table, uid).value);
  }

  lemma TableRowsStay(c: Crypto, before: seq<Event>, after: seq<Event>, row: Identity)
    requires Lawful(c) && row in Run(c, before).db.table
    ensures FindUid(Run(c, before + after).db.table, row.uid) == Some(row)
  {
    RunInv(c, before + after);
    RunExtends(c, before, after);
    var s, s' := Run(c, before), Run(c, before + after);
    var i :| 0 <= i < |s.db.table| && s.db.table[i] == row;
    assert s'.db.table[i] == s'.db.table[..|s.db.table|][i] == row;
    assert HasUid(s'.db.table, row.uid);
    UniqueRow(s'.db.table, row, FindUid(s'.db.table, row.uid).value);
  }

  /**
   * Under every interleaving and every failure: at most one row per uid is ever committed, it is
   * never changed or removed, and if a call committed it, the backend had accepted its key by then.
   */
  lemma CommittedRowsAreUniqueAcceptedAndFinal(c: Crypto, before: seq<Event>, after: seq<Event>)
    requires Lawful(c)
    ensures var s, s' := Run(c, before), Run(c, before + after);
            && DistinctUids(s'.db.table)
            && (forall row | row in s.db.table :: FindUid(s'.db.table, row.uid) == Some(row))
            && (forall row | row in s.own :: row in s.db.table && Accepted(row.uid, row.publicKey) in s.backend)
  {
    RunInv(c, before);
    RunInv(c, before + after);
    var s, s' := Run(c, before), Run(c, before + after);
    forall row | row in s.db.table ensures FindUid(s'.db.table, row.uid) == Some(row) {
      TableRowsStay(c, before, after, row);
    }
    forall row | row in s.own ensures row in s.db.table && Accepted(row.uid, row.publicKey) in s.backend {
      var i :| 0 <= i < |s.own| && s.own[i] == row;
      assert SoundOwnRow(c, s, s.own[i]);
    }
  }

  // ---------- Which key the backend holds ----------

  /** The key the backend accepted last for `uid`. */
  function LastAccepted(log: seq<Accepted>, uid: Uuid): Option<Bytes>
  {
    if log == [] then None
    else if log[|log| - 1].uid == uid then Some(log[|log| - 1].publicKey)
    else LastAccepted(log[..|log| - 1], uid)
  }

  /** The key accepted last for the uid of every row that a call committed is the committed one. */
  ghost predicate Agreement(s: State)
  {
    forall i | 0 <= i < |s.own| :: LastAccepted(s.backend, s.own[i].uid) == Some(s.own[i].publicKey)
  }

  /** Agreement now, and after whichever commit comes next. */
  ghost predicate Robust(c: Crypto, s: State)
  {
    Agreement(s) && forall t :: Agreement(Step(c, s, CommitTx(t, true)))
  }

  /** The call is about to commit a row. */
  predicate Committing(s: State, t: TxId)
  {
    t in s.calls && s.calls[t].phase.Registered? && Holds(s, t)
  }

  ghost predicate PendingAgreement(s: State)
  {
    forall t | Committing(s, t) ::
      LastAccepted(s.backend, s.calls[t].phase.row.uid) == Some(s.calls[t].phase.row.publicKey)
  }

  lemma CommitAppends(c: Crypto, s: State, t: TxId, confirmed: bool)
    requires Inv(c, s)
    ensures var s' := Step(c, s, CommitTx(t, confirmed));
            && s'.backend == s.backend
            && s'.own == if Committing(s, t) then s.own + [s.calls[t].phase.row] else s.own
  {
    if t in s.calls { assert SoundCall(c, s, t); }
  }

  lemma RobustIff(c: Crypto, s: State)
    requires Inv(c, s)
    ensures Robust(c, s) <==> Agreement(s) && PendingAgreement(s)
  {
    forall t ensures Agreement(s) ==>
        (Agreement(Step(c, s, CommitTx(t, true))) <==>
         (Committing(s, t) ==>
            LastAccepted(s.backend, s.calls[t].phase.row.uid) == Some(s.calls[t].phase.row.publicKey)))
    {
      CommitAppends(c, s, t, true);
      if Agreement(s) && Committing(s, t) { AgreementWith(s, Step(c, s, CommitTx(t, true)), s.calls[t].phase.row); }
    }
  }

  lemma AgreementWith(s: State, s': State, row: Identity)
    requires Agreement(s) && s'.backend == s.backend && s'.own == s.own + [row]
    ensures Agreement(s') <==> LastAccepted(s.backend, row.uid) == Some(row.publicKey)
  {
    assert s'.own[|s.own|] == row;
  }

  /**
   * The event does not make the backend accept a key for a uid under which another key is
   * committed, or about to be committed, by a call.
   */
  ghost predicate Harmless(s: State, e: Event)
  {
    e.Submit? && e.call in s.calls && s.calls[e.call].phase.Stored? ==>
      var row := s.calls[e.call].phase.row;
      && (forall i | 0 <= i < |s.own| && s.own[i].uid == row.uid :: s.own[i].publicKey == row.publicKey)
      && (forall t | Committing(s, t) && s.calls[t].phase.row.uid == row.uid ::
            s.calls[t].phase.row.publicKey == row.publicKey)
  }

  /** The event does not submit a key whose transaction the server has already ended. */
  predicate Timely(s: State, e: Event)
  {
    e.Submit? && e.call in s.calls && s.calls[e.call].phase.Stored? ==> Holds(s, e.call)
  }

  lemma SubmitLogs(c: Crypto, s: State, call: TxId, confirmed: bool)
    requires Inv(c, s) && call in s.calls && s.calls[call].phase.Stored?
    ensures var row, s' := s.calls[call].phase.row, Step(c, s, Submit(call, confirmed));
            && s'.backend == s.backend + [Accepted(row.uid, row.publicKey)]
            && s'.db == s.db && s'.own == s.own
            && forall u :: LastAccepted(s'.backend, u) ==
                 if u == row.uid then Some(row.publicKey) else LastAccepted(s.backend, u)
  {
    assert SoundCall(c, s, call);
    var row := s.calls[call].phase.row;
    assert (s.backend + [Accepted(row.uid, row.publicKey)])[..|s.backend|] == s.backend;
  }

  lemma SubmitPending(c: Crypto, s: State, call: TxId, confirmed: bool)
    requires Inv(c, s) && call in s.calls && s.calls[call].phase.Stored?
    ensures var s' := Step(c, s, Submit(call, confirmed));
            forall t | t != call :: (Committing(s', t) <==> Committing(s, t))
                                    && (Committing(s, t) ==> s'.calls[t] == s.calls[t])
    ensures var s' := Step(c, s, Submit(call, confirmed));
            Committing(s', call) ==> s'.calls[call].phase.row == s.calls[call].phase.row
  {
    SubmitLogs(c, s, call, confirmed);
  }

  /**
   * Exactly when a submission endangers the agreement: the agreement survives it, and survives
   * whichever commit comes next, if and only if no call has committed or is about to commit another
   * key for the uid. Otherwise it is broken at once or by one commit.
   */
  lemma LateSubmitBreaksIff(c: Crypto, s: State, call: TxId, confirmed: bool)
    requires Inv(c, s) && Robust(c, s) && call in s.calls && s.calls[call].phase.Stored?
    ensures Robust(c, Step(c, s, Submit(call, confirmed))) <==> Harmless(s, Submit(call, confirmed))
  {
    var s', row := Step(c, s, Submit(call, confirmed)), s.calls[call].phase.row;
    SubmitKeepsInv(c, s, call, confirmed);
    RobustIff(c, s);
    RobustIff(c, s');
    SubmitLogs(c, s, call, confirmed);
    SubmitPending(c, s, call, confirmed);
    if Harmless(s, Submit(call, confirmed)) {
      forall t | Committing(s', t)
        ensures LastAccepted(s'.backend, s'.calls[t].phase.row.uid) == Some(s'.calls[t].phase.row.publicKey)
      {
        assert t != call ==> Committing(s, t);
      }
    }
    if PendingAgreement(s') {
      forall t | Committing(s, t) && s.calls[t].phase.row.uid == row.uid
        ensures s.calls[t].phase.row.publicKey == row.publicKey
      {
        assert Committing(s', t);
      }
    }
  }

  /** Only a submission makes a call ready to commit, so no other step adds one. */
  lemma QuietStepPending(c: Crypto, s: State, e: Event, t: TxId)
    requires Inv(c, s) && !e.Submit? && Committing(Step(c, s, e), t)
    ensures Committing(s, t) && Step(c, s, e).calls[t] == s.calls[t]
  {
    if t in s.calls { assert SoundCall(c, s, t); }
  }

  lemma QuietStepLogs(c: Crypto, s: State, e: Event)
    requires Inv(c, s) && !e.Submit?
    ensures Step(c, s, e).backend == s.backend
    ensures e.CommitTx? || Step(c, s, e).own == s.own
  {
  }

  /** Every other step keeps the agreement. */
  lemma QuietStepRobust(c: Crypto, s: State, e: Event)
    requires Inv(c, s) && Robust(c, s) && !e.Submit?
    requires Inv(c, Step(c, s, e))
    ensures Robust(c, Step(c, s, e))
  {
    var s' := Step(c, s, e);
    RobustIff(c, s);
    RobustIff(c, s');
    QuietStepLogs(c, s, e);
    if e.CommitTx? {
      CommitAppends(c, s, e.call, e.confirmed);
      assert s'.own == s.own || s'.own[..|s.own|] == s.own;
    }
    forall t | Committing(s', t)
      ensures LastAccepted(s'.backend, s'.calls[t].phase.row.uid) == Some(s'.calls[t].phase.row.publicKey)
    {
      QuietStepPending(c, s, e, t);
    }
  }

  ghost predicate HarmlessRun(c: Crypto, events: seq<Event>)
  {
    events != [] ==>
      var init := events[..|events| - 1];
      HarmlessRun(c, init) && Harmless(Run(c, init), events[|events| - 1])
  }

  /** The agreement holds robustly at every point of the run. */
  ghost predicate RobustRun(c: Crypto, events: seq<Event>)
  {
    Robust(c, Run(c, events)) && (events != [] ==> RobustRun(c, events[..|events| - 1]))
  }

  lemma StepRobustIff(c: Crypto, s: State, e: Event)
    requires Inv(c, s) && Robust(c, s) && Inv(c, Step(c, s, e))
    ensures Robust(c, Step(c, s, e)) <==> Harmless(s, e)
  {
    if !e.Submit? {
      QuietStepRobust(c, s, e);
    } else if e.call in s.calls && s.calls[e.call].phase.Stored? {
      LateSubmitBreaksIff(c, s, e.call, e.confirmed);
    }
  }

  /**
   * Over whole runs: the key the backend accepted last is the committed one at every point, and
   * after every commit possible at that point, if and only if every submission is harmless.
   */
  lemma {:induction false} AgreementHoldsIff(c: Crypto, events: seq<Event>)
    requires Lawful(c)
    ensures RobustRun(c, events) <==> HarmlessRun(c, events)
  {
    if events != [] {
      var init, e := events[..|events| - 1], events[|events| - 1];
      AgreementHoldsIff(c, init);
      RunInv(c, init);
      RunInv(c, events);
      if RobustRun(c, init) {
        StepRobustIff(c, Run(c, init), e);
      }
    }
  }

  ghost predicate TimelyRun(c: Crypto, events: seq<Event>)
  {
    events != [] ==>
      var init := events[..|events| - 1];
      TimelyRun(c, init) && Timely(Run(c, init), events[|events| - 1])
  }

  /** While a call's transaction is open its uid is its own, so a timely submission is harmless. */
  lemma TimelyIsHarmless(c: Crypto, s: State, e: Event)
    requires Inv(c, s) && Timely(s, e)
    ensures Harmless(s, e)
  {
    if e.Submit? && e.call in s.calls && s.calls[e.call].phase.Stored? {
      var row := s.calls[e.call].phase.row;
      assert SoundCall(c, s, e.call);
      assert s.db.open[e.call].rows[0] == row;
      forall t | Committing(s, t) ensures s.calls[t].phase.row.uid != row.uid {
        assert SoundCall(c, s, t);
        assert s.db.open[t].rows[0] == s.calls[t].phase.row;
      }
      forall i | 0 <= i < |s.own| ensures s.own[i].uid != row.uid {
        assert SoundOwnRow(c, s, s.own[i]);
      }
    }
  }

  /** In runs without late submissions the key accepted last is the committed one, at every point. */
  lemma {:induction false} TimelyRunAgrees(c: Crypto, events: seq<Event>)
    requires Lawful(c) && TimelyRun(c, events)
    ensures HarmlessRun(c, events) && RobustRun(c, events) && Agreement(Run(c, events))
  {
    if events != [] {
      var init := events[..|events| - 1];
      TimelyRunAgrees(c, init);
      RunInv(c, init);
      TimelyIsHarmless(c, Run(c, init), events[|events| - 1]);
    }
    AgreementHoldsIff(c, events);
  }

  /** What a step adds to the backend's log. */
  lemma StepLogs(c: Crypto, s: State, e: Event)
    requires Inv(c, s)
    ensures var log := Step(c, s, e).backend;
            log == s.backend ||
            (&& e.Submit? && e.call in s.calls && s.calls[e.call].phase.Stored?
             && log == s.backend + [Accepted(s.calls[e.call].phase.row.uid, s.calls[e.call].phase.row.publicKey)])
  {
    if e.Submit? && e.call in s.calls && s.calls[e.call].phase.Stored? {
      SubmitLogs(c, s, e.call, e.confirmed);
    }
  }

  lemma OwnRowStays(c: Crypto, before: seq<Event>, after: seq<Event>, row: Identity)
    requires Lawful(c) && row in Run(c, before).own
    ensures row in Run(c, before + after).own
    ensures |Run(c, before).backend| <= |Run(c, before + after).backend|
  {
    RunExtends(c, before, after);
    assert row in Run(c, before + after).own[..|Run(c, before).own|];
  }

  lemma TakeLast(c: Crypto, before: seq<Event>, after: seq<Event>)
    requires after != []
    ensures var init, e := after[..|after| - 1], after[|after| - 1];
            && Run(c, before + after) == Step(c, Run(c, before + init), e)
            && (HarmlessRun(c, before + after) ==>
                  HarmlessRun(c, before + init) && Harmless(Run(c, before + init), e))
            && (TimelyRun(c, before + after) ==>
                  TimelyRun(c, before + init) && Timely(Run(c, before + init), e))
  {
    SplitLastEvent(before, after);
  }

  lemma SplitLastEvent(before: seq<Event>, after: seq<Event>)
    requires after != []
    ensures var events := before + after;
            && events != [] && events[|events| - 1] == after[|after| - 1]
            && events[..|events| - 1] == before + after[..|after| - 1]
  {
  }

  /** In a harmless run the backend accepts no other key for a uid once a call has committed its row. */
  lemma {:induction false} NoOtherKeyAfterCommit(c: Crypto, before: seq<Event>, after: seq<Event>, row: Identity,
                                                 i: nat)
    requires Lawful(c) && HarmlessRun(c, before + after)
    requires row in Run(c, before).own
    requires |Run(c, before).backend| <= i < |Run(c, before + after).backend|
    ensures var accepted := Run(c, before + after).backend[i];
            accepted.uid == row.uid ==> accepted.publicKey == row.publicKey
  {
    assert after == [] ==> before + after == before;
    if after != [] {
      var init, e := after[..|after| - 1], after[|after| - 1];
      TakeLast(c, before, after);
      OwnRowStays(c, before, init, row);
      RunInv(c, before + init);
      var s := Run(c, before + init);
      StepLogs(c, s, e);
      if i < |s.backend| {
        NoOtherKeyAfterCommit(c, before, init, row, i);
      } else {
        var j :| 0 <= j < |s.own| && s.own[j] == row;
      }
    }
  }

  /** In a timely run the backend accepts nothing more for a uid once a call has committed its row. */
  lemma {:induction false} NoKeyAfterCommit(c: Crypto, before: seq<Event>, after: seq<Event>, row: Identity, i: nat)
    requires Lawful(c) && TimelyRun(c, before + after)
    requires row in Run(c, before).own
    requires |Run(c, before).backend| <= i < |Run(c, before + after).backend|
    ensures Run(c, before + after).backend[i].uid != row.uid
  {
    assert after == [] ==> before + after == before;
    if after != [] {
      var init, e := after[..|after| - 1], after[|after| - 1];
      TakeLast(c, before, after);
      OwnRowStays(c, before, init, row);
      RunInv(c, before + init);
      var s := Run(c, before + init);
      StepLogs(c, s, e);
      if i < |s.backend| {
        NoKeyAfterCommit(c, before, init, row, i);
      } else {
        HoldersUidIsNotOwn(c, s, e.call, row);
      }
    }
  }

  lemma HoldersUidIsNotOwn(c: Crypto, s: State, call: TxId, row: Identity)
    requires Inv(c, s) && call in s.calls && s.calls[call].phase.Stored? && Holds(s, call) && row in s.own
    ensures s.calls[call].phase.row.uid != row.uid
  {
    assert SoundCall(c, s, call);
    assert s.db.open[call].rows[0] == s.calls[call].phase.row;
    var j :| 0 <= j < |s.own| && s.own[j] == row;
    assert SoundOwnRow(c, s, s.own[j]);
  }

  lemma RunAppend(c: Crypto, events: seq<Event>, e: Event)
    ensures Run(c, events + [e]) == Step(c, Run(c, events), e)
  {
    assert (events + [e])[..|events|] == events;
  }

  // ---------- Two runs that are not harmless ----------

  const UID_ONE: Uuid := [1, 1, 1, 1, 1, 1, 1, 1, 1, 1, 1, 1, 1, 1, 1, 1]
  const FIRST: Identity := Identity(UID_ONE, [1], [1], [1])
  const SECOND: Identity := Identity(UID_ONE, [2], [2], [1])

  /** The first call's connection is lost after its insert. */
  function LostCall(): seq<Event>
  {
    [] + [Generate(0, UID_ONE, [1], [1])] + [StartTx(0)] + [Store(0, [])] + [EndTx(0)]
  }

  /** A second call stores another key for the same uid, registers it and commits. */
  function OtherStore(): seq<Event>
  {
    LostCall() + [Generate(1, UID_ONE, [1], [2])] + [StartTx(1)] + [Store(1, [])]
  }

  function OtherCall(): seq<Event>
  {
    OtherStore() + [Submit(1, true)] + [CommitTx(1, true)]
  }

  lemma StoreAlone(s: State, call: TxId, row: Identity)
    requires row == FIRST || row == SECOND
    requires s.db == Db([], map[call := Active([])]) && call in s.calls && s.calls[call].id == row
    ensures StoreStep(ExampleLibrary(), s, call, []) ==
            SetPhase(s.(db := Db([], map[call := Active([row])])), call, Stored(row))
  {
    assert UID_ONE[0] != NIL_UUID[0];
    assert EncodeIdentity(ExampleLibrary(), row, []) == Some(row);
    assert InsertResult(s.db, call, row.uid) == Inserted;
    assert Insert(s.db, call, row).open[call].rows == [row];
    assert Insert(s.db, call, row).open == map[call := Active([row])];
  }

  lemma LostCallRuns()
    ensures Run(ExampleLibrary(), LostCall()) == State(Db([], map[]), [], map[0 := Call(FIRST, Stored(FIRST))], [])
  {
    var c := ExampleLibrary();
    var es := [] + [Generate(0, UID_ONE, [1], [1])];
    RunAppend(c, [], Generate(0, UID_ONE, [1], [1]));
    assert Run(c, es) == State(Db([], map[]), [], map[0 := Call(FIRST, KeyReady)], []);
    RunAppend(c, es, StartTx(0));
    es := es + [StartTx(0)];
    assert Run(c, es) == State(Db([], map[0 := Active([])]), [], map[0 := Call(FIRST, TxOpen)], []);
    RunAppend(c, es, Store(0, []));
    StoreAlone(Run(c, es), 0, FIRST);
    es := es + [Store(0, [])];
    assert Run(c, es) == State(Db([], map[0 := Active([FIRST])]), [], map[0 := Call(FIRST, Stored(FIRST))], []);
    RunAppend(c, es, EndTx(0));
  }

  lemma OtherStoreRuns()
    ensures Run(ExampleLibrary(), OtherStore()) ==
            State(Db([], map[1 := Active([SECOND])]), [],
                  map[0 := Call(FIRST, Stored(FIRST)), 1 := Call(SECOND, Stored(SECOND))], [])
  {
    var c := ExampleLibrary();
    LostCallRuns();
    var calls := map[0 := Call(FIRST, Stored(FIRST))];
    var es := LostCall() + [Generate(1, UID_ONE, [1], [2])];
    RunAppend(c, LostCall(), Generate(1, UID_ONE, [1], [2]));
    assert Run(c, es) == State(Db([], map[]), [], calls[1 := Call(SECOND, KeyReady)], []);
    RunAppend(c, es, StartTx(1));
    es := es + [StartTx(1)];
    assert Run(c, es) == State(Db([], map[1 := Active([])]), [], calls[1 := Call(SECOND, TxOpen)], []);
    RunAppend(c, es, Store(1, []));
    StoreAlone(Run(c, es), 1, SECOND);
  }

  lemma OtherCallRuns()
    ensures var s := Run(ExampleLibrary(), OtherCall());
            && s.own == [SECOND] && s.backend == [Accepted(UID_ONE, [2])]
            && 0 in s.calls && s.calls[0] == Call(FIRST, Stored(FIRST))
  {
    var c := ExampleLibrary();
    OtherStoreRuns();
    RunAppend(c, OtherStore(), Submit(1, true));
    var es := OtherStore() + [Submit(1, true)];
    assert Run(c, es).backend == [Accepted(UID_ONE, [2])];
    RunAppend(c, es, CommitTx(1, true));
  }

  /** A run in which the backend ends up with another key than the committed one. */
  lemma LateSubmitHappens()
    ensures Lawful(ExampleLibrary())
    ensures !Agreement(Run(ExampleLibrary(), OtherCall() + [Submit(0, true)]))
  {
    var c := ExampleLibrary();
    ExampleLibraryIsLawful([1], UID_ONE + UID_ONE);
    OtherCallRuns();
    RunAppend(c, OtherCall(), Submit(0, true));
    var s := Run(c, OtherCall() + [Submit(0, true)]);
    assert s.backend == [Accepted(UID_ONE, [2]), Accepted(UID_ONE, [1])];
    assert s.own[0] == SECOND;
  }

  /** The second call has registered its key but not committed yet when the first one submits. */
  function LateBeforeCommit(): seq<Event>
  {
    OtherStore() + [Submit(1, true)] + [Submit(0, true)]
  }

  lemma LateBeforeCommitRuns()
    ensures var s := Run(ExampleLibrary(), LateBeforeCommit());
            && s.own == [] && s.backend == [Accepted(UID_ONE, [2]), Accepted(UID_ONE, [1])]
            && s.db.open == map[1 := Active([SECOND])]
            && 1 in s.calls && s.calls[1] == Call(SECOND, Registered(SECOND))
  {
    var c := ExampleLibrary();
    OtherStoreRuns();
    RunAppend(c, OtherStore(), Submit(1, true));
    var es := OtherStore() + [Submit(1, true)];
    assert Run(c, es).backend == [Accepted(UID_ONE, [2])] && Run(c, es).own == [];
    RunAppend(c, es, Submit(0, true));
  }

  /** The agreement still holds after the late submission, and is broken by the commit that follows. */
  lemma LateSubmitBeforeCommit()
    ensures var c := ExampleLibrary();
            && Agreement(Run(c, LateBeforeCommit()))
            && !Agreement(Run(c, LateBeforeCommit() + [CommitTx(1, true)]))
  {
    var c := ExampleLibrary();
    LateBeforeCommitRuns();
    RunAppend(c, LateBeforeCommit(), CommitTx(1, true));
    assert Run(c, LateBeforeCommit() + [CommitTx(1, true)]).own[0] == SECOND;
  }
}
