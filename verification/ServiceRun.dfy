/** A run of the service from an empty database to an issued object: the safety results are not vacuous. */
module ServiceRun {
  import opened Prelude
  import opened CryptoLib
  import opened Identities
  import opened Database
  import opened Skids
  import opened Cose
  import opened Requests
  import opened Signing
  import opened Service
  import R = Registration
  import Base64

  const KID: Bytes := [1, 2, 3, 4, 5, 6, 7, 8]
  const CERT: Certificate := Certificate(KID, [1])
  const REQUEST: Request := Request([1], CborType, false, false, [7], NotStringMap)

  /** An identity is registered, ... */
  function Registered(): seq<Event>
  {
    [] + [Register(R.Generate(0, R.UID_ONE, [1], [1]))] + [Register(R.StartTx(0))] + [Register(R.Store(0, []))]
    + [Register(R.Submit(0, true))] + [Register(R.CommitTx(0, true))]
  }

  /** ... a certificate for its key is loaded, ... */
  function Loaded(): seq<Event>
  {
    Registered() + [LoadBegin(Some([CERT]))] + [CertProbe] + [CertFetch(0)] + [CertStore] + [LoadEnd]
  }

  /** ... and a request is answered. */
  function Answered(): seq<Event>
  {
    KnownRun() + [Answer(0, [])]
  }

  lemma RunAppend(c: Crypto, max: nat, events: seq<Event>, e: Event)
    ensures Run(c, max, events + [e]) == Step(c, max, Run(c, max, events), e)
  {
    assert (events + [e])[..|events|] == events;
  }

  const REGISTRATION: R.State :=
    R.State(Db([R.FIRST], map[]), [R.Accepted(R.UID_ONE, [1])], map[0 := R.Call(R.FIRST, R.Returned(true))], [R.FIRST])

  const STORED: R.State :=
    R.State(Db([], map[0 := Active([R.FIRST])]), [], map[0 := R.Call(R.FIRST, R.Stored(R.FIRST))], [])

  lemma StoredRuns()
    ensures var c := ExampleLibrary();
            var s1 := R.Step(c, R.INIT, R.Generate(0, R.UID_ONE, [1], [1]));
            R.Step(c, R.Step(c, s1, R.StartTx(0)), R.Store(0, [])) == STORED
  {
    var c := ExampleLibrary();
    var s1 := R.Step(c, R.INIT, R.Generate(0, R.UID_ONE, [1], [1]));
    assert s1 == R.State(Db([], map[]), [], map[0 := R.Call(R.FIRST, R.KeyReady)], []);
    var s2 := R.Step(c, s1, R.StartTx(0));
    assert s2 == R.State(Db([], map[0 := Active([])]), [], map[0 := R.Call(R.FIRST, R.TxOpen)], []);
    R.StoreAlone(s2, 0, R.FIRST);
  }

  lemma CommittedRuns()
    ensures var c := ExampleLibrary();
            R.Step(c, R.Step(c, STORED, R.Submit(0, true)), R.CommitTx(0, true)) == REGISTRATION
  {
    var c := ExampleLibrary();
    var s1 := R.Step(c, STORED, R.Submit(0, true));
    var calls := map[0 := R.Call(R.FIRST, R.Registered(R.FIRST))];
    assert s1 == STORED.(backend := [R.Accepted(R.UID_ONE, [1])], calls := calls);
    var s2 := R.Step(c, s1, R.CommitTx(0, true));
    assert s2.db.table == [R.FIRST];
    assert s2.db.open == map[];
  }

  lemma RegisteredRuns()
    ensures Run(ExampleLibrary(), 3, Registered()) == INIT.(reg := REGISTRATION)
  {
    var c := ExampleLibrary();
    var es := [] + [Register(R.Generate(0, R.UID_ONE, [1], [1]))];
    RunAppend(c, 3, [], Register(R.Generate(0, R.UID_ONE, [1], [1])));
    RunAppend(c, 3, es, Register(R.StartTx(0)));
    es := es + [Register(R.StartTx(0))];
    RunAppend(c, 3, es, Register(R.Store(0, [])));
    es := es + [Register(R.Store(0, []))];
    StoredRuns();
    assert Run(c, 3, es) == INIT.(reg := STORED);
    RunAppend(c, 3, es, Register(R.Submit(0, true)));
    es := es + [Register(R.Submit(0, true))];
    RunAppend(c, 3, es, Register(R.CommitTx(0, true)));
    CommittedRuns();
  }

  const LOAD: Load := Load.Loaded([CERT], [FoundUid(R.UID_ONE)], 1)

  lemma CertificateResolves()
    ensures var c := ExampleLibrary();
            var s := INIT.(reg := REGISTRATION);
            var s1 := Step(c, 3, s, LoadBegin(Some([CERT])));
            Step(c, 3, Step(c, 3, s1, CertProbe), CertFetch(0)) ==
              s.(loader := Loading(false, [CERT], [], map[], KeyFetched([1], R.UID_ONE), 1))
  {
    var c := ExampleLibrary();
    var s := INIT.(reg := REGISTRATION);
    var s1 := Step(c, 3, s, LoadBegin(Some([CERT])));
    assert s1 == s.(loader := Loading(false, [CERT], [], map[], AtCertificate, 1));
    var s2 := Step(c, 3, s1, CertProbe);
    assert s2 == s.(loader := Loading(false, [CERT], [], map[], KeyMissed([1]), 1));
    assert s.reg.db.table[0].publicKey == [1];
  }

  lemma LoadCompletes()
    ensures var c := ExampleLibrary();
            var s := INIT.(reg := REGISTRATION);
            var s3 := s.(loader := Loading(false, [CERT], [], map[], KeyFetched([1], R.UID_ONE), 1));
            Step(c, 3, Step(c, 3, s3, CertStore), LoadEnd) ==
              s.(uidCache := map[Base64.EncodeToString([1]) := R.UID_ONE],
                 lookup := Lookup(map[R.UID_ONE := KID], 0), history := [LOAD])
  {
    var c := ExampleLibrary();
    var s := INIT.(reg := REGISTRATION);
    var s3 := s.(loader := Loading(false, [CERT], [], map[], KeyFetched([1], R.UID_ONE), 1));
    var s4 := Step(c, 3, s3, CertStore);
    assert s4.loader == Loading(false, [CERT], [FoundUid(R.UID_ONE)], map[R.UID_ONE := KID], AtCertificate, 1);
  }

  lemma LoadedRuns()
    ensures Run(ExampleLibrary(), 3, Loaded()) ==
            INIT.(reg := REGISTRATION, uidCache := map[Base64.EncodeToString([1]) := R.UID_ONE],
                  lookup := Lookup(map[R.UID_ONE := KID], 0), history := [LOAD])
  {
    var c := ExampleLibrary();
    RegisteredRuns();
    CertificateResolves();
    LoadCompletes();
    var es := Registered();
    RunAppend(c, 3, es, LoadBegin(Some([CERT])));
    es := es + [LoadBegin(Some([CERT]))];
    RunAppend(c, 3, es, CertProbe);
    es := es + [CertProbe];
    RunAppend(c, 3, es, CertFetch(0));
    es := es + [CertFetch(0)];
    RunAppend(c, 3, es, CertStore);
    es := es + [CertStore];
    RunAppend(c, 3, es, LoadEnd);
  }

  function Waiting(s: State, phase: Phase): State
  {
    s.(requests := map[0 := Pending(R.UID_ONE, REQUEST, 1, phase)])
  }

  lemma RequestArrives(s: State)
    requires s.reg == REGISTRATION && s.identityCache == map[] && s.requests == map[]
    ensures var c := ExampleLibrary();
            Step(c, 3, Step(c, 3, s, Arrive(0, R.UID_ONE, REQUEST)), CacheRead(0)) == Waiting(s, Missed)
  {
    var s1 := Step(ExampleLibrary(), 3, s, Arrive(0, R.UID_ONE, REQUEST));
    assert s1 == Waiting(s, Looking);
  }

  lemma RowIsRead(s: State)
    requires s.reg == REGISTRATION
    ensures Step(ExampleLibrary(), 3, Waiting(s, Missed), TableRead(0, false)) == Waiting(s, Fetched(R.FIRST))
  {
    assert R.UID_ONE[0] != NIL_UUID[0];
    assert DecodeRow(ExampleLibrary(), R.FIRST) == Some(R.FIRST);
    assert FindUid(s.reg.db.table, R.UID_ONE) == Some(R.FIRST);
  }

  lemma CacheIsFilled(s: State)
    ensures Step(ExampleLibrary(), 3, Waiting(s, Fetched(R.FIRST)), CacheWrite(0)) ==
            Waiting(s.(identityCache := s.identityCache[R.UID_ONE := R.FIRST]), Known(R.FIRST))
  {
  }

  /** The registered key's signature of the digest for the payload. */
  function Signature(): Bytes
  {
    LastBytes(GetSigStructBytes([7])) + [1]
  }

  lemma RequestIsHashed()
    ensures PayloadAndHash(ExampleLibrary(), REQUEST) == Some(([7], LastBytes(GetSigStructBytes([7]))))
  {
  }

  lemma RequestIsSigned(s: State)
    requires s.lookup.store == map[R.UID_ONE := KID]
    requires s.requests == map[0 := Pending(R.UID_ONE, REQUEST, 1, Known(R.FIRST))]
    ensures var s' := Step(ExampleLibrary(), 3, s, Answer(0, []));
            && 0 in s'.requests && s'.requests[0].phase.Answered?
            && s'.requests[0].uid == R.UID_ONE && s'.reg == s.reg
            && s'.requests[0].phase.response == Signed(GetCose(KID, [7], Signature()))
  {
    RequestIsHashed();
  }

  function KnownRun(): seq<Event>
  {
    Loaded() + [Arrive(0, R.UID_ONE, REQUEST)] + [CacheRead(0)] + [TableRead(0, false)] + [CacheWrite(0)]
  }

  lemma KnownRuns()
    ensures var s := Run(ExampleLibrary(), 3, KnownRun());
            && s.lookup.store == map[R.UID_ONE := KID]
            && s.requests == map[0 := Pending(R.UID_ONE, REQUEST, 1, Known(R.FIRST))]
            && s.reg == REGISTRATION
  {
    var c := ExampleLibrary();
    LoadedRuns();
    var s := Run(c, 3, Loaded());
    var es1 := Loaded() + [Arrive(0, R.UID_ONE, REQUEST)];
    var es2 := es1 + [CacheRead(0)];
    var es3 := es2 + [TableRead(0, false)];
    RunAppend(c, 3, Loaded(), Arrive(0, R.UID_ONE, REQUEST));
    RunAppend(c, 3, es1, CacheRead(0));
    RunAppend(c, 3, es2, TableRead(0, false));
    RunAppend(c, 3, es3, CacheWrite(0));
    RequestArrives(s);
    RowIsRead(s);
    CacheIsFilled(s);
  }

  /** The object verifies with the registered key, and with no other. */
  lemma ObjectVerifies(key: Bytes)
    ensures Verifies(ExampleLibrary(), key, GetCose(KID, [7], Signature())) <==> key == [1]
  {
    var c := ExampleLibrary();
    var hash := c.sha256(GetSigStructBytes([7]));
    ExampleLibraryIsLawful([1], hash);
    SignedCoseVerifiesIff(c, hash, [1], [1], KID, [7], []);
    assert c.verify(key, hash, Signature()) <==> key == [1];
  }

  /** After these events the service has issued an object that the registered key alone verifies. */
  lemma ObjectIsIssued()
    ensures Lawful(ExampleLibrary())
    ensures var s := Run(ExampleLibrary(), 3, Answered());
            && 0 in s.requests && s.requests[0].uid == R.UID_ONE && s.requests[0].phase.Answered?
            && s.requests[0].phase.response == Signed(GetCose(KID, [7], Signature()))
            && HasUid(s.reg.own, R.UID_ONE)
    ensures forall key :: Verifies(ExampleLibrary(), key, GetCose(KID, [7], Signature())) <==> key == [1]
  {
    var c := ExampleLibrary();
    ExampleLibraryIsLawful([1], c.sha256([]));
    KnownRuns();
    RequestIsSigned(Run(c, 3, KnownRun()));
    RunAppend(c, 3, KnownRun(), Answer(0, []));
    assert REGISTRATION.own[0] == R.FIRST;
    forall key ensures Verifies(c, key, GetCose(KID, [7], Signature())) <==> key == [1] {
      ObjectVerifies(key);
    }
  }
}
