/** Answering one signing request. */
module Signing {
  import opened Prelude
  import opened CryptoLib
  import opened Identities
  import opened Database
  import opened DatabaseAccess
  import opened Caches
  import opened Skids
  import opened Cose
  import opened Requests
  import opened ProtocolObject

  datatype Response = Signed(cose: Bytes) | HttpError(status: nat)

  /** The answer to a request, given what the identity lookup and the SKID lookup yield. */
  function Respond(c: Crypto, lookup: Result<Identity, DbError>, r: Request, skid: Option<Bytes>, rnd: Bytes): Response
  {
    match lookup
    case Err(NotExist) => HttpError(404)
    case Err(_) => HttpError(500)
    case Ok(id) =>
      if r.authToken != id.authToken then HttpError(401)
      else if PayloadAndHash(c, r).None? then HttpError(400)
      else if skid.None? then HttpError(400)
      else
        var (payload, hash) := PayloadAndHash(c, r).value;
        match CreateSignedCose(c, hash, id.privateKey, skid.value, payload, rnd)
        case None => HttpError(500)
        case Some(cose) => Signed(cose)
  }

  /**
   * What is answered, for every lookup result, request and SKID: an object is signed exactly when
   * the token is the identity's, the request asks for something and there is a SKID; it holds the
   * payload asked for and the signature of the hash asked for. Every refusal has its own status.
   */
  lemma RespondIff(c: Crypto, lookup: Result<Identity, DbError>, r: Request, skid: Option<Bytes>, rnd: Bytes)
    ensures var resp := Respond(c, lookup, r, skid, rnd);
            var granted := lookup.Ok? && r.authToken == lookup.value.authToken;
            && (resp == HttpError(404) <==> lookup == Err(NotExist))
            && (resp == HttpError(401) <==> lookup.Ok? && !granted)
            && (resp == HttpError(400) <==> granted && (skid.None? || !exists p, h :: Asks(c, r, p, h)))
            && (lookup.Err? && lookup.error != NotExist ==> resp == HttpError(500))
            && forall p, h | granted && skid.Some? && Asks(c, r, p, h) ::
                 resp == match c.sign(lookup.value.privateKey, h, rnd)
                         case Some(signature) => Signed(GetCose(skid.value, p, signature))
                         case None => HttpError(500)
  {
    var m := PayloadAndHash(c, r);
    forall p, h ensures Asks(c, r, p, h) <==> m == Some((p, h)) {
      PayloadAndHashIff(c, r, p, h);
    }
    if m.Some? { assert Asks(c, r, m.value.0, m.value.1); }
  }

  class COSEService {
    const protocol: Protocol

    constructor (protocol: Protocol)
      ensures this.protocol == protocol
    {
      this.protocol := protocol;
    }

    method Sign(uid: Uuid, hash: Sha256Sum, payload: Bytes, priv: Bytes, rnd: Bytes) returns (resp: Response)
      ensures resp.Signed? <==> uid in protocol.skidStore && protocol.c.sign(priv, hash, rnd).Some?
      ensures resp.Signed? ==>
                resp.cose == GetCose(protocol.skidStore[uid], payload, protocol.c.sign(priv, hash, rnd).value)
      ensures resp.HttpError? ==> resp.status == if uid in protocol.skidStore then 500 else 400
    {
      var skid := protocol.GetSKID(uid);
      if skid.None? { return HttpError(400); }
      var cose := CreateSignedCose(protocol.c, hash, priv, skid.value, payload, rnd);
      resp := if cose.None? then HttpError(500) else Signed(cose.value);
    }

    method HandleRequest(uid: Uuid, r: Request, faults: nat -> Fault, rnd: Bytes) returns (resp: Response)
      requires protocol.Valid()
      modifies protocol`identityCache
      ensures protocol.Valid()
      ensures var id := LookupIdentity(protocol.c, protocol.ctxManager.table, old(protocol.identityCache), uid,
                                       FaultAfterRetries(faults, 0));
              && resp == Respond(protocol.c, id, r, Find(protocol.skidStore, uid), rnd)
              && protocol.identityCache == CacheAnswer(old(protocol.identityCache), uid, id)
      ensures resp.Signed? ==>
                && uid in protocol.identityCache
                && IsStored(protocol.c, protocol.ctxManager.table, uid, protocol.identityCache[uid])
      ensures var c, skids, working := protocol.c, protocol.skidStore, FaultAfterRetries(faults, 0).NoFault?;
              var row := FindUid(protocol.ctxManager.table, uid);
              var id := if row.Some? && (uid in old(protocol.identityCache) || working)
                        then DecodeRow(c, row.value) else None;
              var granted := id.Some? && r.authToken == id.value.authToken;
              && (resp == HttpError(404) <==> working && row.None?)
              && (id.None? && !(working && row.None?) ==> resp == HttpError(500))
              && (resp == HttpError(401) <==> id.Some? && !granted)
              && (resp == HttpError(400) <==> granted && (uid !in skids || !exists p, h :: Asks(c, r, p, h)))
              && forall p, h | granted && uid in skids && Asks(c, r, p, h) ::
                   resp == match c.sign(id.value.privateKey, h, rnd)
                           case Some(signature) => Signed(GetCose(skids[uid], p, signature))
                           case None => HttpError(500)
    {
      LookupIsTheRow(protocol.c, protocol.ctxManager.table, protocol.identityCache, uid, FaultAfterRetries(faults, 0));
      RespondIff(protocol.c, LookupIdentity(protocol.c, protocol.ctxManager.table, protocol.identityCache, uid,
                                            FaultAfterRetries(faults, 0)),
                 r, Find(protocol.skidStore, uid), rnd);
      var identity := protocol.GetIdentity(uid, faults);
      if identity == Err(NotExist) { return HttpError(404); }
      if identity.Err? { return HttpError(500); }
      if r.authToken != identity.value.authToken { return HttpError(401); }
      var msg := GetPayloadAndHash(protocol.c, r);
      if msg.None? { return HttpError(400); }
      resp := Sign(uid, msg.value.1, msg.value.0, identity.value.privateKey, rnd);
    }
  }
}

/**
 * The whole service: registrations, certificate loads and signing requests interleave over one
 * table, two caches and one SKID store, beside other programs that commit rows. A restart forgets
 * all but the table and what the backend has accepted. Each event is one atomic access; events that
 * are not enabled change nothing, so a run is any sequence of events.
 */
module Service {
  import opened Prelude
  import opened CryptoLib
  import opened Identities
  import opened Database
  import opened Caches
  import opened Skids
  import opened Cbor
  import opened Cose
  import opened Requests
  import opened Signing
  import D = DatabaseAccess
  import R = Registration
  import Base64

  /** Where the loading goroutine stands with the certificate at index `|found|`. */
  datatype At = AtCertificate | KeyMissed(key: Bytes) | KeyFetched(key: Bytes, uid: Uuid)

  /** `begun` is the number of rows that were committed when the matching began. */
  datatype Loader =
    | Idle
    | Loading(failed: bool, certs: seq<Certificate>, found: seq<Found>, temp: SkidStore, at: At, begun: nat)

  datatype Phase =
    | Looking                 // about to read the identity cache
    | Missed                  // about to query the table
    | Fetched(id: Identity)   // about to fill the cache
    | Known(id: Identity)     // GetIdentity has returned
    | NotFound                // GetIdentity has returned ErrNotExist
    | LookupFailed
    | Answered(id: Identity, skid: Option<Bytes>, behind: seq<Certificate>, rnd: Bytes, response: Response)

  /** `born` is the number of committed rows when the request arrived. */
  datatype Pending = Pending(uid: Uuid, r: Request, born: nat, phase: Phase)

  datatype State = State(
    reg: R.State,
    identityCache: IdentityCache,
    uidCache: UidCache,
    lookup: Lookup,
    loader: Loader,
    history: seq<Load>,       // completed loads
    requests: map<nat, Pending>
  )

  const INIT: State := State(R.INIT, map[], map[], Lookup(map[], 0), Idle, [], map[])

  datatype Event =
    | Register(e: R.Event)
    | LoadBegin(reply: Option<seq<Certificate>>)
    | CertProbe
    | CertFetch(row: nat)     // the query answers with this row
    | CertNoRow               // the query finds no row
    | CertFault               // the query fails
    | CertStore
    | LoadEnd
    | Arrive(n: nat, uid: Uuid, r: Request)
    | CacheRead(n: nat)
    | TableRead(n: nat, fault: bool)
    | CacheWrite(n: nat)
    | Answer(n: nat, rnd: Bytes)
    | Restart                 // everything in memory is lost

  // ---------- The loading goroutine ----------

  function BeginLoad(s: State, reply: Option<seq<Certificate>>, max: nat): State
  {
    match reply
    case Some(certs) =>
      s.(lookup := s.lookup.(failures := 0),
         loader := Loading(false, certs, [], map[], AtCertificate, |s.reg.db.table|))
    case None =>
      var failures := s.lookup.failures + 1;
      if failures != max
      then s.(lookup := s.lookup.(failures := failures), history := s.history + [FailedLoad])
      else s.(lookup := s.lookup.(failures := failures),
              loader := Loading(true, [], [], map[], AtCertificate, |s.reg.db.table|))
  }

  function Resolve(l: Loader, f: Found): Loader
    requires l.Loading? && |l.found| < |l.certs|
  {
    l.(found := l.found + [f], temp := AddMatch(l.temp, l.certs[|l.found|], f), at := AtCertificate)
  }

  function ProbeCert(c: Crypto, s: State): State
    requires s.loader.Loading? && |s.loader.found| < |s.loader.certs|
  {
    match CertificateKey(c, s.loader.certs[|s.loader.found|])
    case None => s.(loader := Resolve(s.loader, NoKey))
    case Some(key) =>
      var text := Base64.EncodeToString(key);
      if text in s.uidCache then s.(loader := Resolve(s.loader, FoundUid(s.uidCache[text])))
      else s.(loader := s.loader.(at := KeyMissed(key)))
  }

  predicate KeyInTable(table: seq<Identity>, key: Bytes)
  {
    exists i | 0 <= i < |table| :: table[i].publicKey == key
  }

  /** The query returns some row with the key; only if there is none does it say so; or it fails. */
  function FetchCert(s: State, e: Event): State
    requires s.loader.Loading? && |s.loader.found| < |s.loader.certs| && s.loader.at.KeyMissed?
    requires e.CertFetch? || e.CertNoRow? || e.CertFault?
  {
    var table, key := s.reg.db.table, s.loader.at.key;
    match e
    case CertFetch(i) =>
      if i < |table| && table[i].publicKey == key
      then s.(loader := s.loader.(at := KeyFetched(key, table[i].uid)))
      else s
    case CertNoRow => if KeyInTable(table, key) then s else s.(loader := Resolve(s.loader, NoRow))
    case CertFault => s.(loader := Resolve(s.loader, Faulted))
  }

  function StoreCert(s: State): State
    requires s.loader.Loading? && |s.loader.found| < |s.loader.certs| && s.loader.at.KeyFetched?
  {
    s.(uidCache := s.uidCache[Base64.EncodeToString(s.loader.at.key) := s.loader.at.uid],
       loader := Resolve(s.loader, FoundUid(s.loader.at.uid)))
  }

  function LoadOf(l: Loader): Load
    requires l.Loading?
  {
    if l.failed then FailedLoad else Loaded(l.certs, l.found, l.begun)
  }

  function EndLoad(s: State): State
    requires s.loader.Loading?
  {
    s.(lookup := s.lookup.(store := s.loader.temp), loader := Idle, history := s.history + [LoadOf(s.loader)])
  }

  predicate AtCert(l: Loader)
  {
    l.Loading? && |l.found| < |l.certs|
  }

  // ---------- Requests ----------

  function ReadTable(c: Crypto, s: State, p: Pending, fault: bool): Phase
  {
    if fault then LookupFailed
    else
      match FindUid(s.reg.db.table, p.uid)
      case None => NotFound
      case Some(row) =>
        match DecodeRow(c, row)
        case None => LookupFailed
        case Some(id) => Fetched(id)
  }

  /** The list behind the store after these loads: that of the last success, or none once cleared. */
  function ListBehind(history: seq<Load>, max: nat): seq<Certificate>
  {
    if TrailingFailures(history) >= max then [] else LastList(history)
  }

  function LastList(history: seq<Load>): seq<Certificate>
  {
    if history == [] then []
    else
      match history[|history| - 1]
      case Loaded(certs, _, _) => certs
      case FailedLoad => LastList(history[..|history| - 1])
  }

  /** That list is the one of the load which was the last to succeed, unless too many have failed since. */
  lemma ListBehindIs(history: seq<Load>, max: nat, n: nat)
    requires WellFormed(history) && FailedSince(history, n)
    ensures ListBehind(history, max) ==
            if n < max && n < |history| then history[|history| - 1 - n].certs else []
  {
    TrailingFailuresIs(history);
    SameFailures(history, n, TrailingFailures(history));
    LastListIs(history);
  }

  lemma {:induction false} LastListIs(history: seq<Load>)
    requires WellFormed(history)
    ensures var n := TrailingFailures(history);
            && n <= |history|
            && (n < |history| ==> history[|history| - 1 - n].Loaded?)
            && LastList(history) == if n == |history| then [] else history[|history| - 1 - n].certs
  {
    TrailingFailuresIs(history);
    if history != [] && history[|history| - 1].FailedLoad? { LastListIs(history[..|history| - 1]); }
  }

  function SetPhase(s: State, n: nat, phase: Phase): State
    requires n in s.requests
  {
    s.(requests := s.requests[n := s.requests[n].(phase := phase)])
  }

  function RequestStep(c: Crypto, max: nat, s: State, e: Event): State
    requires e.CacheRead? || e.TableRead? || e.CacheWrite? || e.Answer?
  {
    if e.n !in s.requests then s
    else
      var p := s.requests[e.n];
      match (e, p.phase)
      case (CacheRead(n), Looking) =>
        SetPhase(s, n, if p.uid in s.identityCache then Known(s.identityCache[p.uid]) else Missed)
      case (TableRead(n, fault), Missed) => SetPhase(s, n, ReadTable(c, s, p, fault))
      case (CacheWrite(n), Fetched(id)) =>
        SetPhase(s.(identityCache := s.identityCache[p.uid := id]), n, Known(id))
      case (Answer(n, rnd), Known(id)) => SetPhase(s, n, AnswerPhase(c, max, s, p, rnd))
      case _ => s
  }

  /** Reads the SKID store and answers; the list behind the store at that moment is kept for the record. */
  function AnswerPhase(c: Crypto, max: nat, s: State, p: Pending, rnd: Bytes): Phase
    requires p.phase.Known?
  {
    var skid := Find(s.lookup.store, p.uid);
    Answered(p.phase.id, skid, ListBehind(s.history, max), rnd, Respond(c, Ok(p.phase.id), p.r, skid, rnd))
  }

  function Step(c: Crypto, max: nat, s: State, e: Event): State
  {
    match e
    case Register(re) => s.(reg := R.Step(c, s.reg, re))
    case LoadBegin(reply) => if s.loader.Idle? then BeginLoad(s, reply, max) else s
    case CertProbe => if AtCert(s.loader) && s.loader.at.AtCertificate? then ProbeCert(c, s) else s
    case CertFetch(_) | CertNoRow | CertFault =>
      if AtCert(s.loader) && s.loader.at.KeyMissed? then FetchCert(s, e) else s
    case CertStore => if AtCert(s.loader) && s.loader.at.KeyFetched? then StoreCert(s) else s
    case LoadEnd => if s.loader.Loading? && |s.loader.found| == |s.loader.certs| then EndLoad(s) else s
    case Arrive(n, uid, r) =>
      if n in s.requests then s
      else s.(requests := s.requests[n := Pending(uid, r, |s.reg.db.table|, Looking)])
    case Restart =>
      s.(reg := R.Step(c, s.reg, R.Stop), identityCache := map[], uidCache := map[], lookup := Lookup(map[], 0),
         loader := Idle, history := [], requests := map[])
    case _ => RequestStep(c, max, s, e)
  }

  function Run(c: Crypto, max: nat, events: seq<Event>): State
  {
    if events == [] then INIT
    else Step(c, max, Run(c, max, events[..|events| - 1]), events[|events| - 1])
  }

  /** The events that follow a state. */
  function Continue(c: Crypto, max: nat, s: State, events: seq<Event>): State
    decreases |events|
  {
    if events == [] then s else Continue(c, max, Step(c, max, s, events[0]), events[1..])
  }

  // ---------- Invariant ----------

  /**
   * A uid found for a certificate has a committed row with the certificate's key, and a certificate
   * for which no row was found had none when the load began.
   */
  ghost predicate Resolved(c: Crypto, table: seq<Identity>, begun: nat, cert: Certificate, f: Found)
    requires begun <= |table|
  {
    && (f.NoKey? <==> CertificateKey(c, cert).None?)
    && (f.FoundUid? ==> HasKey(table, CertificateKey(c, cert).value, f.uid))
    && (f.NoRow? ==> !KeyInTable(table[..begun], CertificateKey(c, cert).value))
  }

  ghost predicate AllResolved(c: Crypto, table: seq<Identity>, begun: nat, certs: seq<Certificate>, found: seq<Found>)
  {
    && begun <= |table| && |found| <= |certs|
    && forall i | 0 <= i < |found| :: Resolved(c, table, begun, certs[i], found[i])
  }

  ghost predicate HistorySound(c: Crypto, table: seq<Identity>, history: seq<Load>)
  {
    forall i | 0 <= i < |history| && history[i].Loaded? ::
      && |history[i].found| == |history[i].certs|
      && AllResolved(c, table, history[i].begun, history[i].certs, history[i].found)
  }

  ghost predicate LoaderSound(c: Crypto, table: seq<Identity>, l: Loader)
  {
    l.Loading? ==>
      && AllResolved(c, table, l.begun, l.certs, l.found)
      && l.temp == Matches(l.certs, l.found)
      && (l.failed ==> l.certs == [])
      && (l.at.AtCertificate? || |l.found| < |l.certs|)
      && (!l.at.AtCertificate? ==> CertificateKey(c, l.certs[|l.found|]) == Some(l.at.key))
      && (l.at.KeyFetched? ==> HasKey(table, l.at.key, l.at.uid))
  }

  /** The store is what the completed loads make it; the counter runs ahead of it during a load. */
  ghost predicate LookupSound(lookup: Lookup, l: Loader, history: seq<Load>, max: nat)
    requires WellFormed(history)
  {
    var before := LookupAfter(history, max);
    && lookup.store == before.store
    && lookup.failures == (if l.Idle? then before.failures else if l.failed then before.failures + 1 else 0)
    && (l.Loading? && l.failed ==> lookup.failures == max)
  }

  /** A certificate of the list has this kid, and its key belongs to the uid's committed row. */
  ghost predicate KidBacked(c: Crypto, table: seq<Identity>, certs: seq<Certificate>, uid: Uuid, kid: Bytes)
  {
    exists i | 0 <= i < |certs| :: CertBacks(c, table, certs[i], uid, kid)
  }

  ghost predicate CertBacks(c: Crypto, table: seq<Identity>, cert: Certificate, uid: Uuid, kid: Bytes)
  {
    var pem := c.certKey(cert.rawData);
    && cert.kid == kid && |kid| == 8
    && pem.Some? && c.pemToBytes(pem.value).Some? && HasKey(table, c.pemToBytes(pem.value).value, uid)
  }

  ghost predicate PendingSound(c: Crypto, table: seq<Identity>, p: Pending)
  {
    && p.born <= |table|
    && (p.phase.Fetched? || p.phase.Known? || p.phase.Answered? ==> IsStored(c, table, p.uid, p.phase.id))
    && (p.phase.NotFound? ==> !HasUid(table[..p.born], p.uid))
    && (p.phase.Answered? ==>
          && p.phase.response == Respond(c, Ok(p.phase.id), p.r, p.phase.skid, p.phase.rnd)
          && (p.phase.skid.Some? ==> KidBacked(c, table, p.phase.behind, p.uid, p.phase.skid.value)))
  }

  ghost predicate RequestsSound(c: Crypto, table: seq<Identity>, requests: map<nat, Pending>)
  {
    forall n | n in requests :: PendingSound(c, table, requests[n])
  }

  ghost predicate Inv(c: Crypto, max: nat, s: State)
  {
    var table := s.reg.db.table;
    && R.Inv(c, s.reg)
    && IdentityCacheSound(c, table, s.identityCache)
    && UidCacheSound(table, s.uidCache)
    && HistorySound(c, table, s.history)
    && LoaderSound(c, table, s.loader)
    && WellFormed(s.history)
    && LookupSound(s.lookup, s.loader, s.history, max)
    && RequestsSound(c, table, s.requests)
  }

  // ---------- Committing rows keeps everything true ----------

  lemma HasKeyGrows(table: seq<Identity>, more: seq<Identity>, key: Bytes, uid: Uuid)
    requires HasKey(table, key, uid)
    ensures HasKey(table + more, key, uid)
  {
    var i :| 0 <= i < |table| && table[i].publicKey == key && table[i].uid == uid;
    assert (table + more)[i] == table[i];
  }

  lemma AllResolvedGrows(c: Crypto, table: seq<Identity>, more: seq<Identity>, begun: nat,
                         certs: seq<Certificate>, found: seq<Found>)
    requires AllResolved(c, table, begun, certs, found)
    ensures AllResolved(c, table + more, begun, certs, found)
  {
    assert (table + more)[..begun] == table[..begun];
    forall i | 0 <= i < |found| ensures Resolved(c, table + more, begun, certs[i], found[i]) {
      assert Resolved(c, table, begun, certs[i], found[i]);
      if found[i].FoundUid? { HasKeyGrows(table, more, CertificateKey(c, certs[i]).value, found[i].uid); }
    }
  }

  lemma PendingGrows(c: Crypto, table: seq<Identity>, more: seq<Identity>, p: Pending)
    requires PendingSound(c, table, p)
    ensures PendingSound(c, table + more, p)
  {
    assert (table + more)[..p.born] == table[..p.born];
    if p.phase.Fetched? || p.phase.Known? || p.phase.Answered? {
      FindUidGrows(table, more, p.uid);
    }
    if p.phase.Answered? && p.phase.skid.Some? {
      var kid := p.phase.skid.value;
      var i :| 0 <= i < |p.phase.behind| && CertBacks(c, table, p.phase.behind[i], p.uid, kid);
      HasKeyGrows(table, more, CertificateKey(c, p.phase.behind[i]).value, p.uid);
      assert CertBacks(c, table + more, p.phase.behind[i], p.uid, kid);
    }
  }

  lemma LoadingGrows(c: Crypto, table: seq<Identity>, more: seq<Identity>, history: seq<Load>, l: Loader)
    requires HistorySound(c, table, history) && LoaderSound(c, table, l)
    ensures HistorySound(c, table + more, history) && LoaderSound(c, table + more, l)
  {
    forall i | 0 <= i < |history| && history[i].Loaded?
      ensures AllResolved(c, table + more, history[i].begun, history[i].certs, history[i].found)
    {
      AllResolvedGrows(c, table, more, history[i].begun, history[i].certs, history[i].found);
    }
    if l.Loading? {
      AllResolvedGrows(c, table, more, l.begun, l.certs, l.found);
      if l.at.KeyFetched? { HasKeyGrows(table, more, l.at.key, l.at.uid); }
    }
  }

  lemma RegistrationKeepsInv(c: Crypto, max: nat, s: State, e: R.Event)
    requires Lawful(c) && Inv(c, max, s)
    ensures Inv(c, max, s.(reg := R.Step(c, s.reg, e)))
  {
    R.StepKeepsInv(c, s.reg, e);
    var table, table' := s.reg.db.table, R.Step(c, s.reg, e).db.table;
    var more := table'[|table|..];
    assert table' == table + more;
    CachesSurviveCommits(c, table, more, s.identityCache, s.uidCache);
    LoadingGrows(c, table, more, s.history, s.loader);
    forall n | n in s.requests ensures PendingSound(c, table', s.requests[n]) {
      PendingGrows(c, table, more, s.requests[n]);
    }
  }

  /** What was in memory is forgotten, what is committed or accepted stays. */
  lemma RestartKeepsInv(c: Crypto, max: nat, s: State)
    requires Lawful(c) && Inv(c, max, s)
    ensures Inv(c, max, Step(c, max, s, Restart))
  {
    R.StepKeepsInv(c, s.reg, R.Stop);
  }

  // ---------- Loading ----------

  lemma HistoryAppend(history: seq<Load>, load: Load, max: nat)
    requires WellFormed(history) && (load.Loaded? ==> |load.found| <= |load.certs|)
    ensures WellFormed(history + [load])
    ensures LookupAfter(history + [load], max) == AfterLoad(LookupAfter(history, max), load, max)
  {
    assert (history + [load])[..|history|] == history;
  }

  lemma BeginLoadLookup(s: State, reply: Option<seq<Certificate>>, max: nat)
    requires WellFormed(s.history) && LookupSound(s.lookup, s.loader, s.history, max) && s.loader.Idle?
    ensures var s' := BeginLoad(s, reply, max);
            WellFormed(s'.history) && LookupSound(s'.lookup, s'.loader, s'.history, max)
  {
    if reply.None? && s.lookup.failures + 1 != max {
      FailedLoadLookup(s.lookup, s.history, max);
    } else {
      assert BeginLoad(s, reply, max).history == s.history;
    }
  }

  lemma FailedLoadLookup(lookup: Lookup, history: seq<Load>, max: nat)
    requires WellFormed(history) && LookupSound(lookup, Idle, history, max) && lookup.failures + 1 != max
    ensures WellFormed(history + [FailedLoad])
    ensures LookupSound(lookup.(failures := lookup.failures + 1), Idle, history + [FailedLoad], max)
  {
    HistoryAppend(history, FailedLoad, max);
  }

  lemma BeginLoadKeepsInv(c: Crypto, max: nat, s: State, reply: Option<seq<Certificate>>)
    requires Inv(c, max, s) && s.loader.Idle?
    ensures Inv(c, max, BeginLoad(s, reply, max))
  {
    var s' := BeginLoad(s, reply, max);
    BeginLoadLookup(s, reply, max);
    BeginLoadSound(c, max, s, reply);
    assert s' == s.(lookup := s'.lookup, loader := s'.loader, history := s'.history);
  }

  lemma BeginLoadSound(c: Crypto, max: nat, s: State, reply: Option<seq<Certificate>>)
    requires Inv(c, max, s) && s.loader.Idle?
    ensures LoaderSound(c, s.reg.db.table, BeginLoad(s, reply, max).loader)
    ensures HistorySound(c, s.reg.db.table, BeginLoad(s, reply, max).history)
  {
    assert Matches([], []) == map[];
  }

  lemma EndLoadKeepsInv(c: Crypto, max: nat, s: State)
    requires Inv(c, max, s) && s.loader.Loading? && |s.loader.found| == |s.loader.certs|
    ensures Inv(c, max, EndLoad(s))
  {
    var s' := EndLoad(s);
    EndLoadLookup(s, max);
    EndLoadSound(c, max, s);
    assert s' == s.(lookup := s'.lookup, loader := s'.loader, history := s'.history);
  }

  lemma EndLoadLookup(s: State, max: nat)
    requires WellFormed(s.history) && LookupSound(s.lookup, s.loader, s.history, max)
    requires s.loader.Loading? && |s.loader.found| == |s.loader.certs|
    requires s.loader.temp == Matches(s.loader.certs, s.loader.found) && (s.loader.failed ==> s.loader.certs == [])
    ensures WellFormed(EndLoad(s).history)
    ensures LookupSound(EndLoad(s).lookup, Idle, EndLoad(s).history, max)
  {
    HistoryAppend(s.history, LoadOf(s.loader), max);
  }

  lemma EndLoadSound(c: Crypto, max: nat, s: State)
    requires Inv(c, max, s) && s.loader.Loading? && |s.loader.found| == |s.loader.certs|
    ensures HistorySound(c, s.reg.db.table, EndLoad(s).history)
  {
  }

  lemma ResolveKeepsSound(c: Crypto, table: seq<Identity>, l: Loader, f: Found)
    requires LoaderSound(c, table, l) && AtCert(l) && Resolved(c, table, l.begun, l.certs[|l.found|], f)
    ensures LoaderSound(c, table, Resolve(l, f))
  {
    assert (l.found + [f])[..|l.found|] == l.found;
  }

  lemma ProbeCertKeepsInv(c: Crypto, max: nat, s: State)
    requires Inv(c, max, s) && AtCert(s.loader) && s.loader.at.AtCertificate?
    ensures Inv(c, max, ProbeCert(c, s))
  {
    var table, l := s.reg.db.table, s.loader;
    var key := CertificateKey(c, l.certs[|l.found|]);
    if key.None? {
      ResolveKeepsSound(c, table, l, NoKey);
    } else if Base64.EncodeToString(key.value) in s.uidCache {
      CachedAnswer(table, s.uidCache, key.value);
      ResolveKeepsSound(c, table, l, FoundUid(s.uidCache[Base64.EncodeToString(key.value)]));
    }
  }

  lemma FetchCertKeepsInv(c: Crypto, max: nat, s: State, e: Event)
    requires Inv(c, max, s) && AtCert(s.loader) && s.loader.at.KeyMissed?
    requires e.CertFetch? || e.CertNoRow? || e.CertFault?
    ensures Inv(c, max, FetchCert(s, e))
  {
    var table, l := s.reg.db.table, s.loader;
    match e
    case CertFetch(i) =>
    case CertNoRow =>
      if !KeyInTable(table, l.at.key) {
        assert forall i | 0 <= i < l.begun :: table[..l.begun][i] == table[i];
        ResolveKeepsSound(c, table, l, NoRow);
      }
    case CertFault => ResolveKeepsSound(c, table, l, Faulted);
  }

  lemma StoreCertKeepsInv(c: Crypto, max: nat, s: State)
    requires Inv(c, max, s) && AtCert(s.loader) && s.loader.at.KeyFetched?
    ensures Inv(c, max, StoreCert(s))
  {
    var table, l := s.reg.db.table, s.loader;
    ResolveKeepsSound(c, table, l, FoundUid(l.at.uid));
    CacheUidSound(table, s.uidCache, l.at.key, l.at.uid);
    assert StoreCert(s).reg == s.reg && StoreCert(s).requests == s.requests;
  }

  lemma CacheUidSound(table: seq<Identity>, cache: UidCache, key: Bytes, uid: Uuid)
    requires UidCacheSound(table, cache) && HasKey(table, key, uid)
    ensures UidCacheSound(table, cache[Base64.EncodeToString(key) := uid])
  {
    var i :| 0 <= i < |table| && table[i].publicKey == key && table[i].uid == uid;
    assert CachedKey(table, Base64.EncodeToString(key), uid);
  }

  // ---------- Requests ----------

  /** Whatever the store holds was matched by a certificate of the list behind it. */
  lemma {:induction false} LastMatchesBacked(c: Crypto, table: seq<Identity>, history: seq<Load>, uid: Uuid)
    requires WellFormed(history) && HistorySound(c, table, history) && uid in LastMatches(history)
    ensures KidBacked(c, table, LastList(history), uid, LastMatches(history)[uid])
  {
    var n := |history| - 1;
    match history[n]
    case FailedLoad => LastMatchesBacked(c, table, history[..n], uid);
    case Loaded(certs, found, begun) =>
      MatchesIff(certs, found, uid);
      var i :| 0 <= i < |found| && MatchAt(certs, found, uid, i) && Matches(certs, found)[uid] == certs[i].kid;
      assert Resolved(c, table, begun, certs[i], found[i]);
      assert CertBacks(c, table, certs[i], uid, certs[i].kid);
  }

  lemma StoreBacked(c: Crypto, max: nat, s: State, uid: Uuid)
    requires max > 0 && Inv(c, max, s) && uid in s.lookup.store
    ensures KidBacked(c, s.reg.db.table, ListBehind(s.history, max), uid, s.lookup.store[uid])
  {
    LookupAfterIs(s.history, max);
    LastMatchesBacked(c, s.reg.db.table, s.history, uid);
  }

  lemma TableReadSound(c: Crypto, max: nat, s: State, p: Pending, fault: bool)
    requires Inv(c, max, s) && PendingSound(c, s.reg.db.table, p)
    ensures PendingSound(c, s.reg.db.table, p.(phase := ReadTable(c, s, p, fault)))
  {
    var table := s.reg.db.table;
    if !fault && !HasUid(table, p.uid) {
      assert forall i | 0 <= i < p.born :: table[..p.born][i] == table[i];
    }
  }

  lemma AnswerSound(c: Crypto, max: nat, s: State, p: Pending, rnd: Bytes)
    requires max > 0 && Inv(c, max, s) && PendingSound(c, s.reg.db.table, p) && p.phase.Known?
    ensures PendingSound(c, s.reg.db.table, p.(phase := AnswerPhase(c, max, s, p, rnd)))
  {
    if p.uid in s.lookup.store { StoreBacked(c, max, s, p.uid); }
  }

  lemma PhaseKeepsInv(c: Crypto, max: nat, s: State, n: nat, phase: Phase)
    requires Inv(c, max, s) && n in s.requests && PendingSound(c, s.reg.db.table, s.requests[n].(phase := phase))
    ensures Inv(c, max, SetPhase(s, n, phase))
  {
  }

  lemma CacheWriteKeepsInv(c: Crypto, max: nat, s: State, n: nat)
    requires Inv(c, max, s) && n in s.requests && s.requests[n].phase.Fetched?
    ensures Inv(c, max, s.(identityCache := s.identityCache[s.requests[n].uid := s.requests[n].phase.id]))
  {
    assert PendingSound(c, s.reg.db.table, s.requests[n]);
  }

  lemma CacheReadKeepsInv(c: Crypto, max: nat, s: State, n: nat)
    requires Inv(c, max, s)
    ensures Inv(c, max, RequestStep(c, max, s, CacheRead(n)))
  {
    if n in s.requests && s.requests[n].phase.Looking? {
      var p := s.requests[n];
      PhaseKeepsInv(c, max, s, n, if p.uid in s.identityCache then Known(s.identityCache[p.uid]) else Missed);
    }
  }

  lemma TableReadKeepsInv(c: Crypto, max: nat, s: State, n: nat, fault: bool)
    requires Inv(c, max, s)
    ensures Inv(c, max, RequestStep(c, max, s, TableRead(n, fault)))
  {
    if n in s.requests && s.requests[n].phase.Missed? {
      TableReadSound(c, max, s, s.requests[n], fault);
      PhaseKeepsInv(c, max, s, n, ReadTable(c, s, s.requests[n], fault));
    }
  }

  lemma CacheFillKeepsInv(c: Crypto, max: nat, s: State, n: nat)
    requires Inv(c, max, s)
    ensures Inv(c, max, RequestStep(c, max, s, CacheWrite(n)))
  {
    if n in s.requests && s.requests[n].phase.Fetched? {
      var p := s.requests[n];
      CacheWriteKeepsInv(c, max, s, n);
      PhaseKeepsInv(c, max, s.(identityCache := s.identityCache[p.uid := p.phase.id]), n, Known(p.phase.id));
    }
  }

  lemma AnswerKeepsInv(c: Crypto, max: nat, s: State, n: nat, rnd: Bytes)
    requires max > 0 && Inv(c, max, s)
    ensures Inv(c, max, RequestStep(c, max, s, Answer(n, rnd)))
  {
    if n in s.requests && s.requests[n].phase.Known? {
      AnswerSound(c, max, s, s.requests[n], rnd);
      PhaseKeepsInv(c, max, s, n, AnswerPhase(c, max, s, s.requests[n], rnd));
    }
  }

  lemma StepKeepsInv(c: Crypto, max: nat, s: State, e: Event)
    requires Lawful(c) && max > 0 && Inv(c, max, s)
    ensures Inv(c, max, Step(c, max, s, e))
  {
    match e
    case Register(re) => RegistrationKeepsInv(c, max, s, re);
    case Restart => RestartKeepsInv(c, max, s);
    case LoadBegin(reply) => if s.loader.Idle? { BeginLoadKeepsInv(c, max, s, reply); }
    case LoadEnd => if s.loader.Loading? && |s.loader.found| == |s.loader.certs| { EndLoadKeepsInv(c, max, s); }
    case Arrive(n, uid, r) =>
    case CertProbe => if AtCert(s.loader) && s.loader.at.AtCertificate? { ProbeCertKeepsInv(c, max, s); }
    case CertFetch(_) | CertNoRow | CertFault =>
      if AtCert(s.loader) && s.loader.at.KeyMissed? { FetchCertKeepsInv(c, max, s, e); }
    case CertStore => if AtCert(s.loader) && s.loader.at.KeyFetched? { StoreCertKeepsInv(c, max, s); }
    case CacheRead(n) => CacheReadKeepsInv(c, max, s, n);
    case TableRead(n, fault) => TableReadKeepsInv(c, max, s, n, fault);
    case CacheWrite(n) => CacheFillKeepsInv(c, max, s, n);
    case Answer(n, rnd) => AnswerKeepsInv(c, max, s, n, rnd);
  }

  lemma {:induction false} RunInv(c: Crypto, max: nat, events: seq<Event>)
    requires Lawful(c) && max > 0
    ensures Inv(c, max, Run(c, max, events))
  {
    if events != [] {
      RunInv(c, max, events[..|events| - 1]);
      StepKeepsInv(c, max, Run(c, max, events[..|events| - 1]), events[|events| - 1]);
    }
  }

  // ---------- End to end ----------

  /** The uid's row decodes to an identity whose private key belongs to the row's public key. */
  ghost predicate SoundUid(c: Crypto, table: seq<Identity>, uid: Uuid)
  {
    FindUid(table, uid).Some? && SoundRow(c, FindUid(table, uid).value)
  }

  /** A call has committed the uid's row, or another program has and its keys belong together. */
  ghost predicate SoundlyStored(c: Crypto, s: R.State, uid: Uuid)
  {
    HasUid(s.own, uid) || SoundUid(c, s.db.table, uid)
  }

  /** The private key that signs belongs to the key of every certificate that backs the uid's kid. */
  lemma SigningKeyMatches(c: Crypto, s: R.State, uid: Uuid, id: Identity, key: Bytes)
    requires R.Inv(c, s) && IsStored(c, s.db.table, uid, id) && HasKey(s.db.table, key, uid)
    requires SoundlyStored(c, s, uid)
    ensures KeyPair(c, id.privateKey, key)
    ensures HasUid(s.own, uid) ==> R.Accepted(uid, key) in s.backend
  {
    var table := s.db.table;
    var row := FindUid(table, uid).value;
    var i :| 0 <= i < |table| && table[i].publicKey == key && table[i].uid == uid;
    UniqueRow(table, row, table[i]);
    if HasUid(s.own, uid) { R.OwnRowIsSound(c, s, uid); }
  }

  /** The object decodes to this payload, and a certificate of the list vouches for it. */
  ghost predicate VouchedFor(c: Crypto, s: R.State, p: Pending, payload: Bytes, hash: Sha256Sum)
    requires p.phase.Answered? && p.phase.response.Signed?
  {
    var o := DecodeCose(p.phase.response.cose);
    && o.Some? && o.value.protected == [0xA1, 0x01, 0x26] && o.value.payload == payload
    && exists i | 0 <= i < |p.phase.behind| :: VouchedBy(c, s, p, p.phase.behind[i], o.value, hash)
  }

  ghost predicate VouchedBy(c: Crypto, s: R.State, p: Pending, cert: Certificate, o: CoseObject, hash: Sha256Sum)
    requires p.phase.Answered? && p.phase.response.Signed?
  {
    var pem := c.certKey(cert.rawData);
    && cert.kid == o.kid && |cert.kid| == 8
    && pem.Some? && c.pemToBytes(pem.value).Some?
    && var key := c.pemToBytes(pem.value).value;
       && c.verify(key, hash, o.signature)
       && (HasUid(s.own, p.uid) ==> R.Accepted(p.uid, key) in s.backend)
       && (!p.r.hashEndpoint ==> Verifies(c, key, p.phase.response.cose))
  }

  lemma AnsweredIsVouchedFor(c: Crypto, s: R.State, p: Pending)
    requires Lawful(c) && R.Inv(c, s) && PendingSound(c, s.db.table, p)
    requires p.phase.Answered? && p.phase.response.Signed? && SoundlyStored(c, s, p.uid)
    requires PayloadAndHash(c, p.r).Some? && |PayloadAndHash(c, p.r).value.0| < TWO64
    ensures VouchedFor(c, s, p, PayloadAndHash(c, p.r).value.0, PayloadAndHash(c, p.r).value.1)
  {
    var behind, kid := p.phase.behind, p.phase.skid.value;
    var (payload, hash) := PayloadAndHash(c, p.r).value;
    var i :| 0 <= i < |behind| && CertBacks(c, s.db.table, behind[i], p.uid, kid);
    var key := CertificateKey(c, behind[i]).value;
    SigningKeyMatches(c, s, p.uid, p.phase.id, key);
    ProtectedHeaderBytes();
    SignedCoseVerifiesIff(c, hash, p.phase.id.privateKey, key, kid, payload, p.phase.rnd);
    assert VouchedBy(c, s, p, behind[i], DecodeCose(p.phase.response.cose).value, hash);
  }

  /**
   * In every reachable state, whatever other programs have committed and however often the service
   * was restarted: an object issued for a registered uid, or one whose stored keys belong together,
   * carries the kid of a certificate from the list behind the SKID store that was read, and that
   * certificate's key verifies its signature. The backend has accepted this key for every uid that
   * was registered. On the data route a recipient who knows only the object and the certificate
   * accepts it.
   */
  lemma IssuedObjectsVerify(c: Crypto, max: nat, events: seq<Event>, n: nat)
    requires Lawful(c) && max > 0
    requires n in Run(c, max, events).requests
    requires var s := Run(c, max, events);
             var p := s.requests[n];
             p.phase.Answered? && p.phase.response.Signed? && SoundlyStored(c, s.reg, p.uid)
    ensures var s := Run(c, max, events);
            exists payload, hash ::
              && Asks(c, s.requests[n].r, payload, hash)
              && (|payload| < TWO64 ==> VouchedFor(c, s.reg, s.requests[n], payload, hash))
  {
    RunInv(c, max, events);
    var s := Run(c, max, events);
    var p := s.requests[n];
    assert PendingSound(c, s.reg.db.table, p);
    var (payload, hash) := PayloadAndHash(c, p.r).value;
    PayloadAndHashIff(c, p.r, payload, hash);
    if |payload| < TWO64 { AnsweredIsVouchedFor(c, s.reg, p); }
  }

  // ---------- Identity lookups ----------

  predicate Identified(p: Pending)
  {
    p.phase.Known? || p.phase.Answered?
  }

  /** All lookups of one uid return the same identity, at whatever times they succeed. */
  lemma LookupsAgree(c: Crypto, max: nat, before: seq<Event>, after: seq<Event>, m: nat, n: nat)
    requires Lawful(c) && max > 0
    requires m in Run(c, max, before).requests && n in Run(c, max, before + after).requests
    requires var p, p' := Run(c, max, before).requests[m], Run(c, max, before + after).requests[n];
             Identified(p) && Identified(p') && p.uid == p'.uid
    ensures Run(c, max, before).requests[m].phase.id == Run(c, max, before + after).requests[n].phase.id
  {
    RunInv(c, max, before);
    RunInv(c, max, before + after);
    RunExtendsTable(c, max, before, after);
    var s, s' := Run(c, max, before), Run(c, max, before + after);
    assert PendingSound(c, s.reg.db.table, s.requests[m]) && PendingSound(c, s'.reg.db.table, s'.requests[n]);
    SameIdentity(c, s.reg.db.table, s'.reg.db.table, s.requests[m], s'.requests[n]);
  }

  lemma SameIdentity(c: Crypto, table: seq<Identity>, table': seq<Identity>, p: Pending, p': Pending)
    requires table <= table' && PendingSound(c, table, p) && PendingSound(c, table', p')
    requires Identified(p) && Identified(p') && p.uid == p'.uid
    ensures p.phase.id == p'.phase.id
  {
    FindUidGrows(table, table'[|table|..], p.uid);
    assert table' == table + table'[|table|..];
  }

  /** A lookup that reaches the table fails only if the database does, or on a row that cannot be decoded. */
  lemma LookupFailsOnlyOnFault(c: Crypto, max: nat, events: seq<Event>, p: Pending, fault: bool)
    requires Lawful(c) && max > 0
    ensures var s := Run(c, max, events);
            var row := FindUid(s.reg.db.table, p.uid);
            && (ReadTable(c, s, p, fault).LookupFailed? <==> fault || (row.Some? && DecodeRow(c, row.value).None?))
            && (SoundlyStored(c, s.reg, p.uid) ==> (ReadTable(c, s, p, fault).LookupFailed? <==> fault))
  {
    RunInv(c, max, events);
    var s := Run(c, max, events);
    if HasUid(s.reg.own, p.uid) { R.OwnRowIsSound(c, s.reg, p.uid); }
  }

  /** No other step touches the registrations, and a request is stamped once, when it arrives. */
  lemma StepFrame(c: Crypto, max: nat, s: State, e: Event, n: nat)
    ensures !e.Register? && !e.Restart? ==> Step(c, max, s, e).reg == s.reg
    ensures n in Step(c, max, s, e).requests ==>
              Step(c, max, s, e).requests[n].born == if n in s.requests then s.requests[n].born else |s.reg.db.table|
  {
  }

  lemma StepExtendsTable(c: Crypto, max: nat, s: State, e: Event)
    ensures s.reg.db.table <= Step(c, max, s, e).reg.db.table
  {
    if e.Register? {
      R.StepExtends(c, s.reg, e.e);
    } else {
      StepFrame(c, max, s, e, 0);
    }
  }

  lemma RunSnoc(c: Crypto, max: nat, before: seq<Event>, after: seq<Event>)
    requires after != []
    ensures Run(c, max, before + after) ==
            Step(c, max, Run(c, max, before + after[..|after| - 1]), after[|after| - 1])
  {
    SplitLastEvent(before, after);
  }

  lemma SplitLastEvent(before: seq<Event>, after: seq<Event>)
    requires after != []
    ensures var events := before + after;
            && events != [] && events[|events| - 1] == after[|after| - 1]
            && events[..|events| - 1] == before + after[..|after| - 1]
  {
  }

  /** Committed rows are there to stay, through restarts too. */
  lemma {:induction false} RunExtendsTable(c: Crypto, max: nat, before: seq<Event>, after: seq<Event>)
    ensures Run(c, max, before).reg.db.table <= Run(c, max, before + after).reg.db.table
  {
    if after == [] {
      assert before + after == before;
    } else {
      var init, e := after[..|after| - 1], after[|after| - 1];
      var s, s' := Run(c, max, before + init), Run(c, max, before + after);
      RunExtendsTable(c, max, before, init);
      StepExtendsTable(c, max, s, e);
      RunSnoc(c, max, before, after);
      R.PrefixTrans(Run(c, max, before).reg.db.table, s.reg.db.table, s'.reg.db.table);
    }
  }

  /** A request that is not there yet will be stamped with at least the rows committed so far. */
  lemma {:induction false} LaterRequestsKnowMore(c: Crypto, max: nat, before: seq<Event>, after: seq<Event>, n: nat)
    requires n !in Run(c, max, before).requests
    ensures var s, s' := Run(c, max, before), Run(c, max, before + after);
            n in s'.requests ==> s'.requests[n].born >= |s.reg.db.table|
  {
    if after == [] {
      assert before + after == before;
    } else {
      var init := after[..|after| - 1];
      LaterRequestsKnowMore(c, max, before, init, n);
      RunExtendsTable(c, max, before, init);
      StepFrame(c, max, Run(c, max, before + init), after[|after| - 1], n);
      RunSnoc(c, max, before, after);
    }
  }

  /** A request that arrives after the uid's row is committed is never told that the uid is unknown. */
  lemma CommittedIsFound(c: Crypto, max: nat, before: seq<Event>, after: seq<Event>, n: nat)
    requires Lawful(c) && max > 0
    requires n !in Run(c, max, before).requests && n in Run(c, max, before + after).requests
    requires HasUid(Run(c, max, before).reg.db.table, Run(c, max, before + after).requests[n].uid)
    ensures !Run(c, max, before + after).requests[n].phase.NotFound?
  {
    LaterRequestsKnowMore(c, max, before, after, n);
    RunExtendsTable(c, max, before, after);
    RunInv(c, max, before + after);
    var s, s' := Run(c, max, before), Run(c, max, before + after);
    var p := s'.requests[n];
    assert PendingSound(c, s'.reg.db.table, p);
    var i :| 0 <= i < |s.reg.db.table| && s.reg.db.table[i].uid == p.uid;
    assert s'.reg.db.table[..p.born][i] == s.reg.db.table[i];
  }

  /** Every cached identity is the decoded committed row; that of a registered uid holds its own key pair. */
  lemma IdentityCacheRefinesTable(c: Crypto, max: nat, events: seq<Event>, uid: Uuid)
    requires Lawful(c) && max > 0 && uid in Run(c, max, events).identityCache
    ensures var s := Run(c, max, events);
            var row := FindUid(s.reg.db.table, uid);
            && row.Some? && DecodeRow(c, row.value) == Some(s.identityCache[uid])
            && (SoundlyStored(c, s.reg, uid) ==> KeyPair(c, s.identityCache[uid].privateKey, row.value.publicKey))
  {
    RunInv(c, max, events);
    var s := Run(c, max, events);
    assert IsStored(c, s.reg.db.table, uid, s.identityCache[uid]);
    if HasUid(s.reg.own, uid) { R.OwnRowIsSound(c, s.reg, uid); }
  }

  /** Every cached uid has a committed row with the public key it is cached under. */
  lemma UidCacheRefinesTable(c: Crypto, max: nat, events: seq<Event>, key: Bytes)
    requires Lawful(c) && max > 0 && Base64.EncodeToString(key) in Run(c, max, events).uidCache
    ensures var s := Run(c, max, events);
            HasKey(s.reg.db.table, key, s.uidCache[Base64.EncodeToString(key)])
  {
    RunInv(c, max, events);
    CachedAnswer(Run(c, max, events).reg.db.table, Run(c, max, events).uidCache, key);
  }

  // ---------- The SKID store ----------

  /**
   * The counter is the number of loads that have failed in a row, and the store is the match result
   * of the last load before them as long as the counter is below the maximum, and empty from it on.
   */
  ghost predicate StoreOfLastLoad(lookup: Lookup, history: seq<Load>, max: nat)
  {
    && WellFormed(history) && FailedSince(history, lookup.failures)
    && var last := |history| - 1 - lookup.failures;
       lookup.store == if lookup.failures < max && last >= 0
                       then Matches(history[last].certs, history[last].found) else map[]
  }

  /** So it is between loads, in every run. */
  lemma SkidStoreOverAllRuns(c: Crypto, max: nat, events: seq<Event>)
    requires Lawful(c) && max > 0 && Run(c, max, events).loader.Idle?
    ensures StoreOfLastLoad(Run(c, max, events).lookup, Run(c, max, events).history, max)
    ensures Run(c, max, events).lookup.failures == TrailingFailures(Run(c, max, events).history)
  {
    RunInv(c, max, events);
    IdleSkidStore(c, max, Run(c, max, events));
  }

  lemma IdleSkidStore(c: Crypto, max: nat, s: State)
    requires max > 0 && Inv(c, max, s) && s.loader.Idle?
    ensures StoreOfLastLoad(s.lookup, s.history, max)
    ensures s.lookup.failures == TrailingFailures(s.history)
  {
    IdleLookup(c, max, s);
    LookupIsByLoads(s.lookup, s.history, max);
  }

  lemma IdleLookup(c: Crypto, max: nat, s: State)
    requires Inv(c, max, s) && s.loader.Idle?
    ensures WellFormed(s.history) && s.lookup == LookupAfter(s.history, max)
  {
  }

  lemma LookupIsByLoads(lookup: Lookup, history: seq<Load>, max: nat)
    requires WellFormed(history) && max > 0 && lookup == LookupAfter(history, max)
    ensures lookup.failures == TrailingFailures(history) && StoreOfLastLoad(lookup, history, max)
  {
    LookupAfterIs(history, max);
    TrailingFailuresIs(history);
    LookupAfterLoads(history, max, TrailingFailures(history));
  }

  /**
   * Rows may be committed while the matching loop runs; still, at all times the store's entry for a
   * uid is the kid of a certificate in the list behind it whose key stands in the uid's committed row.
   */
  lemma SkidStoreBacked(c: Crypto, max: nat, events: seq<Event>, uid: Uuid)
    requires Lawful(c) && max > 0 && uid in Run(c, max, events).lookup.store
    ensures var s := Run(c, max, events);
            KidBacked(c, s.reg.db.table, ListBehind(s.history, max), uid, s.lookup.store[uid])
  {
    RunInv(c, max, events);
    StoreBacked(c, max, Run(c, max, events), uid);
  }

  /**
   * Every completed load, whatever was committed while it ran. A certificate is left out only for a
   * reason: it has no usable key, or no row had the key when the load began, or the database failed.
   * All others yield a uid whose row has the key.
   */
  lemma LoadsResolveSoundly(c: Crypto, max: nat, events: seq<Event>, i: nat, j: nat)
    requires Lawful(c) && max > 0
    requires i < |Run(c, max, events).history| && Run(c, max, events).history[i].Loaded?
    requires j < |Run(c, max, events).history[i].certs|
    ensures var s := Run(c, max, events);
            var load, table := s.history[i], s.reg.db.table;
            && |load.found| == |load.certs| && load.begun <= |table|
            && (load.found[j].NoKey? <==> CertificateKey(c, load.certs[j]).None?)
            && (load.found[j].FoundUid? ==>
                  HasKey(table, CertificateKey(c, load.certs[j]).value, load.found[j].uid))
            && (load.found[j].NoRow? ==> !KeyInTable(table[..load.begun], CertificateKey(c, load.certs[j]).value))
  {
    RunInv(c, max, events);
    var s := Run(c, max, events);
    var load, table := s.history[i], s.reg.db.table;
    assert AllResolved(c, table, load.begun, load.certs, load.found);
    assert Resolved(c, table, load.begun, load.certs[j], load.found[j]);
  }

  /** Some certificate with a valid kid has a key that stands in one of the rows under the uid. */
  ghost predicate Certified(c: Crypto, rows: seq<Identity>, certs: seq<Certificate>, uid: Uuid)
  {
    exists j | 0 <= j < |certs| :: CertBacks(c, rows, certs[j], uid, certs[j].kid)
  }

  /**
   * So in a load without faults, and with no key in two rows, every uid gets a kid that was
   * certified when the load began, and only uids do that are certified by now.
   */
  lemma LoadMatchesCertified(c: Crypto, max: nat, events: seq<Event>, i: nat, uid: Uuid)
    requires Lawful(c) && max > 0
    requires i < |Run(c, max, events).history| && Run(c, max, events).history[i].Loaded?
    ensures var s := Run(c, max, events);
            var load, table := s.history[i], s.reg.db.table;
            && |load.found| == |load.certs| && load.begun <= |table|
            && (uid in Matches(load.certs, load.found) ==> Certified(c, table, load.certs, uid))
            && ((&& DistinctKeys(table) && (forall j | 0 <= j < |load.found| :: !load.found[j].Faulted?)
                 && Certified(c, table[..load.begun], load.certs, uid)) ==>
                  uid in Matches(load.certs, load.found))
  {
    RunInv(c, max, events);
    var s := Run(c, max, events);
    var load, table := s.history[i], s.reg.db.table;
    assert AllResolved(c, table, load.begun, load.certs, load.found);
    MatchesIff(load.certs, load.found, uid);
    if uid in Matches(load.certs, load.found) {
      var j :| 0 <= j < |load.found| && MatchAt(load.certs, load.found, uid, j);
      assert Resolved(c, table, load.begun, load.certs[j], load.found[j]);
      assert CertBacks(c, table, load.certs[j], uid, load.certs[j].kid);
    }
    if DistinctKeys(table) && (forall j | 0 <= j < |load.found| :: !load.found[j].Faulted?)
       && Certified(c, table[..load.begun], load.certs, uid) {
      var j :| 0 <= j < |load.certs| && CertBacks(c, table[..load.begun], load.certs[j], uid, load.certs[j].kid);
      assert Resolved(c, table, load.begun, load.certs[j], load.found[j]);
      CertifiedIsFound(c, table, load.begun, load.certs[j], load.found[j], uid);
      assert MatchAt(load.certs, load.found, uid, j);
    }
  }

  lemma CertifiedIsFound(c: Crypto, table: seq<Identity>, begun: nat, cert: Certificate, f: Found, uid: Uuid)
    requires begun <= |table| && DistinctKeys(table) && Resolved(c, table, begun, cert, f) && !f.Faulted?
    requires CertBacks(c, table[..begun], cert, uid, cert.kid)
    ensures f == FoundUid(uid)
  {
    var key := CertificateKey(c, cert).value;
    var i :| 0 <= i < begun && table[..begun][i].publicKey == key && table[..begun][i].uid == uid;
    assert KeyInTable(table[..begun], key);
    assert table[i].publicKey == key && table[i].uid == uid;
  }
}
