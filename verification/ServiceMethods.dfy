/**
 * The methods that answer a request and load the certificate list are runs of the service: what
 * their contracts say they do is what the service does when nothing else interleaves.
 */
module ServiceMethods {
  import opened Prelude
  import opened CryptoLib
  import opened Identities
  import opened Database
  import opened DatabaseAccess
  import opened Caches
  import opened Skids
  import opened Requests
  import opened Signing
  import opened Service
  import Base64

  lemma Next(c: Crypto, max: nat, s: State, e: Event, rest: seq<Event>)
    ensures Continue(c, max, s, [e] + rest) == Continue(c, max, Step(c, max, s, e), rest)
  {
    assert ([e] + rest)[1..] == rest;
  }

  lemma Last(c: Crypto, max: nat, s: State, e: Event)
    ensures Continue(c, max, s, [e]) == Step(c, max, s, e)
  {
  }

  lemma {:induction false} ContinueAppend(c: Crypto, max: nat, s: State, a: seq<Event>, b: seq<Event>)
    ensures Continue(c, max, s, a + b) == Continue(c, max, Continue(c, max, s, a), b)
    decreases |a|
  {
    if a == [] {
      assert a + b == b;
    } else {
      assert a + b == [a[0]] + (a[1..] + b);
      Next(c, max, s, a[0], a[1..] + b);
      ContinueAppend(c, max, Step(c, max, s, a[0]), a[1..], b);
    }
  }

  // ---------- Answering a request ----------

  /** The answer that a request has got, if it has. */
  function ResponseOf(phase: Phase): Option<Response>
  {
    match phase
    case Answered(_, _, _, _, response) => Some(response)
    case NotFound => Some(HttpError(404))
    case LookupFailed => Some(HttpError(500))
    case _ => None
  }

  /** The steps behind the arrival of a request. */
  function LookupSteps(c: Crypto, s: State, n: nat, uid: Uuid, fault: Fault, rnd: Bytes): seq<Event>
  {
    if uid in s.identityCache then [CacheRead(n)] + [Answer(n, rnd)]
    else if TableAnswer(c, s.reg.db.table, uid, fault).Err? then [CacheRead(n)] + [TableRead(n, !fault.NoFault?)]
    else [CacheRead(n)] + ([TableRead(n, false)] + ([CacheWrite(n)] + [Answer(n, rnd)]))
  }

  function RequestSteps(c: Crypto, s: State, n: nat, uid: Uuid, r: Request, fault: Fault, rnd: Bytes): seq<Event>
  {
    [Arrive(n, uid, r)] + LookupSteps(c, s, n, uid, fault, rnd)
  }

  function With(s: State, n: nat, p: Pending): State
  {
    s.(requests := s.requests[n := p])
  }

  lemma AnswerStep(c: Crypto, max: nat, s: State, n: nat, p: Pending, rnd: Bytes)
    requires p.phase.Known?
    ensures var s' := Step(c, max, With(s, n, p), Answer(n, rnd));
            && n in s'.requests && s' == With(s, n, s'.requests[n])
            && ResponseOf(s'.requests[n].phase) ==
                 Some(Respond(c, Ok(p.phase.id), p.r, Find(s.lookup.store, p.uid), rnd))
  {
    var answered := p.(phase := AnswerPhase(c, max, With(s, n, p), p, rnd));
    assert With(s, n, p).requests[n := answered] == s.requests[n := answered];
  }

  lemma PhaseStep(c: Crypto, max: nat, s: State, n: nat, p: Pending, e: Event, phase: Phase)
    requires e.CacheRead? || e.TableRead?
    requires e.n == n && RequestStep(c, max, With(s, n, p), e) == SetPhase(With(s, n, p), n, phase)
    ensures Step(c, max, With(s, n, p), e) == With(s, n, p.(phase := phase))
  {
    assert With(s, n, p).requests[n := p.(phase := phase)] == s.requests[n := p.(phase := phase)];
  }

  lemma FillStep(c: Crypto, max: nat, s: State, n: nat, p: Pending)
    requires p.phase.Fetched?
    ensures Step(c, max, With(s, n, p), CacheWrite(n)) ==
            With(s.(identityCache := s.identityCache[p.uid := p.phase.id]), n, p.(phase := Known(p.phase.id)))
  {
    var known := p.(phase := Known(p.phase.id));
    assert With(s, n, p).requests[n := known] == s.requests[n := known];
  }

  lemma ReadTableIs(c: Crypto, s: State, p: Pending, fault: Fault)
    ensures var answer := TableAnswer(c, s.reg.db.table, p.uid, fault);
            ReadTable(c, s, p, !fault.NoFault?) ==
              match answer
              case Ok(id) => Fetched(id)
              case Err(e) => if e.NotExist? then NotFound else LookupFailed
  {
  }

  /** What a lookup leaves of the state and of the request, in the three cases. */
  ghost predicate Handled(c: Crypto, s: State, s': State, n: nat, p: Pending, id: Result<Identity, DbError>, rnd: Bytes)
  {
    && n in s'.requests
    && s' == With(s.(identityCache := CacheAnswer(s.identityCache, p.uid, id)), n, s'.requests[n])
    && ResponseOf(s'.requests[n].phase) == Some(Respond(c, id, p.r, Find(s.lookup.store, p.uid), rnd))
  }

  lemma CachedRuns(c: Crypto, max: nat, s: State, n: nat, p: Pending, fault: Fault, rnd: Bytes)
    requires p.phase.Looking? && p.uid in s.identityCache
    ensures Handled(c, s, Continue(c, max, With(s, n, p), LookupSteps(c, s, n, p.uid, fault, rnd)), n, p,
                    Ok(s.identityCache[p.uid]), rnd)
  {
    var id := s.identityCache[p.uid];
    PhaseStep(c, max, s, n, p, CacheRead(n), Known(id));
    AnswerStep(c, max, s, n, p.(phase := Known(id)), rnd);
    Next(c, max, With(s, n, p), CacheRead(n), [Answer(n, rnd)]);
    Last(c, max, With(s, n, p.(phase := Known(id))), Answer(n, rnd));
    assert CacheAnswer(s.identityCache, p.uid, Result<Identity, DbError>.Ok(id)) == s.identityCache;
  }

  lemma RefusedRuns(c: Crypto, max: nat, s: State, n: nat, p: Pending, fault: Fault, rnd: Bytes)
    requires p.phase.Looking? && p.uid !in s.identityCache && TableAnswer(c, s.reg.db.table, p.uid, fault).Err?
    ensures Handled(c, s, Continue(c, max, With(s, n, p), LookupSteps(c, s, n, p.uid, fault, rnd)), n, p,
                    TableAnswer(c, s.reg.db.table, p.uid, fault), rnd)
  {
    var missed := p.(phase := Missed);
    var read := TableRead(n, !fault.NoFault?);
    var phase := ReadTable(c, With(s, n, missed), missed, !fault.NoFault?);
    PhaseStep(c, max, s, n, p, CacheRead(n), Missed);
    PhaseStep(c, max, s, n, missed, read, phase);
    ReadTableIs(c, With(s, n, missed), missed, fault);
    Next(c, max, With(s, n, p), CacheRead(n), [read]);
    Last(c, max, With(s, n, missed), read);
  }

  lemma FetchedRuns(c: Crypto, max: nat, s: State, n: nat, p: Pending, fault: Fault, rnd: Bytes)
    requires p.phase.Looking? && p.uid !in s.identityCache && TableAnswer(c, s.reg.db.table, p.uid, fault).Ok?
    ensures Handled(c, s, Continue(c, max, With(s, n, p), LookupSteps(c, s, n, p.uid, fault, rnd)), n, p,
                    TableAnswer(c, s.reg.db.table, p.uid, fault), rnd)
  {
    var id := TableAnswer(c, s.reg.db.table, p.uid, fault).value;
    var missed, fetched, known := p.(phase := Missed), p.(phase := Fetched(id)), p.(phase := Known(id));
    var filled := s.(identityCache := s.identityCache[p.uid := id]);
    var last := [Answer(n, rnd)];
    PhaseStep(c, max, s, n, p, CacheRead(n), Missed);
    ReadTableIs(c, With(s, n, missed), missed, fault);
    PhaseStep(c, max, s, n, missed, TableRead(n, false), Fetched(id));
    FillStep(c, max, s, n, fetched);
    AnswerStep(c, max, filled, n, known, rnd);
    Next(c, max, With(s, n, p), CacheRead(n), [TableRead(n, false)] + ([CacheWrite(n)] + last));
    Next(c, max, With(s, n, missed), TableRead(n, false), [CacheWrite(n)] + last);
    Next(c, max, With(s, n, fetched), CacheWrite(n), last);
    Last(c, max, With(filled, n, known), Answer(n, rnd));
  }

  /**
   * `HandleRequest` is a run: in any state, whatever the database does, the response and the cache
   * that its contract names are those of a request that no other event interrupts.
   */
  lemma HandleRequestIsARun(c: Crypto, max: nat, s: State, n: nat, uid: Uuid, r: Request, fault: Fault, rnd: Bytes)
    requires n !in s.requests
    ensures var id := LookupIdentity(c, s.reg.db.table, s.identityCache, uid, fault);
            var s' := Continue(c, max, s, RequestSteps(c, s, n, uid, r, fault, rnd));
            && n in s'.requests && s'.requests - {n} == s.requests
            && ResponseOf(s'.requests[n].phase) == Some(Respond(c, id, r, Find(s.lookup.store, uid), rnd))
            && s' == s.(identityCache := CacheAnswer(s.identityCache, uid, id), requests := s'.requests)
  {
    var p := Pending(uid, r, |s.reg.db.table|, Looking);
    Next(c, max, s, Arrive(n, uid, r), LookupSteps(c, s, n, uid, fault, rnd));
    assert Step(c, max, s, Arrive(n, uid, r)) == With(s, n, p);
    if uid in s.identityCache {
      CachedRuns(c, max, s, n, p, fault, rnd);
    } else if TableAnswer(c, s.reg.db.table, uid, fault).Err? {
      RefusedRuns(c, max, s, n, p, fault, rnd);
    } else {
      FetchedRuns(c, max, s, n, p, fault, rnd);
    }
  }

  // ---------- Loading the certificates ----------

  /** The row that the query returned. */
  ghost function RowOf(table: seq<Identity>, key: Bytes, uid: Uuid): (i: nat)
    requires HasKey(table, key, uid)
    ensures i < |table| && table[i].publicKey == key && table[i].uid == uid
  {
    var i :| 0 <= i < |table| && table[i].publicKey == key && table[i].uid == uid;
    i
  }

  ghost function CertSteps(c: Crypto, table: seq<Identity>, cache: UidCache, cert: Certificate, f: Found): seq<Event>
  {
    var key := CertificateKey(c, cert);
    if key.None? || Base64.EncodeToString(key.value) in cache then [CertProbe]
    else
      match f
      case FoundUid(uid) =>
        if HasKey(table, key.value, uid) then [CertProbe] + ([CertFetch(RowOf(table, key.value, uid))] + [CertStore])
        else []
      case NoRow => [CertProbe] + [CertNoRow]
      case Faulted => [CertProbe] + [CertFault]
      case NoKey => []
  }

  ghost predicate AtNext(s: State)
  {
    AtCert(s.loader) && s.loader.at.AtCertificate?
  }

  function NextCert(s: State): Certificate
    requires AtCert(s.loader)
  {
    s.loader.certs[|s.loader.found|]
  }

  /** The certificate at hand is resolved. */
  function Settled(c: Crypto, s: State, f: Found): State
    requires AtCert(s.loader)
  {
    s.(uidCache := CacheUid(c, s.uidCache, NextCert(s), f), loader := Resolve(s.loader, f))
  }

  lemma ProbedCertRuns(c: Crypto, max: nat, s: State, fault: Fault, f: Found)
    requires AtNext(s) && CertAnswer(c, s.reg.db.table, s.uidCache, NextCert(s), fault, f)
    requires var key := CertificateKey(c, NextCert(s));
             key.None? || Base64.EncodeToString(key.value) in s.uidCache
    ensures Continue(c, max, s, [CertProbe]) == Settled(c, s, f)
  {
    Last(c, max, s, CertProbe);
    assert CacheUid(c, s.uidCache, NextCert(s), f) == s.uidCache;
  }

  lemma ProbeMisses(c: Crypto, max: nat, s: State, key: Bytes)
    requires AtNext(s) && CertificateKey(c, NextCert(s)) == Some(key) && Base64.EncodeToString(key) !in s.uidCache
    ensures Step(c, max, s, CertProbe) == s.(loader := s.loader.(at := KeyMissed(key)))
  {
  }

  lemma FetchedCertRuns(c: Crypto, max: nat, s: State, key: Bytes, uid: Uuid)
    requires AtNext(s) && CertificateKey(c, NextCert(s)) == Some(key) && Base64.EncodeToString(key) !in s.uidCache
    requires HasKey(s.reg.db.table, key, uid)
    ensures Continue(c, max, s, [CertProbe] + ([CertFetch(RowOf(s.reg.db.table, key, uid))] + [CertStore])) ==
            Settled(c, s, FoundUid(uid))
  {
    var fetch := CertFetch(RowOf(s.reg.db.table, key, uid));
    var s1 := s.(loader := s.loader.(at := KeyMissed(key)));
    var s2 := s.(loader := s.loader.(at := KeyFetched(key, uid)));
    ProbeMisses(c, max, s, key);
    Next(c, max, s, CertProbe, [fetch] + [CertStore]);
    Next(c, max, s1, fetch, [CertStore]);
    Last(c, max, s2, CertStore);
  }

  lemma UnresolvedCertRuns(c: Crypto, max: nat, s: State, key: Bytes, e: Event, f: Found)
    requires AtNext(s) && CertificateKey(c, NextCert(s)) == Some(key) && Base64.EncodeToString(key) !in s.uidCache
    requires (e == CertFault && f == Faulted) || (e == CertNoRow && f == NoRow && !KeyInTable(s.reg.db.table, key))
    ensures Continue(c, max, s, [CertProbe] + [e]) == Settled(c, s, f)
  {
    var s1 := s.(loader := s.loader.(at := KeyMissed(key)));
    ProbeMisses(c, max, s, key);
    Next(c, max, s, CertProbe, [e]);
    Last(c, max, s1, e);
  }

  lemma CertRuns(c: Crypto, max: nat, s: State, fault: Fault, f: Found)
    requires AtNext(s) && CertAnswer(c, s.reg.db.table, s.uidCache, NextCert(s), fault, f)
    ensures Continue(c, max, s, CertSteps(c, s.reg.db.table, s.uidCache, NextCert(s), f)) == Settled(c, s, f)
  {
    var table, key := s.reg.db.table, CertificateKey(c, NextCert(s));
    if key.None? || Base64.EncodeToString(key.value) in s.uidCache {
      ProbedCertRuns(c, max, s, fault, f);
    } else {
      match f
      case FoundUid(uid) => FetchedCertRuns(c, max, s, key.value, uid);
      case NoRow =>
        assert forall i | 0 <= i < |table| && table[i].publicKey == key.value :: HasKey(table, key.value, table[i].uid);
        UnresolvedCertRuns(c, max, s, key.value, CertNoRow, NoRow);
      case Faulted => UnresolvedCertRuns(c, max, s, key.value, CertFault, Faulted);
    }
  }

  ghost function MatchSteps(c: Crypto, table: seq<Identity>, cache: UidCache, certs: seq<Certificate>,
                            found: seq<Found>): seq<Event>
    requires |found| <= |certs|
  {
    if found == [] then []
    else
      var n := |found| - 1;
      MatchSteps(c, table, cache, certs, found[..n]) +
      CertSteps(c, table, CacheAfter(c, cache, certs, found[..n]), certs[n], found[n])
  }

  /** The loop has resolved the certificates up to `|found|`. */
  function Matched(c: Crypto, s: State, certs: seq<Certificate>, found: seq<Found>, begun: nat): State
    requires |found| <= |certs|
  {
    s.(uidCache := CacheAfter(c, s.uidCache, certs, found),
       loader := Loading(false, certs, found, Matches(certs, found), AtCertificate, begun))
  }

  lemma OneMoreMatched(c: Crypto, s: State, certs: seq<Certificate>, init: seq<Found>, f: Found, begun: nat)
    requires |init| < |certs|
    ensures Settled(c, Matched(c, s, certs, init, begun), f) == Matched(c, s, certs, init + [f], begun)
  {
    CacheAfterMore(c, s.uidCache, certs, init, f);
    assert (init + [f])[..|init|] == init;
  }

  lemma {:induction false} MatchingRuns(c: Crypto, max: nat, s: State, certs: seq<Certificate>, faults: nat -> Fault,
                                        found: seq<Found>, begun: nat)
    requires |found| <= |certs| && CertAnswers(c, s.reg.db.table, s.uidCache, certs, faults, found)
    ensures var steps := MatchSteps(c, s.reg.db.table, s.uidCache, certs, found);
            Continue(c, max, Matched(c, s, certs, [], begun), steps) == Matched(c, s, certs, found, begun)
  {
    if found != [] {
      var n := |found| - 1;
      var init, table := found[..n], s.reg.db.table;
      var mid := Matched(c, s, certs, init, begun);
      AnswersOfPrefix(c, table, s.uidCache, certs, faults, found);
      MatchingRuns(c, max, s, certs, faults, init, begun);
      ContinueAppend(c, max, Matched(c, s, certs, [], begun), MatchSteps(c, table, s.uidCache, certs, init),
                     CertSteps(c, table, mid.uidCache, certs[n], found[n]));
      CertRuns(c, max, mid, faults(n), found[n]);
      OneMoreMatched(c, s, certs, init, found[n], begun);
      SplitLast(found);
    }
  }

  ghost function LoadSteps(c: Crypto, max: nat, s: State, reply: Option<seq<Certificate>>, load: Load): seq<Event>
    requires load.Loaded? ==> |load.found| <= |load.certs|
  {
    if load.Loaded?
    then [LoadBegin(reply)] + (MatchSteps(c, s.reg.db.table, s.uidCache, load.certs, load.found) + [LoadEnd])
    else if s.lookup.failures + 1 != max then [LoadBegin(reply)]
    else [LoadBegin(reply)] + [LoadEnd]
  }

  /** What the contract of `LoadSKIDs` says about the load it returns. */
  ghost predicate LoadAnswers(c: Crypto, s: State, reply: Option<seq<Certificate>>, faults: nat -> Fault, load: Load)
  {
    && (load.Loaded? <==> reply.Some?)
    && (load.Loaded? ==>
          && load.certs == reply.value && |load.found| == |load.certs| && load.begun == |s.reg.db.table|
          && CertAnswers(c, s.reg.db.table, s.uidCache, load.certs, faults, load.found))
  }

  lemma FailedLoadRuns(c: Crypto, max: nat, s: State)
    requires s.loader.Idle?
    ensures Continue(c, max, s, LoadSteps(c, max, s, None, FailedLoad)) ==
            s.(lookup := AfterLoad(s.lookup, FailedLoad, max), history := s.history + [FailedLoad])
  {
    var begun := Step(c, max, s, LoadBegin(None));
    if s.lookup.failures + 1 != max {
      Last(c, max, s, LoadBegin(None));
    } else {
      Next(c, max, s, LoadBegin(None), [LoadEnd]);
      Last(c, max, begun, LoadEnd);
    }
  }

  lemma CompleteLoadRuns(c: Crypto, max: nat, s: State, faults: nat -> Fault, load: Load)
    requires s.loader.Idle? && load.Loaded? && LoadAnswers(c, s, Some(load.certs), faults, load)
    ensures Continue(c, max, s, LoadSteps(c, max, s, Some(load.certs), load)) ==
            s.(uidCache := CacheAfter(c, s.uidCache, load.certs, load.found),
               lookup := AfterLoad(s.lookup, load, max), history := s.history + [load])
  {
    var begin := LoadBegin(Some(load.certs));
    var reset := s.(lookup := s.lookup.(failures := 0));
    var steps := MatchSteps(c, s.reg.db.table, s.uidCache, load.certs, load.found);
    var matching := Matched(c, reset, load.certs, [], load.begun);
    Next(c, max, s, begin, steps + [LoadEnd]);
    MatchingBegins(c, max, s, load.certs);
    MatchingRuns(c, max, reset, load.certs, faults, load.found, load.begun);
    ContinueAppend(c, max, matching, steps, [LoadEnd]);
    MatchingEnds(c, max, s, load);
  }

  lemma MatchingBegins(c: Crypto, max: nat, s: State, certs: seq<Certificate>)
    requires s.loader.Idle?
    ensures Step(c, max, s, LoadBegin(Some(certs))) ==
            Matched(c, s.(lookup := s.lookup.(failures := 0)), certs, [], |s.reg.db.table|)
  {
  }

  lemma MatchingEnds(c: Crypto, max: nat, s: State, load: Load)
    requires s.loader.Idle? && load.Loaded? && |load.found| == |load.certs|
    ensures var reset := s.(lookup := s.lookup.(failures := 0));
            Continue(c, max, Matched(c, reset, load.certs, load.found, load.begun), [LoadEnd]) ==
            s.(uidCache := CacheAfter(c, s.uidCache, load.certs, load.found),
               lookup := AfterLoad(s.lookup, load, max), history := s.history + [load])
  {
    var reset := s.(lookup := s.lookup.(failures := 0));
    Last(c, max, Matched(c, reset, load.certs, load.found, load.begun), LoadEnd);
  }

  /**
   * `LoadSKIDs` is a run: whatever load it returns, the cache, the store and the counter that its
   * contract names are those of a load with the same result that no other event interrupts.
   */
  lemma LoadSKIDsIsARun(c: Crypto, max: nat, s: State, reply: Option<seq<Certificate>>, faults: nat -> Fault,
                        load: Load)
    requires s.loader.Idle? && LoadAnswers(c, s, reply, faults, load)
    ensures var s' := Continue(c, max, s, LoadSteps(c, max, s, reply, load));
            && s'.lookup == AfterLoad(s.lookup, load, max)
            && s'.uidCache == (if load.Loaded? then CacheAfter(c, s.uidCache, load.certs, load.found) else s.uidCache)
            && s' == s.(uidCache := s'.uidCache, lookup := s'.lookup, history := s.history + [load])
  {
    if load.Loaded? {
      CompleteLoadRuns(c, max, s, faults, load);
    } else {
      FailedLoadRuns(c, max, s);
    }
  }
}
