/** Matching of a certificate list against known public keys, and the lookup that survives failed loads. */
module Skids {
  import opened Prelude
  import opened CryptoLib

  const SKID_LEN: nat := 8

  datatype Certificate = Certificate(kid: Bytes, rawData: Bytes)

  type SkidStore = map<Uuid, Bytes>

  function Find(store: SkidStore, uid: Uuid): Option<Bytes>
  {
    if uid in store then Some(store[uid]) else None
  }

  /** The raw public key of a certificate, if it parses and its key can be encoded. */
  function CertificateKey(c: Crypto, cert: Certificate): Option<Bytes>
  {
    var pem :- c.certKey(cert.rawData);
    c.pemToBytes(pem)
  }

  /** What the lookup of a certificate's key yields: a uid, or why there is none. */
  datatype Found =
    | FoundUid(uid: Uuid)
    | NoKey      // the certificate does not parse or its key cannot be encoded
    | NoRow      // no row has the key
    | Faulted    // the database failed

  function AddMatch(store: SkidStore, cert: Certificate, found: Found): SkidStore
  {
    if found.FoundUid? && |cert.kid| == SKID_LEN then store[found.uid := cert.kid] else store
  }

  /** The store built from a list, where `found[i]` is what the lookup of the i-th key yields. */
  function Matches(certs: seq<Certificate>, found: seq<Found>): SkidStore
    requires |found| <= |certs|
  {
    if found == [] then map[]
    else
      var n := |found| - 1;
      AddMatch(Matches(certs, found[..n]), certs[n], found[n])
  }

  predicate MatchAt(certs: seq<Certificate>, found: seq<Found>, uid: Uuid, i: nat)
    requires |found| <= |certs| && i < |found|
  {
    found[i] == FoundUid(uid) && |certs[i].kid| == SKID_LEN
  }

  /**
   * The store knows exactly the uids resolved by some certificate with an 8-byte kid, and gives
   * the kid of the last such certificate.
   */
  lemma {:induction false} MatchesIff(certs: seq<Certificate>, found: seq<Found>, uid: Uuid)
    requires |found| <= |certs|
    ensures uid in Matches(certs, found) <==> exists i | 0 <= i < |found| :: MatchAt(certs, found, uid, i)
    ensures uid in Matches(certs, found) ==>
              exists i | 0 <= i < |found| ::
                && MatchAt(certs, found, uid, i)
                && Matches(certs, found)[uid] == certs[i].kid
                && forall j | i < j < |found| :: !MatchAt(certs, found, uid, j)
  {
    if found != [] {
      var n := |found| - 1;
      var init := found[..n];
      MatchesIff(certs, init, uid);
      assert forall i | 0 <= i < n :: MatchAt(certs, init, uid, i) <==> MatchAt(certs, found, uid, i);
      if MatchAt(certs, found, uid, n) {
      } else if uid in Matches(certs, init) {
        var i :| 0 <= i < n && MatchAt(certs, init, uid, i) && Matches(certs, init)[uid] == certs[i].kid
                 && forall j | i < j < n :: !MatchAt(certs, init, uid, j);
        assert MatchAt(certs, found, uid, i);
      }
    }
  }

  // ---------- The lookup over all loads ----------

  /** `begun` is the number of rows that were committed when the matching began. */
  datatype Load = FailedLoad | Loaded(certs: seq<Certificate>, found: seq<Found>, begun: nat)

  ghost predicate WellFormed(history: seq<Load>)
  {
    forall i | 0 <= i < |history| && history[i].Loaded? :: |history[i].found| <= |history[i].certs|
  }

  datatype Lookup = Lookup(store: SkidStore, failures: nat)

  /** One call of `loadSKIDs`: a failure clears the store only when the counter hits the maximum. */
  function AfterLoad(l: Lookup, load: Load, max: nat): Lookup
    requires load.Loaded? ==> |load.found| <= |load.certs|
  {
    match load
    case Loaded(certs, found, _) => Lookup(Matches(certs, found), 0)
    case FailedLoad => if l.failures + 1 != max then Lookup(l.store, l.failures + 1) else Lookup(map[], l.failures + 1)
  }

  function LookupAfter(history: seq<Load>, max: nat): Lookup
    requires WellFormed(history)
  {
    if history == [] then Lookup(map[], 0)
    else AfterLoad(LookupAfter(history[..|history| - 1], max), history[|history| - 1], max)
  }

  /** Loads that have failed since the last success, or since the start. */
  function TrailingFailures(history: seq<Load>): nat
  {
    if history == [] || history[|history| - 1].Loaded? then 0
    else 1 + TrailingFailures(history[..|history| - 1])
  }

  /** The match result of the last successful load; before any, the empty store. */
  function LastMatches(history: seq<Load>): SkidStore
    requires WellFormed(history)
  {
    if history == [] then map[]
    else
      match history[|history| - 1]
      case Loaded(certs, found, _) => Matches(certs, found)
      case FailedLoad => LastMatches(history[..|history| - 1])
  }

  /**
   * Although the code compares the counter with `!=`, the store is the last match result for every
   * count of consecutive failures below the maximum and stays empty for every count from it on.
   */
  lemma {:induction false} LookupAfterIs(history: seq<Load>, max: nat)
    requires WellFormed(history) && max > 0
    ensures LookupAfter(history, max).failures == TrailingFailures(history)
    ensures LookupAfter(history, max).store ==
            if TrailingFailures(history) < max then LastMatches(history) else map[]
  {
    if history != [] {
      LookupAfterIs(history[..|history| - 1], max);
    }
  }

  /** The last `n` loads have failed, and the one before them, if any, has not. */
  ghost predicate FailedSince(history: seq<Load>, n: nat)
  {
    && n <= |history|
    && (forall i | |history| - n <= i < |history| :: history[i].FailedLoad?)
    && (n < |history| ==> history[|history| - 1 - n].Loaded?)
  }

  lemma {:induction false} TrailingFailuresIs(history: seq<Load>)
    requires WellFormed(history)
    ensures var n := TrailingFailures(history);
            && FailedSince(history, n)
            && LastMatches(history) ==
                 if n == |history| then map[]
                 else Matches(history[|history| - 1 - n].certs, history[|history| - 1 - n].found)
  {
    if history != [] && history[|history| - 1].FailedLoad? {
      TrailingFailuresIs(history[..|history| - 1]);
    }
  }

  lemma SameFailures(history: seq<Load>, n: nat, k: nat)
    requires FailedSince(history, n) && FailedSince(history, k)
    ensures n == k
  {
  }

  /** So with `n` failures since the last good load, the store is that load's as long as `n` is below the maximum. */
  lemma LookupAfterLoads(history: seq<Load>, max: nat, n: nat)
    requires WellFormed(history) && max > 0 && FailedSince(history, n)
    ensures LookupAfter(history, max).failures == n
    ensures LookupAfter(history, max).store ==
            if n < max && n < |history|
            then Matches(history[|history| - 1 - n].certs, history[|history| - 1 - n].found) else map[]
  {
    LookupAfterIs(history, max);
    TrailingFailuresIs(history);
    SameFailures(history, n, TrailingFailures(history));
  }
}
