/** What the two caches may hold, given the table below them, and what lookups through them yield. */
module Caches {
  import opened Prelude
  import opened CryptoLib
  import opened Identities
  import opened Database
  import opened DatabaseAccess
  import opened Skids
  import Base64

  type IdentityCache = map<Uuid, Identity>
  type UidCache = map<Bytes, Uuid>   // keyed by the base64 text of the public key

  /** `id` is the decoded form of the committed row for `uid`. */
  ghost predicate IsStored(c: Crypto, table: seq<Identity>, uid: Uuid, id: Identity)
  {
    FindUid(table, uid).Some? && DecodeRow(c, FindUid(table, uid).value) == Some(id)
  }

  ghost predicate IdentityCacheSound(c: Crypto, table: seq<Identity>, cache: IdentityCache)
  {
    forall uid | uid in cache :: IsStored(c, table, uid, cache[uid])
  }

  /** Some committed row has this key and this uid. */
  ghost predicate HasKey(table: seq<Identity>, publicKey: Bytes, uid: Uuid)
  {
    exists i | 0 <= i < |table| :: table[i].publicKey == publicKey && table[i].uid == uid
  }

  ghost predicate CachedKey(table: seq<Identity>, text: Bytes, uid: Uuid)
  {
    exists i | 0 <= i < |table| :: Base64.EncodeToString(table[i].publicKey) == text && table[i].uid == uid
  }

  ghost predicate UidCacheSound(table: seq<Identity>, cache: UidCache)
  {
    forall text | text in cache :: CachedKey(table, text, cache[text])
  }

  /** A cached answer is one the query could give; base64 texts never merge two keys. */
  lemma CachedAnswer(table: seq<Identity>, cache: UidCache, publicKey: Bytes)
    requires UidCacheSound(table, cache) && Base64.EncodeToString(publicKey) in cache
    ensures HasKey(table, publicKey, cache[Base64.EncodeToString(publicKey)])
  {
    var text := Base64.EncodeToString(publicKey);
    assert CachedKey(table, text, cache[text]);
    var i :| 0 <= i < |table| && Base64.EncodeToString(table[i].publicKey) == text && table[i].uid == cache[text];
    Base64.EncodeInjective(table[i].publicKey, publicKey);
  }

  ghost predicate DistinctKeys(table: seq<Identity>)
  {
    forall i, j | 0 <= i < j < |table| :: table[i].publicKey != table[j].publicKey
  }

  /** When the stored keys are distinct, the cached answer is the only one the query could give. */
  lemma CachedAnswerUnique(table: seq<Identity>, cache: UidCache, publicKey: Bytes, uid: Uuid)
    requires UidCacheSound(table, cache) && Base64.EncodeToString(publicKey) in cache
    requires DistinctKeys(table)
    ensures HasKey(table, publicKey, uid) <==> uid == cache[Base64.EncodeToString(publicKey)]
  {
    CachedAnswer(table, cache, publicKey);
  }

  lemma {:induction false} FindUidGrows(table: seq<Identity>, more: seq<Identity>, uid: Uuid)
    requires FindUid(table, uid).Some?
    ensures FindUid(table + more, uid) == FindUid(table, uid)
  {
    if table[0].uid != uid {
      FindUidGrows(table[1..], more, uid);
      assert (table + more)[1..] == table[1..] + more;
    }
  }

  /** Rows are only ever appended, so whatever is cached stays true. */
  lemma CachesSurviveCommits(c: Crypto, table: seq<Identity>, more: seq<Identity>, ids: IdentityCache, uids: UidCache)
    requires IdentityCacheSound(c, table, ids) && UidCacheSound(table, uids)
    ensures IdentityCacheSound(c, table + more, ids) && UidCacheSound(table + more, uids)
  {
    forall uid | uid in ids ensures IsStored(c, table + more, uid, ids[uid]) {
      assert IsStored(c, table, uid, ids[uid]);
      FindUidGrows(table, more, uid);
    }
    forall text | text in uids ensures CachedKey(table + more, text, uids[text]) {
      assert CachedKey(table, text, uids[text]);
      var i :| 0 <= i < |table| && Base64.EncodeToString(table[i].publicKey) == text && table[i].uid == uids[text];
      assert (table + more)[i] == table[i];
    }
  }

  // ---------- Lookups ----------

  /** What the table, or the fault that counts, makes of a query for a uid. */
  function TableAnswer(c: Crypto, table: seq<Identity>, uid: Uuid, fault: Fault): Result<Identity, DbError>
  {
    if !fault.NoFault? then Err(FaultError(fault))
    else
      match FindUid(table, uid)
      case None => Err(NotExist)
      case Some(row) =>
        match DecodeRow(c, row)
        case None => Err(DbFailure)
        case Some(id) => Ok(id)
  }

  function LookupIdentity(c: Crypto, table: seq<Identity>, cache: IdentityCache, uid: Uuid, fault: Fault):
      Result<Identity, DbError>
  {
    if uid in cache then Ok(cache[uid]) else TableAnswer(c, table, uid, fault)
  }

  /** Only answers are cached, never a miss. */
  function CacheAnswer(cache: IdentityCache, uid: Uuid, r: Result<Identity, DbError>): IdentityCache
  {
    if r.Ok? then cache[uid := r.value] else cache
  }

  /** A lookup gives the decoded row, and a uid is unknown only if the table has no row for it. */
  lemma LookupIdentityIsStored(c: Crypto, table: seq<Identity>, cache: IdentityCache, uid: Uuid, fault: Fault)
    requires IdentityCacheSound(c, table, cache)
    ensures var r := LookupIdentity(c, table, cache, uid, fault);
            && (r.Ok? ==> IsStored(c, table, uid, r.value))
            && (r == Err(NotExist) ==> !HasUid(table, uid))
            && (fault.NoFault? && !HasUid(table, uid) ==> r == Err(NotExist))
            && (fault.NoFault? && HasUid(table, uid) && DecodeRow(c, FindUid(table, uid).value).Some? ==> r.Ok?)
            && IdentityCacheSound(c, table, CacheAnswer(cache, uid, r))
  {
    if uid in cache { assert IsStored(c, table, uid, cache[uid]); }
  }

  /** Cached or not, what is found is the decoded row, which a broken database hides unless it is cached. */
  lemma LookupIsTheRow(c: Crypto, table: seq<Identity>, cache: IdentityCache, uid: Uuid, fault: Fault)
    requires IdentityCacheSound(c, table, cache)
    ensures var r, row := LookupIdentity(c, table, cache, uid, fault), FindUid(table, uid);
            var id := if row.Some? && (uid in cache || fault.NoFault?) then DecodeRow(c, row.value) else None;
            && (id.Some? ==> r == Ok(id.value))
            && (id.None? ==> r.Err? && (r.error == NotExist <==> fault.NoFault? && row.None?))
  {
    if uid in cache { assert IsStored(c, table, uid, cache[uid]); }
  }

  /** The answers a query for a public key may give: any row with the key will do. */
  ghost predicate KeyAnswer(table: seq<Identity>, key: Bytes, fault: Fault, r: Result<Uuid, DbError>)
  {
    if !fault.NoFault? then r == Err(FaultError(fault))
    else if r.Ok? then HasKey(table, key, r.value)
    else r.error == NotExist && forall uid :: !HasKey(table, key, uid)
  }

  /** The same through the cache, which is asked first. */
  ghost predicate UidAnswer(table: seq<Identity>, cache: UidCache, key: Bytes, fault: Fault, r: Result<Uuid, DbError>)
  {
    var text := Base64.EncodeToString(key);
    if text in cache then r == Ok(cache[text]) else KeyAnswer(table, key, fault, r)
  }

  function CacheUid(c: Crypto, cache: UidCache, cert: Certificate, found: Found): UidCache
  {
    if found.FoundUid? && CertificateKey(c, cert).Some?
    then cache[Base64.EncodeToString(CertificateKey(c, cert).value) := found.uid] else cache
  }

  /** What the lookup of a certificate's key may yield. */
  ghost predicate CertAnswer(c: Crypto, table: seq<Identity>, cache: UidCache, cert: Certificate, fault: Fault,
                             found: Found)
  {
    match CertificateKey(c, cert)
    case None => found == NoKey
    case Some(key) =>
      match found
      case FoundUid(uid) => UidAnswer(table, cache, key, fault, Ok(uid))
      case NoKey => false
      case NoRow => UidAnswer(table, cache, key, fault, Err(NotExist))
      case Faulted => Base64.EncodeToString(key) !in cache && !fault.NoFault?
  }

  /** The fault that counts for each certificate. */
  function Effects(faults: nat -> nat -> Fault): nat -> Fault
  {
    (i: nat) => FaultAfterRetries(faults(i), 0)
  }

  /** The uid cache after certificates have been looked up one after the other. */
  function CacheAfter(c: Crypto, cache: UidCache, certs: seq<Certificate>, found: seq<Found>): UidCache
    requires |found| <= |certs|
  {
    if found == [] then cache
    else
      var n := |found| - 1;
      CacheUid(c, CacheAfter(c, cache, certs, found[..n]), certs[n], found[n])
  }

  /** Each certificate was looked up with the cache that the ones before it left behind. */
  ghost predicate CertAnswers(c: Crypto, table: seq<Identity>, cache: UidCache, certs: seq<Certificate>,
                              faults: nat -> Fault, found: seq<Found>)
    requires |found| <= |certs|
  {
    forall i | 0 <= i < |found| ::
      CertAnswer(c, table, CacheAfter(c, cache, certs, found[..i]), certs[i], faults(i), found[i])
  }

  lemma CacheAfterMore(c: Crypto, cache: UidCache, certs: seq<Certificate>, init: seq<Found>, f: Found)
    requires |init| < |certs|
    ensures CacheAfter(c, cache, certs, init + [f]) == CacheUid(c, CacheAfter(c, cache, certs, init), certs[|init|], f)
  {
    assert (init + [f])[..|init|] == init;
  }

  lemma OneMoreAnswer(c: Crypto, table: seq<Identity>, cache: UidCache, certs: seq<Certificate>,
                      faults: nat -> Fault, found: seq<Found>, f: Found)
    requires |found| < |certs| && CertAnswers(c, table, cache, certs, faults, found)
    requires CertAnswer(c, table, CacheAfter(c, cache, certs, found), certs[|found|], faults(|found|), f)
    ensures CertAnswers(c, table, cache, certs, faults, found + [f])
  {
    var more := found + [f];
    assert more[..|found|] == found;
    forall i | 0 <= i < |more|
      ensures CertAnswer(c, table, CacheAfter(c, cache, certs, more[..i]), certs[i], faults(i), more[i])
    {
      if i < |found| { assert more[..i] == found[..i]; }
    }
  }

  /** What a lookup says about the table: why it found nothing, and that what it found has the key. */
  ghost predicate Explained(c: Crypto, table: seq<Identity>, cert: Certificate, fault: Fault, found: Found)
  {
    && (found.NoKey? <==> CertificateKey(c, cert).None?)
    && (found.FoundUid? ==> HasKey(table, CertificateKey(c, cert).value, found.uid))
    && (found.NoRow? ==> forall uid :: !HasKey(table, CertificateKey(c, cert).value, uid))
    && (found.Faulted? ==> !fault.NoFault?)
  }

  lemma AnswerIsExplained(c: Crypto, table: seq<Identity>, cache: UidCache, cert: Certificate, fault: Fault,
                          found: Found)
    requires UidCacheSound(table, cache) && CertAnswer(c, table, cache, cert, fault, found)
    ensures Explained(c, table, cert, fault, found)
    ensures UidCacheSound(table, CacheUid(c, cache, cert, found))
  {
    if CertificateKey(c, cert).Some? {
      var key := CertificateKey(c, cert).value;
      var text := Base64.EncodeToString(key);
      if text in cache { CachedAnswer(table, cache, key); }
      if found.FoundUid? { assert CachedKey(table, text, found.uid); }
    }
  }

  lemma AnswersOfPrefix(c: Crypto, table: seq<Identity>, cache: UidCache, certs: seq<Certificate>,
                        faults: nat -> Fault, found: seq<Found>)
    requires 0 < |found| <= |certs| && CertAnswers(c, table, cache, certs, faults, found)
    ensures var n := |found| - 1;
            && CertAnswers(c, table, cache, certs, faults, found[..n])
            && CertAnswer(c, table, CacheAfter(c, cache, certs, found[..n]), certs[n], faults(n), found[n])
  {
    var init := found[..|found| - 1];
    forall i | 0 <= i < |init|
      ensures CertAnswer(c, table, CacheAfter(c, cache, certs, init[..i]), certs[i], faults(i), init[i])
    {
      assert init[..i] == found[..i];
    }
  }

  ghost predicate AllExplained(c: Crypto, table: seq<Identity>, certs: seq<Certificate>, faults: nat -> Fault,
                               found: seq<Found>)
    requires |found| <= |certs|
  {
    forall i | 0 <= i < |found| :: Explained(c, table, certs[i], faults(i), found[i])
  }

  lemma OneMoreExplained(c: Crypto, table: seq<Identity>, certs: seq<Certificate>, faults: nat -> Fault,
                         init: seq<Found>, f: Found)
    requires |init| < |certs| && AllExplained(c, table, certs, faults, init)
    requires Explained(c, table, certs[|init|], faults(|init|), f)
    ensures AllExplained(c, table, certs, faults, init + [f])
  {
  }

  lemma OneMoreIsExplained(c: Crypto, table: seq<Identity>, cache: UidCache, certs: seq<Certificate>,
                           faults: nat -> Fault, init: seq<Found>, f: Found)
    requires |init| < |certs| && UidCacheSound(table, CacheAfter(c, cache, certs, init))
    requires AllExplained(c, table, certs, faults, init)
    requires CertAnswer(c, table, CacheAfter(c, cache, certs, init), certs[|init|], faults(|init|), f)
    ensures UidCacheSound(table, CacheAfter(c, cache, certs, init + [f]))
    ensures AllExplained(c, table, certs, faults, init + [f])
  {
    AnswerIsExplained(c, table, CacheAfter(c, cache, certs, init), certs[|init|], faults(|init|), f);
    OneMoreExplained(c, table, certs, faults, init, f);
    CacheAfterMore(c, cache, certs, init, f);
  }

  lemma SplitLast(found: seq<Found>)
    requires found != []
    ensures found == found[..|found| - 1] + [found[|found| - 1]]
  {
  }

  /** Looking up a whole list: every result is explained by the table, and the cache stays sound. */
  lemma {:induction false} AnswersAreExplained(c: Crypto, table: seq<Identity>, cache: UidCache,
                                               certs: seq<Certificate>, faults: nat -> Fault, found: seq<Found>)
    requires |found| <= |certs| && UidCacheSound(table, cache) && CertAnswers(c, table, cache, certs, faults, found)
    ensures UidCacheSound(table, CacheAfter(c, cache, certs, found))
    ensures AllExplained(c, table, certs, faults, found)
  {
    if found != [] {
      var init, f := found[..|found| - 1], found[|found| - 1];
      AnswersOfPrefix(c, table, cache, certs, faults, found);
      AnswersAreExplained(c, table, cache, certs, faults, init);
      OneMoreIsExplained(c, table, cache, certs, faults, init, f);
      SplitLast(found);
    }
  }
}

/** The caches and the SKID lookup in front of the database, updated in place. */
module ProtocolObject {
  import opened Prelude
  import opened CryptoLib
  import opened Identities
  import opened Database
  import opened DatabaseAccess
  import opened Caches
  import opened Skids
  import Base64

  class Protocol {
    const c: Crypto
    const ctxManager: DatabaseManager
    const maxCertLoadFailCount: nat

    var identityCache: IdentityCache
    var uidCache: UidCache
    var skidStore: SkidStore
    var certLoadFailCounter: nat

    ghost predicate Valid()
      reads this, ctxManager
    {
      && ctxManager.Valid()
      && IdentityCacheSound(c, ctxManager.table, identityCache)
      && UidCacheSound(ctxManager.table, uidCache)
    }

    constructor (c: Crypto, ctxManager: DatabaseManager, reloadCertsEveryMinute: bool)
      requires ctxManager.Valid()
      ensures Valid() && this.c == c && this.ctxManager == ctxManager
      ensures identityCache == map[] && uidCache == map[] && skidStore == map[] && certLoadFailCounter == 0
      ensures maxCertLoadFailCount == if reloadCertsEveryMinute then 60 else 3
    {
      this.c, this.ctxManager := c, ctxManager;
      maxCertLoadFailCount := if reloadCertsEveryMinute then 60 else 3;
      identityCache, uidCache, skidStore, certLoadFailCounter := map[], map[], map[], 0;
    }

    method StartTransaction(faults: nat -> Fault) returns (tx: Result<TxId, DbError>)
      requires Valid()
      modifies ctxManager
      ensures Valid() && ctxManager.table == old(ctxManager.table)
      ensures var fault := FaultAfterRetries(faults, 0);
              if fault.NoFault?
              then tx.Ok? && tx.value !in old(ctxManager.open)
                   && ctxManager.open == old(ctxManager.open)[tx.value := Active([])]
              else tx == Err(FaultError(fault)) && ctxManager.open == old(ctxManager.open)
    {
      tx := Err(DbFailure);
      var i := 0;
      while i < MAX_DB_CONN_ATTEMPTS
        invariant 0 <= i < MAX_DB_CONN_ATTEMPTS || (i == MAX_DB_CONN_ATTEMPTS && tx == Err(ConnectionNotAvailable))
        invariant Valid() && ctxManager.table == old(ctxManager.table) && ctxManager.open == old(ctxManager.open)
        invariant i < MAX_DB_CONN_ATTEMPTS ==> FaultAfterRetries(faults, 0) == FaultAfterRetries(faults, i)
        invariant i == MAX_DB_CONN_ATTEMPTS ==> FaultAfterRetries(faults, 0).ConnectionLimit?
      {
        tx := ctxManager.StartTransaction(faults(i));
        if tx == Err(ConnectionNotAvailable) {
          i := i + 1;
          continue;
        }
        break;
      }
    }

    method StoreNewIdentity(tx: TxId, id: Identity, rnd: Bytes, fault: Fault, moves: seq<Move>)
        returns (r: InsertOutcome)
      requires Valid()
      modifies ctxManager
      ensures Valid()
      ensures var row, db := EncodeIdentity(c, id, rnd), old(ctxManager.State());
              if row.None? then r.Refused? && ctxManager.State() == db
              else if !fault.NoFault?
              then r.Refused? && ctxManager.State() == (if tx in db.open then Abort(db, tx) else db)
              else ctxManager.State() == Insert(Waited(db, tx, id.uid, moves), tx, row.value)
      ensures r.Inserted? <==>
              && id.uid != [0, 0, 0, 0, 0, 0, 0, 0, 0, 0, 0, 0, 0, 0, 0, 0]
              && id.privateKey != [] && id.publicKey != [] && id.authToken != []
              && c.encrypt(id.privateKey, rnd).Some? && c.pemToBytes(id.publicKey).Some? && fault.NoFault?
              && tx in old(ctxManager.open) && old(ctxManager.open)[tx].Active?
              && !HasUid(old(ctxManager.open)[tx].rows, id.uid)
              && Free(Settle(Rollback(old(ctxManager.State()), tx), id.uid, moves), id.uid)
      ensures r.Inserted? ==>
              && tx in ctxManager.open
              && ctxManager.open[tx] == Active(old(ctxManager.open)[tx].rows +
                   [Identity(id.uid, c.encrypt(id.privateKey, rnd).value, c.pemToBytes(id.publicKey).value,
                             id.authToken)])
    {
      if EncodeIdentity(c, id, rnd).Some? {
        EncodeIdentityIff(c, id, rnd, EncodeIdentity(c, id, rnd).value);
      }
      var row := EncodeIdentity(c, id, rnd);
      if row.None? { return Refused; }
      ghost var table := ctxManager.table;
      r := ctxManager.StoreNewIdentity(tx, row.value, fault, moves);
      ghost var more := ctxManager.table[|table|..];
      assert ctxManager.table == table + more;
      CachesSurviveCommits(c, table, more, identityCache, uidCache);
    }

    method FetchIdentityFromStorage(uid: Uuid, faults: nat -> Fault) returns (r: Result<Identity, DbError>)
      ensures r == TableAnswer(c, ctxManager.table, uid, FaultAfterRetries(faults, 0))
      ensures var row, fault := FindUid(ctxManager.table, uid), FaultAfterRetries(faults, 0);
              && (r == Err(NotExist) <==> fault.NoFault? && row.None?)
              && forall id :: r == Ok(id) <==>
                   && fault.NoFault? && row.Some?
                   && c.decrypt(row.value.privateKey) == Some(id.privateKey)
                   && c.bytesToPem(row.value.publicKey) == Some(id.publicKey)
                   && id.uid == uid != [0, 0, 0, 0, 0, 0, 0, 0, 0, 0, 0, 0, 0, 0, 0, 0]
                   && id.authToken == row.value.authToken
                   && id.privateKey != [] && id.publicKey != [] && id.authToken != []
    {
      r := Err(DbFailure);
      var i := 0;
      while i < MAX_DB_CONN_ATTEMPTS
        invariant 0 <= i < MAX_DB_CONN_ATTEMPTS || (i == MAX_DB_CONN_ATTEMPTS && r == Err(ConnectionNotAvailable))
        invariant i < MAX_DB_CONN_ATTEMPTS ==> FaultAfterRetries(faults, 0) == FaultAfterRetries(faults, i)
        invariant i == MAX_DB_CONN_ATTEMPTS ==> FaultAfterRetries(faults, 0).ConnectionLimit?
      {
        r := ctxManager.GetIdentity(uid, faults(i));
        if r == Err(ConnectionNotAvailable) {
          i := i + 1;
          continue;
        }
        break;
      }
      if r.Err? { return; }
      var id := DecodeRow(c, r.value);
      r := if id.Some? then Ok(id.value) else Err(DbFailure);
    }

    /** Answers from the cache or the table, and never caches a miss. */
    method GetIdentity(uid: Uuid, faults: nat -> Fault) returns (r: Result<Identity, DbError>)
      requires Valid()
      modifies this`identityCache
      ensures Valid()
      ensures r == LookupIdentity(c, ctxManager.table, old(identityCache), uid, FaultAfterRetries(faults, 0))
      ensures identityCache == CacheAnswer(old(identityCache), uid, r)
      ensures r.Ok? ==>
              var row := FindUid(ctxManager.table, uid);
              && row.Some? && r.value.uid == uid && r.value.authToken == row.value.authToken
              && c.decrypt(row.value.privateKey) == Some(r.value.privateKey)
              && c.bytesToPem(row.value.publicKey) == Some(r.value.publicKey)
      ensures r.Ok? ==> IsStored(c, ctxManager.table, uid, r.value)
      ensures r == Err(NotExist) ==> !HasUid(ctxManager.table, uid)
      ensures uid in old(identityCache) ==> r == Ok(old(identityCache)[uid])
      ensures FaultAfterRetries(faults, 0).NoFault? && !HasUid(ctxManager.table, uid) ==> r == Err(NotExist)
      ensures (&& FaultAfterRetries(faults, 0).NoFault? && HasUid(ctxManager.table, uid)
               && DecodeRow(c, FindUid(ctxManager.table, uid).value).Some?) ==> r.Ok?
    {
      LookupIdentityIsStored(c, ctxManager.table, identityCache, uid, FaultAfterRetries(faults, 0));
      if uid in identityCache {
        assert identityCache == identityCache[uid := identityCache[uid]];
        return Ok(identityCache[uid]);
      }
      r := FetchIdentityFromStorage(uid, faults);
      if r.Ok? { identityCache := identityCache[uid := r.value]; }
    }

    method Exists(uid: Uuid, faults: nat -> Fault) returns (r: Result<bool, DbError>)
      requires Valid()
      modifies this`identityCache
      ensures Valid()
      ensures r.Ok? ==> (r.value <==> HasUid(ctxManager.table, uid))
      ensures FaultAfterRetries(faults, 0).NoFault? && !HasUid(ctxManager.table, uid) ==> r == Ok(false)
      ensures (&& FaultAfterRetries(faults, 0).NoFault? && HasUid(ctxManager.table, uid)
               && DecodeRow(c, FindUid(ctxManager.table, uid).value).Some?) ==> r == Ok(true)
    {
      LookupIdentityIsStored(c, ctxManager.table, identityCache, uid, FaultAfterRetries(faults, 0));
      var id := GetIdentity(uid, faults);
      r := if id == Err(NotExist) then Ok(false) else if id.Err? then Err(id.error) else Ok(true);
    }

    method FetchUuidForPublicKeyFromStorage(publicKey: Bytes, faults: nat -> Fault) returns (r: Result<Uuid, DbError>)
      ensures KeyAnswer(ctxManager.table, publicKey, FaultAfterRetries(faults, 0), r)
    {
      r := Err(DbFailure);
      var i := 0;
      while i < MAX_DB_CONN_ATTEMPTS
        invariant 0 <= i < MAX_DB_CONN_ATTEMPTS || (i == MAX_DB_CONN_ATTEMPTS && r == Err(ConnectionNotAvailable))
        invariant i < MAX_DB_CONN_ATTEMPTS ==> FaultAfterRetries(faults, 0) == FaultAfterRetries(faults, i)
        invariant i == MAX_DB_CONN_ATTEMPTS ==> FaultAfterRetries(faults, 0).ConnectionLimit?
      {
        r := ctxManager.GetUuidForPublicKey(publicKey, faults(i));
        if r == Err(ConnectionNotAvailable) {
          i := i + 1;
          continue;
        }
        break;
      }
    }

    method GetUuidForPublicKey(pem: Bytes, faults: nat -> Fault) returns (r: Result<Uuid, DbError>)
      requires Valid()
      modifies this`uidCache
      ensures Valid()
      ensures match c.pemToBytes(pem)
              case None => r == Err(DbFailure)
              case Some(key) => UidAnswer(ctxManager.table, old(uidCache), key, FaultAfterRetries(faults, 0), r)
      ensures r.Ok? ==> HasKey(ctxManager.table, c.pemToBytes(pem).value, r.value)
      ensures uidCache == if r.Ok? then old(uidCache)[Base64.EncodeToString(c.pemToBytes(pem).value) := r.value]
                          else old(uidCache)
    {
      var publicKey := c.pemToBytes(pem);
      if publicKey.None? { return Err(DbFailure); }
      var text := Base64.EncodeToString(publicKey.value);
      if text in uidCache {
        CachedAnswer(ctxManager.table, uidCache, publicKey.value);
        assert uidCache == uidCache[text := uidCache[text]];
        return Ok(uidCache[text]);
      }
      r := FetchUuidForPublicKeyFromStorage(publicKey.value, faults);
      if r.Ok? {
        uidCache := uidCache[text := r.value];
        assert CachedKey(ctxManager.table, text, r.value);
      }
    }

    method GetSKID(uid: Uuid) returns (skid: Option<Bytes>)
      ensures skid.Some? <==> uid in skidStore
      ensures skid.Some? ==> skid.value == skidStore[uid]
    {
      skid := if uid in skidStore then Some(skidStore[uid]) else None;
    }

    /** The body of the matching loop: looks the certificate's key up and adds its kid to the new store. */
    method MatchCertificate(cert: Certificate, store: SkidStore, faults: nat -> Fault)
        returns (newStore: SkidStore, found: Found)
      requires Valid()
      modifies this`uidCache
      ensures Valid()
      ensures CertAnswer(c, ctxManager.table, old(uidCache), cert, FaultAfterRetries(faults, 0), found)
      ensures uidCache == CacheUid(c, old(uidCache), cert, found)
      ensures newStore == AddMatch(store, cert, found)
    {
      newStore, found := store, NoKey;
      var pem := c.certKey(cert.rawData);
      if pem.None? { return; }
      var uid := GetUuidForPublicKey(pem.value, faults);
      if uid.Err? {
        if c.pemToBytes(pem.value).Some? { found := if uid.error.NotExist? then NoRow else Faulted; }
        return;
      }
      found := FoundUid(uid.value);
      if |cert.kid| == SKID_LEN { newStore := store[uid.value := cert.kid]; }
    }

    /** `reply` is the certificate list, if it could be loaded; `faults(i)` concerns the i-th certificate. */
    method LoadSKIDs(reply: Option<seq<Certificate>>, faults: nat -> nat -> Fault) returns (load: Load)
      requires Valid()
      modifies this`uidCache, this`skidStore, this`certLoadFailCounter
      ensures Valid()
      ensures load.Loaded? <==> reply.Some?
      ensures load.Loaded? ==>
                && load.certs == reply.value && |load.found| == |load.certs| && load.begun == |ctxManager.table|
                && CertAnswers(c, ctxManager.table, old(uidCache), load.certs, Effects(faults), load.found)
                && forall i | 0 <= i < |load.certs| ::
                     Explained(c, ctxManager.table, load.certs[i], FaultAfterRetries(faults(i), 0), load.found[i])
      ensures uidCache == if load.Loaded? then CacheAfter(c, old(uidCache), load.certs, load.found) else old(uidCache)
      ensures Lookup(skidStore, certLoadFailCounter) ==
              AfterLoad(Lookup(old(skidStore), old(certLoadFailCounter)), load, maxCertLoadFailCount)
    {
      var certs: seq<Certificate> := [];
      if reply.None? {
        certLoadFailCounter := certLoadFailCounter + 1;
        if certLoadFailCounter != maxCertLoadFailCount { return FailedLoad; }
      } else {
        certs := reply.value;
        certLoadFailCounter := 0;
      }
      var tempSkidStore: SkidStore := map[];
      var found: seq<Found> := [];
      ghost var effects := Effects(faults);
      while |found| < |certs|
        modifies this`uidCache
        invariant |found| <= |certs| && Valid()
        invariant tempSkidStore == Matches(certs, found)
        invariant CertAnswers(c, ctxManager.table, old(uidCache), certs, effects, found)
        invariant uidCache == CacheAfter(c, old(uidCache), certs, found)
      {
        var i := |found|;
        var uid;
        tempSkidStore, uid := MatchCertificate(certs[i], tempSkidStore, faults(i));
        OneMoreAnswer(c, ctxManager.table, old(uidCache), certs, effects, found, uid);
        CacheAfterMore(c, old(uidCache), certs, found, uid);
        assert (found + [uid])[..i] == found;
        found := found + [uid];
      }
      AnswersAreExplained(c, ctxManager.table, old(uidCache), certs, effects, found);
      skidStore := tempSkidStore;
      load := if reply.None? then FailedLoad else Loaded(certs, found, |ctxManager.table|);
    }
  }
}
