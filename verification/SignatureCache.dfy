// The runtime signature check and its cache of recent verifications.
module SignatureCache {
  import opened Results

  datatype SigningKey = SigningKey(status: string, publicKey: string)

  datatype Version = Version(
    id: string, extension: string, storageKey: Option<string>, checksum: Option<string>, signature: Option<string>,
    signingKeyId: Option<string>, signingKey: Option<SigningKey>, lifecycle: string)

  datatype Refusal = Unsigned | Revoked | NotPublished | Misplaced | NotAuthentic

  const TTL_MS: int := 300_000

  const CAPACITY: nat := 1000

  // ---------------------------------------------------------------- full verification

  predicate Present(s: Option<string>) {
    s.Some? && s.value != ""
  }

  // Fields that are there must not be empty.
  predicate Complete(v: Version) {
    Present(v.checksum) && Present(v.signature) && Present(v.signingKeyId) && v.signingKey.Some?
  }

  predicate RuntimeState(v: Version) {
    v.lifecycle == "PUBLISHED" || v.lifecycle == "DEPRECATED"
  }

  function PublishedKey(v: Version): string
    requires Complete(v)
  {
    "published/extensions/" + v.extension + "/" + v.id + "/" + v.checksum.value + ".zip"
  }

  // Whether the stored package has the checksum and the signature is one of it is up to the storage
  // and the signature scheme.
  function VerifyPublished(v: Version, authentic: bool): Result<(), Refusal> {
    if !Present(v.storageKey) || !Complete(v) then Err(Unsigned)
    else if v.signingKey.value.status == "REVOKED" then Err(Revoked)
    else if !RuntimeState(v) then Err(NotPublished)
    else if v.storageKey.value != PublishedKey(v) then Err(Misplaced)
    else if !authentic then Err(NotAuthentic)
    else Ok(())
  }

  predicate Missing(s: Option<string>) {
    s == None || s.value == ""
  }

  // A package is verified exactly when its storage key, checksum, signature and signing key are there and
  // not empty, the signing key is not revoked, the version is published or deprecated, the package is
  // stored under the key that its checksum gives, and the signature is one of what is stored there. Each
  // refusal is the first of these that fails.
  lemma VerificationLaw(v: Version, authentic: bool)
    ensures var r := VerifyPublished(v, authentic);
      && (r == Err(Unsigned) <==>
            || Missing(v.storageKey) || Missing(v.checksum) || Missing(v.signature) || Missing(v.signingKeyId)
            || v.signingKey == None)
      && (r != Err(Unsigned) ==>
            && v.checksum.Some? && v.signingKey.Some?
            && var path := "published/extensions/" + v.extension + "/" + v.id + "/" + v.checksum.value + ".zip";
              && (r == Err(Revoked) <==> v.signingKey.value.status == "REVOKED")
              && (r == Err(NotPublished) <==>
                    v.signingKey.value.status != "REVOKED" && v.lifecycle != "PUBLISHED" && v.lifecycle != "DEPRECATED")
              && (r.Ok? <==>
                    && v.signingKey.value.status != "REVOKED" && v.lifecycle in {"PUBLISHED", "DEPRECATED"}
                    && v.storageKey.Some? && v.storageKey.value == path && authentic)
              && (r == Err(NotAuthentic) <==>
                    && v.signingKey.value.status != "REVOKED" && v.lifecycle in {"PUBLISHED", "DEPRECATED"}
                    && v.storageKey.Some? && v.storageKey.value == path && !authentic))
  {
  }

  // Whether the check may use the cache at all.
  predicate Cacheable(v: Version) {
    Complete(v) && v.signingKey.value.status != "REVOKED" && RuntimeState(v)
  }

  function Join(parts: seq<string>): string {
    if parts == [] then ""
    else if |parts| == 1 then parts[0]
    else parts[0] + ":" + Join(parts[1..])
  }

  function Parts(v: Version): seq<string>
    requires Complete(v)
  {
    [v.id, v.checksum.value, v.signature.value, v.signingKeyId.value, v.signingKey.value.status]
  }

  function CacheKey(v: Version): string
    requires Complete(v)
  {
    Join(Parts(v))
  }

  // ---------------------------------------------------------------- cache keys

  predicate NoColon(s: string) {
    forall k :: 0 <= k < |s| ==> s[k] != ':'
  }

  ghost predicate NoColons(parts: seq<string>) {
    forall k :: 0 <= k < |parts| ==> NoColon(parts[k])
  }

  function ColonAt(s: string): nat {
    if s == "" || s[0] == ':' then 0 else ColonAt(s[1..]) + 1
  }

  lemma {:induction false} ColonAfter(a: string, x: string)
    requires NoColon(a)
    ensures ColonAt(a + ":" + x) == |a|
  {
    if a != "" {
      assert (a + ":" + x)[1..] == a[1..] + ":" + x;
      ColonAfter(a[1..], x);
    }
  }

  lemma FirstColon(a: string, b: string, x: string, y: string)
    requires NoColon(a) && NoColon(b) && a + ":" + x == b + ":" + y
    ensures a == b && x == y
  {
    var s := a + ":" + x;
    ColonAfter(a, x);
    ColonAfter(b, y);
    assert a == s[..|a|] && b == (b + ":" + y)[..|b|];
    assert x == s[|a| + 1..] && y == (b + ":" + y)[|b| + 1..];
  }

  // Identifiers, hexadecimal checksums and base64 signatures have no colons: their joined form tells
  // them apart.
  lemma {:induction false} JoinInjective(a: seq<string>, b: seq<string>)
    requires |a| == |b| && NoColons(a) && NoColons(b) && Join(a) == Join(b)
    ensures a == b
  {
    if |a| == 1 {
      assert a == [a[0]] && b == [b[0]];
    } else if |a| > 1 {
      FirstColon(a[0], b[0], Join(a[1..]), Join(b[1..]));
      JoinInjective(a[1..], b[1..]);
      assert a == [a[0]] + a[1..] && b == [b[0]] + b[1..];
    }
  }

  // ---------------------------------------------------------------- the cache

  datatype Entry = Entry(key: string, expiresAt: int)

  // In the order in which keys were first put in.
  type Cache = seq<Entry>

  function Find(cache: Cache, key: string): (i: nat)
    ensures i <= |cache| && (i < |cache| ==> cache[i].key == key)
    ensures forall k :: 0 <= k < i ==> cache[k].key != key
  {
    if cache == [] || cache[0].key == key then 0 else Find(cache[1..], key) + 1
  }

  function Get(cache: Cache, key: string): int {
    var i := Find(cache, key);
    if i < |cache| then cache[i].expiresAt else 0
  }

  function Put(cache: Cache, key: string, expiresAt: int): Cache {
    var i := Find(cache, key);
    if i < |cache| then cache[i := Entry(key, expiresAt)] else cache + [Entry(key, expiresAt)]
  }

  // The oldest entries go, expired or not, until there is room.
  function Evicted(cache: Cache): Cache {
    if |cache| < CAPACITY then cache else cache[|cache| - (CAPACITY - 1)..]
  }

  class VerificationCache {
    var cache: Cache

    constructor ()
      ensures cache == []
    {
      cache := [];
    }

    method Evict(now: int)
      modifies this
      ensures cache == Evicted(old(cache))
    {
      if |cache| >= CAPACITY {
        ghost var was := cache;
        var i := 0;
        while i < |cache|
          invariant i == 0 && |cache| >= CAPACITY && cache == was[|was| - |cache|..] && |cache| <= |was|
          decreases |cache| - i
        {
          if cache[i].expiresAt <= now || |cache| >= CAPACITY {
            cache := cache[..i] + cache[i + 1..];
          } else {
            i := i + 1;
          }
          if |cache| < CAPACITY {
            break;
          }
        }
      }
    }

    // Up to the point where the check has to wait for a full verification.
    method Lookup(v: Version, now: int) returns (hit: bool)
      ensures hit <==> Cacheable(v) && Get(cache, CacheKey(v)) > now
    {
      if !Complete(v) || v.signingKey.value.status == "REVOKED" || !RuntimeState(v) {
        return false;
      }
      hit := Get(cache, CacheKey(v)) > now;
    }

    // From there on, if it succeeded; the time is that of the lookup.
    method Remember(v: Version, now: int)
      requires Cacheable(v)
      modifies this
      ensures cache == Put(Evicted(old(cache)), CacheKey(v), now + TTL_MS)
    {
      Evict(now);
      cache := Put(cache, CacheKey(v), now + TTL_MS);
    }
  }

  // ---------------------------------------------------------------- whole runs

  datatype Waiting = Waiting(version: Version, since: nat)

  datatype Moment = Moment(version: Version, at: int)

  // The checks in progress, the full verifications that succeeded, and the checks that said yes.
  datatype System = System(now: nat, cache: Cache, waiting: map<nat, Waiting>, verified: set<Moment>,
      accepted: seq<Moment>)

  datatype Event =
    | Check(id: nat, version: Version)
    | Finish(id: nat, authentic: bool)
    | Wait(elapsed: nat)

  function Begin(now: nat): System {
    System(now, [], map[], {}, [])
  }

  function Step(sys: System, ev: Event): System {
    match ev
    case Check(id, v) =>
      if Cacheable(v) && Get(sys.cache, CacheKey(v)) > sys.now
      then sys.(accepted := sys.accepted + [Moment(v, sys.now)])
      else sys.(waiting := sys.waiting[id := Waiting(v, sys.now)])
    case Finish(id, authentic) =>
      if id !in sys.waiting then sys
      else
        var w := sys.waiting[id];
        var done := sys.(waiting := sys.waiting - {id});
        if VerifyPublished(w.version, authentic).Err? then done
        else
          var m := Moment(w.version, sys.now);
          var cache := if Cacheable(w.version) then Put(Evicted(sys.cache), CacheKey(w.version), w.since + TTL_MS)
                       else sys.cache;
          done.(cache := cache, verified := sys.verified + {m}, accepted := sys.accepted + [m])
    case Wait(elapsed) => sys.(now := sys.now + elapsed)
  }

  function Run(sys: System, evs: seq<Event>): System
    decreases |evs|
  {
    if evs == [] then sys else Run(Step(sys, evs[0]), evs[1..])
  }

  // ---------------------------------------------------------------- what a check does

  // Making room leaves a cache that has any alone, and of a full one keeps the newest 999 in order.
  lemma EvictionLaw(cache: Cache)
    ensures |cache| < 1000 ==> Evicted(cache) == cache
    ensures |cache| >= 1000 ==>
      |Evicted(cache)| == 999 && forall k :: 0 <= k < 999 ==> Evicted(cache)[k] == cache[|cache| - 999 + k]
  {
  }

  // Putting replaces the entry of the key where there is one, and adds it last where there is none; no
  // other entry moves.
  lemma PutLaw(cache: Cache, key: string, expiresAt: int)
    ensures var after := Put(cache, key, expiresAt);
      && (forall e :: e in cache && e.key != key ==> e in after)
      && (forall k :: 0 <= k < |cache| && cache[k].key != key ==> after[k] == cache[k])
      && Get(after, key) == expiresAt
      && |after| == |cache| + (if exists k :: 0 <= k < |cache| && cache[k].key == key then 0 else 1)
  {
    var after, i := Put(cache, key, expiresAt), Find(cache, key);
    forall e | e in cache && e.key != key ensures e in after {
      var k :| 0 <= k < |cache| && cache[k] == e;
      assert after[k] == e;
    }
    FindsFirst(after, key, i);
  }

  lemma FindsFirst(cache: Cache, key: string, i: nat)
    requires i < |cache| && cache[i].key == key && forall k :: 0 <= k < i ==> cache[k].key != key
    ensures Find(cache, key) == i && Get(cache, key) == cache[i].expiresAt
  {
  }

  // The joined parts of a version, and whether the cache has an entry for them that has not expired.
  ghost predicate Remembered(cache: Cache, v: Version, now: int) {
    v.checksum.Some? && v.signature.Some? && v.signingKeyId.Some? && v.signingKey.Some? &&
    var key := v.id + ":" + v.checksum.value + ":" + v.signature.value + ":" + v.signingKeyId.value + ":"
      + v.signingKey.value.status;
    exists k :: 0 <= k < |cache| && cache[k].key == key && now < cache[k].expiresAt
      && forall j :: 0 <= j < k ==> cache[j].key != key
  }

  lemma KeyIsJoined(v: Version)
    requires Complete(v)
    ensures CacheKey(v) == v.id + ":" + v.checksum.value + ":" + v.signature.value + ":" + v.signingKeyId.value + ":"
      + v.signingKey.value.status
  {
    var (a, b, c, d, e) := (v.id, v.checksum.value, v.signature.value, v.signingKeyId.value, v.signingKey.value.status);
    assert Parts(v) == [a, b, c, d, e];
    assert [a, b, c, d, e][1..] == [b, c, d, e] && [b, c, d, e][1..] == [c, d, e];
    assert [c, d, e][1..] == [d, e] && [d, e][1..] == [e];
    assert Join([d, e]) == d + ":" + e;
    assert Join([c, d, e]) == c + ":" + Join([d, e]);
    assert Join([b, c, d, e]) == b + ":" + Join([c, d, e]);
    assert a + ":" + (b + ":" + (c + ":" + (d + ":" + e))) == a + ":" + b + ":" + c + ":" + d + ":" + e;
  }

  // A check says yes at once exactly for a complete version in a runtime state, under a key that is not
  // revoked, that the cache remembers; any other waits for a full verification, and nothing else changes.
  lemma CheckLaw(sys: System, id: nat, v: Version)
    ensures Step(sys, Check(id, v)) ==
      if && !Missing(v.checksum) && !Missing(v.signature) && !Missing(v.signingKeyId) && v.signingKey.Some?
         && v.signingKey.value.status != "REVOKED" && (v.lifecycle == "PUBLISHED" || v.lifecycle == "DEPRECATED")
         && Remembered(sys.cache, v, sys.now)
      then System(sys.now, sys.cache, sys.waiting, sys.verified, sys.accepted + [Moment(v, sys.now)])
      else System(sys.now, sys.cache, sys.waiting[id := Waiting(v, sys.now)], sys.verified, sys.accepted)
  {
    if Complete(v) {
      KeyIsJoined(v);
      var key := CacheKey(v);
      var i := Find(sys.cache, key);
      if Remembered(sys.cache, v, sys.now) {
        var k :| 0 <= k < |sys.cache| && sys.cache[k].key == key && sys.now < sys.cache[k].expiresAt
          && forall j :: 0 <= j < k ==> sys.cache[j].key != key;
        FindsFirst(sys.cache, key, k);
      }
    }
  }

  // A full verification that succeeds says yes, and is remembered for five minutes from the start of the
  // check if the version may be cached; one that fails says nothing. Either way the check is over.
  lemma FinishLaw(sys: System, id: nat, authentic: bool)
    ensures var next := Step(sys, Finish(id, authentic));
      if id !in sys.waiting then next == sys
      else
        var (v, since) := (sys.waiting[id].version, sys.waiting[id].since);
        && next.now == sys.now && next.waiting == sys.waiting - {id}
        && (VerifyPublished(v, authentic).Err? ==>
              next.cache == sys.cache && next.verified == sys.verified && next.accepted == sys.accepted)
        && (VerifyPublished(v, authentic).Ok? ==>
              && next.verified == sys.verified + {Moment(v, sys.now)}
              && next.accepted == sys.accepted + [Moment(v, sys.now)]
              && Complete(v) && Get(next.cache, CacheKey(v)) == since + 300_000)
  {
    if id in sys.waiting && VerifyPublished(sys.waiting[id].version, authentic).Ok? {
      var w := sys.waiting[id];
      PutLaw(Evicted(sys.cache), CacheKey(w.version), w.since + TTL_MS);
    }
  }

  // A full verification of the same cache key, no longer ago than the time to live.
  ghost predicate Backed(verified: set<Moment>, key: string, from: int, to: int) {
    exists m :: m in verified && Cacheable(m.version) && CacheKey(m.version) == key && from <= m.at <= to
  }

  ghost predicate EntryBacked(sys: System, e: Entry) {
    Backed(sys.verified, e.key, e.expiresAt - TTL_MS, sys.now)
  }

  ghost predicate AcceptedSoundly(sys: System, a: Moment) {
    && a.at <= sys.now && Cacheable(a.version)
    && Backed(sys.verified, CacheKey(a.version), a.at - TTL_MS + 1, a.at)
  }

  ghost predicate Sound(sys: System) {
    && |sys.cache| <= CAPACITY
    && (forall e {:trigger EntryBacked(sys, e)} :: e in sys.cache ==> EntryBacked(sys, e))
    && (forall a {:trigger AcceptedSoundly(sys, a)} :: a in sys.accepted ==> AcceptedSoundly(sys, a))
    && (forall id :: id in sys.waiting ==> sys.waiting[id].since <= sys.now)
  }

  lemma BackedStays(before: set<Moment>, after: set<Moment>, key: string, from: int, to: int, later: int)
    requires before <= after && to <= later && Backed(before, key, from, to)
    ensures Backed(after, key, from, later)
  {
  }

  lemma CheckSound(sys: System, id: nat, v: Version)
    requires Sound(sys)
    ensures Sound(Step(sys, Check(id, v)))
  {
    var next := Step(sys, Check(id, v));
    forall e | e in next.cache ensures EntryBacked(next, e) { assert EntryBacked(sys, e); }
    forall a | a in next.accepted ensures AcceptedSoundly(next, a) {
      if a in sys.accepted {
        assert AcceptedSoundly(sys, a);
      } else {
        var e := sys.cache[Find(sys.cache, CacheKey(v))];
        assert EntryBacked(sys, e);
      }
    }
  }

  lemma PutHas(cache: Cache, key: string, expiresAt: int)
    ensures |Put(cache, key, expiresAt)| <= |cache| + 1
    ensures forall e :: e in Put(cache, key, expiresAt) ==> e in cache || e == Entry(key, expiresAt)
  {
  }

  lemma EvictedHas(cache: Cache)
    requires |cache| <= CAPACITY
    ensures |Evicted(cache)| <= CAPACITY - 1 && forall e :: e in Evicted(cache) ==> e in cache
  {
  }

  lemma FinishSound(sys: System, id: nat, authentic: bool)
    requires Sound(sys)
    ensures Sound(Step(sys, Finish(id, authentic)))
  {
    var next := Step(sys, Finish(id, authentic));
    if id in sys.waiting && VerifyPublished(sys.waiting[id].version, authentic).Ok? {
      var w := sys.waiting[id];
      var m := Moment(w.version, sys.now);
      var key := CacheKey(w.version);
      assert m in next.verified && Cacheable(m.version);
      assert Backed(next.verified, key, sys.now, sys.now);
      EvictedHas(sys.cache);
      PutHas(Evicted(sys.cache), key, w.since + TTL_MS);
      forall e | e in next.cache ensures EntryBacked(next, e) {
        if e in sys.cache {
          assert EntryBacked(sys, e);
          BackedStays(sys.verified, next.verified, e.key, e.expiresAt - TTL_MS, sys.now, sys.now);
        }
      }
      forall a | a in next.accepted ensures AcceptedSoundly(next, a) {
        if a in sys.accepted {
          assert AcceptedSoundly(sys, a);
          BackedStays(sys.verified, next.verified, CacheKey(a.version), a.at - TTL_MS + 1, a.at, a.at);
        }
      }
    } else {
      forall e | e in next.cache ensures EntryBacked(next, e) { assert EntryBacked(sys, e); }
      forall a | a in next.accepted ensures AcceptedSoundly(next, a) { assert AcceptedSoundly(sys, a); }
    }
  }

  lemma WaitSound(sys: System, elapsed: nat)
    requires Sound(sys)
    ensures Sound(Step(sys, Wait(elapsed)))
  {
    var next := Step(sys, Wait(elapsed));
    forall e | e in next.cache ensures EntryBacked(next, e) {
      assert EntryBacked(sys, e);
      BackedStays(sys.verified, next.verified, e.key, e.expiresAt - TTL_MS, sys.now, next.now);
    }
    forall a | a in next.accepted ensures AcceptedSoundly(next, a) { assert AcceptedSoundly(sys, a); }
  }

  lemma {:induction false} RunSound(sys: System, evs: seq<Event>)
    requires Sound(sys)
    ensures Sound(Run(sys, evs))
    decreases |evs|
  {
    if evs != [] {
      match evs[0] {
        case Check(id, v) => CheckSound(sys, id, v);
        case Finish(id, authentic) => FinishSound(sys, id, authentic);
        case Wait(elapsed) => WaitSound(sys, elapsed);
      }
      RunSound(Step(sys, evs[0]), evs[1..]);
    }
  }

  predicate SameSignature(a: Version, b: Version)
    requires Complete(a) && Complete(b)
  {
    && a.id == b.id && a.checksum == b.checksum && a.signature == b.signature
    && a.signingKeyId == b.signingKeyId && a.signingKey.value.status == b.signingKey.value.status
  }

  lemma SameKeySameSignature(a: Version, b: Version)
    requires Complete(a) && Complete(b) && NoColons(Parts(a)) && NoColons(Parts(b)) && CacheKey(a) == CacheKey(b)
    ensures SameSignature(a, b)
  {
    JoinInjective(Parts(a), Parts(b));
    assert Parts(a)[0] == Parts(b)[0] && Parts(a)[1] == Parts(b)[1] && Parts(a)[2] == Parts(b)[2];
    assert Parts(a)[3] == Parts(b)[3] && Parts(a)[4] == Parts(b)[4];
  }

  // However checks interleave: a check says yes only for a version that is in a runtime state and whose
  // key is not revoked, and only if the full verification of the same version id, checksum, signature,
  // key and key status succeeded less than five minutes before; and the cache never outgrows its limit.
  lemma AcceptedOnlyVerified(start: nat, evs: seq<Event>, a: Moment)
    requires a in Run(Begin(start), evs).accepted
    requires forall m :: m in Run(Begin(start), evs).verified + {a} && Complete(m.version) ==>
      NoColons(Parts(m.version))
    ensures a.version.signingKey.Some? && a.version.signingKey.value.status != "REVOKED"
    ensures a.version.lifecycle == "PUBLISHED" || a.version.lifecycle == "DEPRECATED"
    ensures Cacheable(a.version)
    ensures exists m ::
      && m in Run(Begin(start), evs).verified && Complete(m.version)
      && m.version.id == a.version.id && m.version.checksum == a.version.checksum
      && m.version.signature == a.version.signature && m.version.signingKeyId == a.version.signingKeyId
      && m.version.signingKey.value.status == a.version.signingKey.value.status
      && a.at - 300_000 < m.at <= a.at
    ensures |Run(Begin(start), evs).cache| <= 1000
  {
    RunSound(Begin(start), evs);
    var sys := Run(Begin(start), evs);
    assert AcceptedSoundly(sys, a);
    var m :| m in sys.verified && Cacheable(m.version) && CacheKey(m.version) == CacheKey(a.version) &&
      a.at - TTL_MS + 1 <= m.at <= a.at;
    assert m in sys.verified + {a} && a in sys.verified + {a};
    SameKeySameSignature(m.version, a.version);
  }

  // A version whose key is revoked, or that has left the runtime states, is refused whatever is cached.
  lemma RevokedIsRefused(sys: System, id: nat, v: Version, authentic: bool)
    requires !Cacheable(v)
    ensures var checked := Step(sys, Check(id, v)); Step(checked, Finish(id, authentic)).accepted == sys.accepted
  {
  }

  // Verifying again within the time to live is not needed, as long as nothing was evicted since.
  lemma RecentIsCached(sys: System, id: nat, v: Version, elapsed: nat)
    requires Cacheable(v) && id !in sys.waiting && |sys.cache| <= CAPACITY && elapsed < TTL_MS
    requires VerifyPublished(v, true).Ok? && Get(sys.cache, CacheKey(v)) <= sys.now
    ensures var verified := Step(Step(sys, Check(id, v)), Finish(id, true));
      Step(Step(verified, Wait(elapsed)), Check(id, v)).accepted == verified.accepted + [Moment(v, sys.now + elapsed)]
  {
    PutThenGet(Evicted(sys.cache), CacheKey(v), sys.now + TTL_MS);
  }

  lemma {:induction false} PutThenGet(cache: Cache, key: string, expiresAt: int)
    ensures Get(Put(cache, key, expiresAt), key) == expiresAt
  {
    var put := Put(cache, key, expiresAt);
    var i := Find(cache, key);
    var j := Find(put, key);
    assert i < |put| && put[i].key == key;
    assert forall k :: 0 <= k < i ==> put[k] == cache[k];
    assert j == i;
  }

  // A run is its events one after the other.
  lemma {:induction false} RunIs(sys: System, evs: seq<Event>, ev: Event)
    ensures Run(sys, []) == sys && Run(sys, evs + [ev]) == Step(Run(sys, evs), ev)
    decreases |evs|
  {
    if evs == [] {
      assert (evs + [ev])[1..] == [];
    } else {
      assert (evs + [ev])[1..] == evs[1..] + [ev];
      RunIs(Step(sys, evs[0]), evs[1..], ev);
    }
  }
}
