// The resource governor with its counters in memory.
module Governor {
  import opened Results
  import opened FixedWindow
  import opened Semaphore

  datatype Refusal = QuotaExceeded(count: int) | ConcurrencyExceeded(count: int)

  datatype Settings = Settings(schoolRequests: nat, extensionRequests: nat, limits: Limits)

  const MINUTE_MS: int := 60_000

  function SchoolRequests(school: string): Key {
    "requests:school:" + school
  }

  function ExtensionRequests(extension: string): Key {
    "requests:extension:" + extension
  }

  // The closure that a request gets to release what it holds.
  class Pass {
    const school: string
    const extension: string
    var released: bool

    constructor (school: string, extension: string)
      ensures this.school == school && this.extension == extension && !released
    {
      this.school, this.extension, released := school, extension, false;
    }
  }

  // What entering does to the counters: both quotas are consumed before anything is held.
  function Entered(cfg: Settings, local: Counters, now: int, school: string, extension: string): (bool, Counters) {
    var bySchool := Hit(SchoolRequests(school), now);
    var byExtension := Hit(ExtensionRequests(extension), now);
    var counted := After(local, bySchool, MINUTE_MS);
    if !Admitted(local, bySchool, MINUTE_MS, cfg.schoolRequests) then (false, counted)
    else
      var both := After(counted, byExtension, MINUTE_MS);
      if !Admitted(counted, byExtension, MINUTE_MS, cfg.extensionRequests) then (false, both)
      else
        var (first, held) := Acquired(both, SchoolKey(school), now, HOLD_MS, cfg.limits.school);
        if !first then (false, held)
        else
          var (second, all) := Acquired(held, ExtensionKey(extension), now, HOLD_MS, cfg.limits.extension);
          if second then (true, all) else (false, Released(all, SchoolKey(school)))
  }

  class Service {
    var local: Counters

    constructor ()
      ensures local == map[]
    {
      local := map[];
    }

    method LocalIncrement(key: Key, ttl: int, now: int) returns (count: int)
      modifies this
      ensures local == After(old(local), Hit(key, now), ttl) && count == local[key].count
    {
      var next: Counter;
      if key !in local || local[key].expiresAt <= now {
        next := Counter(1, now + ttl);
      } else {
        next := local[key].(count := local[key].count + 1);
      }
      local := local[key := next];
      count := next.count;
    }

    method LocalAcquire(key: Key, ttl: int, limit: int, now: int) returns (count: int)
      modifies this
      ensures (count <= limit, local) == Acquired(old(local), key, now, ttl, limit)
    {
      count := LocalIncrement(key, ttl, now);
      if count > limit {
        Release(key);
      }
    }

    method Release(key: Key)
      modifies this
      ensures local == Released(old(local), key)
    {
      if key !in local || local[key].count <= 1 {
        local := local - {key};
      } else {
        local := local[key := local[key].(count := local[key].count - 1)];
      }
    }

    method Consume(key: Key, limit: nat, ttl: int, now: int) returns (r: Result<(), Refusal>)
      modifies this
      ensures local == After(old(local), Hit(key, now), ttl)
      ensures r.Ok? <==> Admitted(old(local), Hit(key, now), ttl, limit)
    {
      var count := LocalIncrement(key, ttl, now);
      r := if count <= limit then Ok(()) else Err(QuotaExceeded(count));
    }

    method EnterRequest(cfg: Settings, school: string, extension: string, now: int) returns (r: Result<Pass, Refusal>)
      modifies this
      ensures (r.Ok?, local) == Entered(cfg, old(local), now, school, extension)
      ensures r.Ok? ==>
        fresh(r.value) && r.value.school == school && r.value.extension == extension && !r.value.released
    {
      var quota := Consume(SchoolRequests(school), cfg.schoolRequests, MINUTE_MS, now);
      if quota.Err? {
        return Err(quota.error);
      }
      quota := Consume(ExtensionRequests(extension), cfg.extensionRequests, MINUTE_MS, now);
      if quota.Err? {
        return Err(quota.error);
      }
      var count := LocalAcquire(SchoolKey(school), HOLD_MS, cfg.limits.school, now);
      if count > cfg.limits.school {
        return Err(ConcurrencyExceeded(count));
      }
      count := LocalAcquire(ExtensionKey(extension), HOLD_MS, cfg.limits.extension, now);
      if count > cfg.limits.extension {
        Release(SchoolKey(school));
        return Err(ConcurrencyExceeded(count));
      }
      var pass := new Pass(school, extension);
      r := Ok(pass);
    }

    method Leave(pass: Pass)
      modifies this, pass
      ensures pass.released
      ensures local == if old(pass.released) then old(local)
                       else Released(Released(old(local), SchoolKey(pass.school)), ExtensionKey(pass.extension))
    {
      if !pass.released {
        pass.released := true;
        Release(SchoolKey(pass.school));
        Release(ExtensionKey(pass.extension));
      }
    }
  }

  // ---------------------------------------------------------------- one request

  lemma QuotasApart(school: string, extension: string, key: Key)
    requires key == SchoolKey(school) || key == ExtensionKey(extension)
    ensures forall s {:trigger SchoolRequests(s)} :: SchoolRequests(s) != key
    ensures forall e {:trigger ExtensionRequests(e)} :: ExtensionRequests(e) != key
  {
    assert SchoolKey(school)[0] == 'c' && ExtensionKey(extension)[0] == 'c';
    forall s ensures SchoolRequests(s) != key { assert SchoolRequests(s)[0] == 'r'; }
    forall e ensures ExtensionRequests(e) != key { assert ExtensionRequests(e)[0] == 'r'; }
  }

  // Entering and leaving at once puts both concurrency counters back; a refused request never had
  // any hold on them, whichever of the four checks refused it.
  lemma EnterAndLeave(cfg: Settings, local: Counters, now: int, school: string, extension: string)
    requires cfg.limits.school >= 1 && cfg.limits.extension >= 1
    requires forall k :: k in local ==> local[k].count >= 1
    ensures var (ok, after) := Entered(cfg, local, now, school, extension);
      var left := if ok then Released(Released(after, SchoolKey(school)), ExtensionKey(extension)) else after;
      forall key :: key in {SchoolKey(school), ExtensionKey(extension)} ==>
        Effective(left, now, key) == Effective(local, now, key)
  {
    KeysDiffer(school, extension);
    QuotasApart(school, extension, SchoolKey(school));
    QuotasApart(school, extension, ExtensionKey(extension));
    var bySchool := SchoolRequests(school);
    var byExtension := ExtensionRequests(extension);
    assert bySchool !in {SchoolKey(school), ExtensionKey(extension)};
    assert byExtension !in {SchoolKey(school), ExtensionKey(extension)};
  }

  // The count that one more makes under a key: one more in a running window, one in a new one.
  function CountWith(local: Counters, key: Key, now: int): int {
    if key in local && now < local[key].expiresAt then local[key].count + 1 else 1
  }

  function EndWith(local: Counters, key: Key, now: int, ttl: int): int {
    if key in local && now < local[key].expiresAt then local[key].expiresAt else now + ttl
  }

  lemma FourKeys(school: string, extension: string)
    ensures var keys := ["requests:school:" + school, "requests:extension:" + extension,
        "concurrency:school:" + school, "concurrency:extension:" + extension];
      forall i, j :: 0 <= i < j < 4 ==> keys[i] != keys[j]
  {
    var a, b := "requests:school:" + school, "requests:extension:" + extension;
    var c, d := "concurrency:school:" + school, "concurrency:extension:" + extension;
    assert a[0] == 'r' && b[0] == 'r' && c[0] == 'c' && d[0] == 'c';
    assert a[9] == 's' && b[9] == 'e' && c[12] == 's' && d[12] == 'e';
  }

  // A request enters exactly when its school and its extension have made no more than their requests of
  // this minute, this one included, and hold no more than their limit of requests at once, this one
  // included.
  lemma EntersIff(cfg: Settings, local: Counters, now: int, school: string, extension: string)
    ensures Entered(cfg, local, now, school, extension).0 <==>
      && CountWith(local, "requests:school:" + school, now) <= cfg.schoolRequests
      && CountWith(local, "requests:extension:" + extension, now) <= cfg.extensionRequests
      && CountWith(local, "concurrency:school:" + school, now) <= cfg.limits.school
      && CountWith(local, "concurrency:extension:" + extension, now) <= cfg.limits.extension
  {
    FourKeys(school, extension);
    FourKeysNamed(school, extension);
  }

  lemma FourKeysNamed(school: string, extension: string)
    ensures "requests:school:" + school != "requests:extension:" + extension
    ensures "requests:school:" + school != "concurrency:school:" + school
    ensures "requests:school:" + school != "concurrency:extension:" + extension
    ensures "requests:extension:" + extension != "concurrency:school:" + school
    ensures "requests:extension:" + extension != "concurrency:extension:" + extension
    ensures "concurrency:school:" + school != "concurrency:extension:" + extension
  {
    FourKeys(school, extension);
    var keys := ["requests:school:" + school, "requests:extension:" + extension,
      "concurrency:school:" + school, "concurrency:extension:" + extension];
    assert keys[0] != keys[1] && keys[0] != keys[2] && keys[0] != keys[3];
    assert keys[1] != keys[2] && keys[1] != keys[3] && keys[2] != keys[3];
  }

  // Whether it enters or not, it is counted under its school for a minute, and under its extension too
  // unless its school had none left; one that enters holds a unit under each for five minutes. No other
  // counter moves.
  lemma EnteringCounts(cfg: Settings, local: Counters, now: int, school: string, extension: string, key: Key)
    ensures var (ok, after) := Entered(cfg, local, now, school, extension);
      var (a, b) := ("requests:school:" + school, "requests:extension:" + extension);
      var (c, d) := ("concurrency:school:" + school, "concurrency:extension:" + extension);
      && a in after && after[a] == Counter(CountWith(local, a, now), EndWith(local, a, now, 60_000))
      && (if CountWith(local, a, now) <= cfg.schoolRequests
          then b in after && after[b] == Counter(CountWith(local, b, now), EndWith(local, b, now, 60_000))
          else after - {a} == local - {a})
      && (ok ==>
            && c in after && after[c] == Counter(CountWith(local, c, now), EndWith(local, c, now, 300_000))
            && d in after && after[d] == Counter(CountWith(local, d, now), EndWith(local, d, now, 300_000)))
      && (key !in {a, b, c, d} ==> (key in after <==> key in local) && (key in local ==> after[key] == local[key]))
  {
    FourKeysNamed(school, extension);
  }
}
