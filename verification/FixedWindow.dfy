// Request quotas: a counter per key that starts over when it has expired.
module FixedWindow {
  import opened Results

  type Key = string

  datatype Counter = Counter(count: int, expiresAt: int)

  type Counters = map<Key, Counter>

  function Stored(local: Counters, key: Key): Option<Counter> {
    if key in local then Some(local[key]) else None
  }

  function Bump(c: Option<Counter>, now: int, ttl: int): Counter {
    if c.None? || c.value.expiresAt <= now then Counter(1, now + ttl)
    else Counter(c.value.count + 1, c.value.expiresAt)
  }

  // One request against a quota; it counts whether it is admitted or not.
  datatype Hit = Hit(key: Key, at: int)

  function After(local: Counters, h: Hit, ttl: int): Counters {
    local[h.key := Bump(Stored(local, h.key), h.at, ttl)]
  }

  predicate Admitted(local: Counters, h: Hit, ttl: int, limit: int) {
    Bump(Stored(local, h.key), h.at, ttl).count <= limit
  }

  // How many requests under a key are admitted from time a on and before time b.
  function AdmittedIn(local: Counters, hits: seq<Hit>, key: Key, ttl: int, limit: int, a: int, b: int): nat
    decreases |hits|
  {
    if hits == [] then 0
    else
      var h := hits[0];
      (if h.key == key && a <= h.at < b && Admitted(local, h, ttl, limit) then 1 else 0)
      + AdmittedIn(After(local, h, ttl), hits[1..], key, ttl, limit, a, b)
  }

  ghost predicate Monotone(hits: seq<Hit>) {
    forall i, j :: 0 <= i <= j < |hits| ==> hits[i].at <= hits[j].at
  }

  function Left(c: Counter, limit: int): nat {
    if c.count < limit then limit - c.count else 0
  }

  // While a window lasts, no more than what is left of its quota is admitted.
  lemma {:induction false} OneWindow(local: Counters, hits: seq<Hit>, key: Key, ttl: int, limit: int, a: int, b: int)
    requires key in local && b <= local[key].expiresAt && Monotone(hits)
    ensures AdmittedIn(local, hits, key, ttl, limit, a, b) <= Left(local[key], limit)
    decreases |hits|
  {
    if hits != [] {
      var h := hits[0];
      var next := After(local, h, ttl);
      if h.key == key && h.at >= b {
        NothingLater(next, hits[1..], key, ttl, limit, a, b);
      } else {
        OneWindow(next, hits[1..], key, ttl, limit, a, b);
      }
    }
  }

  lemma {:induction false} NothingLater(local: Counters, hits: seq<Hit>, key: Key, ttl: int, limit: int, a: int, b: int)
    requires forall k :: 0 <= k < |hits| ==> hits[k].at >= b
    ensures AdmittedIn(local, hits, key, ttl, limit, a, b) == 0
    decreases |hits|
  {
    if hits != [] {
      NothingLater(After(local, hits[0], ttl), hits[1..], key, ttl, limit, a, b);
    }
  }

  // An interval that ends before the next window could end holds what is left and one full quota.
  lemma {:induction false} TwoWindows(local: Counters, hits: seq<Hit>, key: Key, ttl: int, limit: int, a: int, b: int)
    requires key in local && b <= local[key].expiresAt + ttl && limit >= 1 && Monotone(hits)
    ensures AdmittedIn(local, hits, key, ttl, limit, a, b) <= Left(local[key], limit) + limit
    decreases |hits|
  {
    if hits != [] {
      var h := hits[0];
      var next := After(local, h, ttl);
      if h.key == key && local[key].expiresAt <= h.at {
        OneWindow(next, hits[1..], key, ttl, limit, a, b);
      } else {
        TwoWindows(next, hits[1..], key, ttl, limit, a, b);
      }
    }
  }

  ghost predicate Positive(local: Counters) {
    forall k :: k in local ==> local[k].count >= 1
  }

  // Over every sequence of requests with a monotone clock, rejected ones counted too: any half-open
  // interval as long as a window admits at most twice the quota less one.
  lemma {:induction false} IntervalBound(local: Counters, hits: seq<Hit>, key: Key, ttl: int, limit: int, a: int)
    requires limit >= 1 && ttl >= 0 && Monotone(hits) && Positive(local)
    ensures AdmittedIn(local, hits, key, ttl, limit, a, a + ttl) <= 2 * limit - 1
    decreases |hits|
  {
    if hits != [] {
      var h := hits[0];
      var next := After(local, h, ttl);
      if h.at < a {
        IntervalBound(next, hits[1..], key, ttl, limit, a);
      } else if h.key == key {
        FromHere(local, hits, key, ttl, limit, a);
      } else {
        IntervalBound(next, hits[1..], key, ttl, limit, a);
      }
    }
  }

  lemma FromHere(local: Counters, hits: seq<Hit>, key: Key, ttl: int, limit: int, a: int)
    requires limit >= 1 && ttl >= 0 && Monotone(hits) && Positive(local)
    requires hits != [] && hits[0].key == key && hits[0].at >= a
    ensures AdmittedIn(local, hits, key, ttl, limit, a, a + ttl) <= 2 * limit - 1
  {
    var h := hits[0];
    var next := After(local, h, ttl);
    if key in local && h.at < local[key].expiresAt {
      TwoWindows(next, hits[1..], key, ttl, limit, a, a + ttl);
    } else {
      OneWindow(next, hits[1..], key, ttl, limit, a, a + ttl);
    }
  }

  // ---------------------------------------------------------------- the bounds are exact

  function Repeat(h: Hit, n: nat): seq<Hit> {
    if n == 0 then [] else [h] + Repeat(h, n - 1)
  }

  // Within one window exactly what is left of the quota is admitted, if as many ask.
  lemma {:induction false} WindowExact(
      local: Counters, h: Hit, n: nat, rest: seq<Hit>, ttl: int, limit: int, a: int, b: int)
    requires h.key in local && a <= h.at < b && h.at < local[h.key].expiresAt
    ensures var c := local[h.key];
      AdmittedIn(local, Repeat(h, n) + rest, h.key, ttl, limit, a, b) ==
        (if n < Left(c, limit) then n else Left(c, limit))
        + AdmittedIn(local[h.key := Counter(c.count + n, c.expiresAt)], rest, h.key, ttl, limit, a, b)
    decreases n
  {
    var c := local[h.key];
    if n == 0 {
      assert Repeat(h, 0) + rest == rest;
      assert local[h.key := Counter(c.count + 0, c.expiresAt)] == local;
    } else {
      var next := After(local, h, ttl);
      assert (Repeat(h, n) + rest)[1..] == Repeat(h, n - 1) + rest;
      WindowExact(next, h, n - 1, rest, ttl, limit, a, b);
      assert next[h.key := Counter(c.count + 1 + (n - 1), c.expiresAt)] ==
        local[h.key := Counter(c.count + n, c.expiresAt)];
    }
  }

  // One request opens a window; the rest of its quota and the whole of the next come at its end.
  function Burst(key: Key, limit: nat, ttl: int): seq<Hit>
    requires limit >= 1
  {
    [Hit(key, 0)] + (Repeat(Hit(key, ttl - 1), limit - 1) + (Repeat(Hit(key, ttl), limit) + []))
  }

  lemma {:induction false} RepeatIs(h: Hit, n: nat)
    ensures |Repeat(h, n)| == n && forall k :: 0 <= k < n ==> Repeat(h, n)[k] == h
  {
    if n > 0 { RepeatIs(h, n - 1); }
  }

  lemma BurstIsMonotone(key: Key, limit: nat, ttl: int)
    requires limit >= 1 && ttl >= 2
    ensures Monotone(Burst(key, limit, ttl))
  {
    RepeatIs(Hit(key, ttl - 1), limit - 1);
    RepeatIs(Hit(key, ttl), limit);
  }

  // For every quota the interval bound is reached, by requests in the order of their times.
  lemma IntervalBoundReached(key: Key, limit: nat, ttl: int)
    requires limit >= 1 && ttl >= 2
    ensures Monotone(Burst(key, limit, ttl))
    ensures AdmittedIn(map[], Burst(key, limit, ttl), key, ttl, limit, 1, 1 + ttl) == 2 * limit - 1
  {
    BurstIsMonotone(key, limit, ttl);
    var first: Counters := map[key := Counter(1, ttl)];
    var second := first[key := Counter(limit, ttl)];
    var tail := Repeat(Hit(key, ttl), limit) + [];
    assert Burst(key, limit, ttl)[1..] == Repeat(Hit(key, ttl - 1), limit - 1) + tail;
    assert After(map[], Hit(key, 0), ttl) == first;
    WindowExact(first, Hit(key, ttl - 1), limit - 1, tail, ttl, limit, 1, 1 + ttl);
    assert tail == [Hit(key, ttl)] + (Repeat(Hit(key, ttl), limit - 1) + []);
    assert tail[1..] == Repeat(Hit(key, ttl), limit - 1) + [];
    var third := After(second, Hit(key, ttl), ttl);
    assert third[key] == Counter(1, ttl + ttl);
    WindowExact(third, Hit(key, ttl), limit - 1, [], ttl, limit, 1, 1 + ttl);
  }
}
