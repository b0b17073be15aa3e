// Expiring leases with owner comparison, as the queue infrastructure keeps them in its key store.
module Leases {
  import opened Results

  type Owner = string

  datatype Lease = Lease(owner: Owner, expiresAt: int)

  type Table = map<string, Lease>

  datatype InvalidLease = InvalidLeaseRequest

  // The owner whose lease on the key has not expired.
  function HolderOf(leases: Table, now: int, key: string): Option<Owner> {
    if key in leases && now < leases[key].expiresAt then Some(leases[key].owner) else None
  }

  function Acquired(leases: Table, now: int, key: string, owner: Owner, ttl: int): Result<(bool, Table), InvalidLease> {
    if key == "" || owner == "" || ttl < 1000 then Err(InvalidLeaseRequest)
    else if HolderOf(leases, now, key).Some? then Ok((false, leases))
    else Ok((true, leases[key := Lease(owner, now + ttl)]))
  }

  // A non-positive time to live deletes the key, as the key store's expiry command does.
  function Renewed(leases: Table, now: int, key: string, owner: Owner, ttl: int): (bool, Table) {
    if HolderOf(leases, now, key) != Some(owner) then (false, leases)
    else (true, if ttl <= 0 then leases - {key} else leases[key := Lease(owner, now + ttl)])
  }

  function Released(leases: Table, now: int, key: string, owner: Owner): (bool, Table) {
    if HolderOf(leases, now, key) != Some(owner) then (false, leases) else (true, leases - {key})
  }

  // The key store, with the expiry it applies before every command.
  class KeyStore {
    var leases: Table

    constructor ()
      ensures leases == map[]
    {
      leases := map[];
    }

    method AcquireLease(now: int, key: string, owner: Owner, ttl: int) returns (r: Result<bool, InvalidLease>)
      modifies this
      ensures Acquired(old(leases), now, key, owner, ttl) ==
        match r { case Err(e) => Err(e) case Ok(won) => Ok((won, leases)) }
      ensures r.Err? ==> leases == old(leases)
    {
      if key == "" || owner == "" || ttl < 1000 {
        return Err(InvalidLeaseRequest);
      }
      if key in leases && now < leases[key].expiresAt {
        return Ok(false);
      }
      leases := leases[key := Lease(owner, now + ttl)];
      r := Ok(true);
    }

    method RenewLease(now: int, key: string, owner: Owner, ttl: int) returns (renewed: bool)
      modifies this
      ensures (renewed, leases) == Renewed(old(leases), now, key, owner, ttl)
    {
      renewed := key in leases && now < leases[key].expiresAt && leases[key].owner == owner;
      if renewed {
        leases := if ttl <= 0 then leases - {key} else leases[key := Lease(owner, now + ttl)];
      }
    }

    method ReleaseLease(now: int, key: string, owner: Owner) returns (released: bool)
      modifies this
      ensures (released, leases) == Released(old(leases), now, key, owner)
    {
      released := key in leases && now < leases[key].expiresAt && leases[key].owner == owner;
      if released {
        leases := leases - {key};
      }
    }
  }

  // ---------------------------------------------------------------- whole runs

  datatype Call =
    | Acquire(key: string, who: Owner, ttl: int)
    | Renew(key: string, who: Owner, ttl: int)
    | Release(key: string, who: Owner)
    | Wait(elapsed: nat)

  datatype World = World(now: int, leases: Table)

  function Next(w: World, c: Call): World {
    match c
    case Acquire(key, who, ttl) =>
      (match Acquired(w.leases, w.now, key, who, ttl)
       case Err(_) => w
       case Ok(pair) => w.(leases := pair.1))
    case Renew(key, who, ttl) => w.(leases := Renewed(w.leases, w.now, key, who, ttl).1)
    case Release(key, who) => w.(leases := Released(w.leases, w.now, key, who).1)
    case Wait(elapsed) => w.(now := w.now + elapsed)
  }

  function Run(w: World, cs: seq<Call>): World
    decreases |cs|
  {
    if cs == [] then w else Run(Next(w, cs[0]), cs[1..])
  }

  function Holder(w: World, key: string): Option<Owner> {
    HolderOf(w.leases, w.now, key)
  }

  predicate GivesUp(c: Call, key: string, owner: Owner) {
    (c.Renew? || c.Release?) && c.key == key && c.who == owner
  }

  lemma {:induction false} ClockMonotone(w: World, cs: seq<Call>)
    ensures w.now <= Run(w, cs).now
    decreases |cs|
  {
    if cs != [] {
      ClockMonotone(Next(w, cs[0]), cs[1..]);
    }
  }

  // Whatever others acquire, renew or release, a lease stays with its owner until it expires,
  // unless the owner itself gives it up or renews it.
  lemma {:induction false} ExclusiveUntilExpiry(w: World, key: string, owner: Owner, cs: seq<Call>)
    requires Holder(w, key) == Some(owner)
    requires forall k :: 0 <= k < |cs| ==> !GivesUp(cs[k], key, owner)
    ensures Run(w, cs).now < w.leases[key].expiresAt ==> Holder(Run(w, cs), key) == Some(owner)
    decreases |cs|
  {
    if cs != [] {
      var next := Next(w, cs[0]);
      ClockMonotone(next, cs[1..]);
      if next.now < w.leases[key].expiresAt {
        assert !GivesUp(cs[0], key, owner);
        assert key in next.leases && next.leases[key] == w.leases[key];
        ExclusiveUntilExpiry(next, key, owner, cs[1..]);
      }
    }
  }

  // From an acquisition on, nobody else acquires the key before the time to live has passed.
  lemma AcquiredOnce(w: World, key: string, owner: Owner, ttl: int, cs: seq<Call>, other: Owner, ttl': int)
    requires Acquired(w.leases, w.now, key, owner, ttl).Ok? && Acquired(w.leases, w.now, key, owner, ttl).value.0
    requires forall k :: 0 <= k < |cs| ==> !GivesUp(cs[k], key, owner)
    ensures var after := Run(Next(w, Acquire(key, owner, ttl)), cs);
      after.now < w.now + ttl && other != "" && ttl' >= 1000 ==>
        Acquired(after.leases, after.now, key, other, ttl') == Ok((false, after.leases))
  {
    ExclusiveUntilExpiry(Next(w, Acquire(key, owner, ttl)), key, owner, cs);
  }

  // The run with every renewal and release of the key by the owner taken out.
  function Erased(cs: seq<Call>, key: string, owner: Owner): seq<Call> {
    if cs == [] then []
    else (if GivesUp(cs[0], key, owner) then [] else [cs[0]]) + Erased(cs[1..], key, owner)
  }

  // Once its lease is gone, an owner's renewals and releases have no effect on any run: erasing
  // them changes nothing, until it acquires the key again.
  lemma {:induction false} StaleOwnerIsPowerless(w: World, key: string, owner: Owner, cs: seq<Call>)
    requires Holder(w, key) != Some(owner)
    requires forall c :: c in cs && c.Acquire? && c.key == key ==> c.who != owner
    ensures Run(w, cs) == Run(w, Erased(cs, key, owner))
    ensures Holder(Run(w, cs), key) != Some(owner)
    decreases |cs|
  {
    if cs != [] {
      var next := Next(w, cs[0]);
      assert Holder(next, key) != Some(owner);
      StaleOwnerIsPowerless(next, key, owner, cs[1..]);
      if !GivesUp(cs[0], key, owner) {
        var kept := Erased(cs, key, owner);
        assert kept[0] == cs[0] && kept[1..] == Erased(cs[1..], key, owner);
      } else {
        assert next == w;
        assert Erased(cs, key, owner) == Erased(cs[1..], key, owner);
      }
    }
  }

  // ---------------------------------------------------------------- what each call does

  // A lease needs a key, an owner and a second at least; it is won exactly when nobody's on the key still
  // runs, and then runs for the time asked for.
  lemma AcquireLaw(w: World, key: string, who: Owner, ttl: int)
    ensures Acquired(w.leases, w.now, key, who, ttl).Err? <==> key == "" || who == "" || ttl < 1000
    ensures Acquired(w.leases, w.now, key, who, ttl).Ok? ==>
      var free := key !in w.leases || w.leases[key].expiresAt <= w.now;
      Acquired(w.leases, w.now, key, who, ttl).value ==
        (free, if free then w.leases[key := Lease(who, w.now + ttl)] else w.leases)
    ensures Next(w, Acquire(key, who, ttl)) == World(w.now,
      if key == "" || who == "" || ttl < 1000 || (key in w.leases && w.now < w.leases[key].expiresAt) then w.leases
      else w.leases[key := Lease(who, w.now + ttl)])
  {
  }

  // Only the owner of a lease that still runs renews it, for the time asked for from now on, and gives it
  // up with no time at all.
  lemma RenewLaw(w: World, key: string, who: Owner, ttl: int)
    ensures var mine := key in w.leases && w.now < w.leases[key].expiresAt && w.leases[key].owner == who;
      && Renewed(w.leases, w.now, key, who, ttl).0 == mine
      && Next(w, Renew(key, who, ttl)) == World(w.now,
           if !mine then w.leases else if ttl > 0 then w.leases[key := Lease(who, w.now + ttl)] else w.leases - {key})
  {
  }

  // And only they release it.
  lemma ReleaseLaw(w: World, key: string, who: Owner)
    ensures var mine := key in w.leases && w.now < w.leases[key].expiresAt && w.leases[key].owner == who;
      && Released(w.leases, w.now, key, who).0 == mine
      && Next(w, Release(key, who)) == World(w.now, if mine then w.leases - {key} else w.leases)
  {
  }

  lemma WaitLaw(w: World, elapsed: nat)
    ensures Next(w, Wait(elapsed)) == World(w.now + elapsed, w.leases)
  {
  }

  // A released lease and an expired one can be acquired at once, by anybody.
  lemma FreeAgain(w: World, key: string, who: Owner, other: Owner, ttl: int, elapsed: nat)
    requires Holder(w, key) == Some(who) && key != "" && other != "" && ttl >= 1000
    ensures Holder(Next(Next(w, Release(key, who)), Acquire(key, other, ttl)), key) == Some(other)
    ensures w.leases[key].expiresAt <= w.now + elapsed ==>
      Holder(Next(Next(w, Wait(elapsed)), Acquire(key, other, ttl)), key) == Some(other)
  {
  }

  // A run is its calls one after the other.
  lemma {:induction false} RunIs(w: World, cs: seq<Call>, c: Call)
    ensures Run(w, []) == w && Run(w, cs + [c]) == Next(Run(w, cs), c)
    decreases |cs|
  {
    if cs == [] {
      assert (cs + [c])[1..] == [];
    } else {
      assert (cs + [c])[1..] == cs[1..] + [c];
      RunIs(Next(w, cs[0]), cs[1..], c);
    }
  }
}
