// Concurrency limits: every request in flight holds one unit under its school and one under its
// extension, counted by counters that expire.
module Semaphore {
  import opened Results
  import opened FixedWindow

  datatype Phase = HasSchool | Refused | Inside | Gone

  // A request: the keys it is counted under and how far it has got.
  datatype Ticket = Ticket(school: string, extension: string, phase: Phase)

  datatype System = System(now: int, local: Counters, tickets: map<nat, Ticket>)

  datatype Limits = Limits(school: nat, extension: nat)

  const HOLD_MS: int := 300_000

  function SchoolKey(school: string): Key {
    "concurrency:school:" + school
  }

  function ExtensionKey(extension: string): Key {
    "concurrency:extension:" + extension
  }

  lemma KeysDiffer(school: string, extension: string)
    ensures SchoolKey(school) != ExtensionKey(extension)
  {
    assert SchoolKey(school)[12] == 's' && ExtensionKey(extension)[12] == 'e';
  }

  function Released(local: Counters, key: Key): Counters {
    if key !in local || local[key].count <= 1 then local - {key}
    else local[key := local[key].(count := local[key].count - 1)]
  }

  // An acquisition over the limit takes itself back.
  function Acquired(local: Counters, key: Key, now: int, ttl: int, limit: int): (bool, Counters) {
    var c := Bump(Stored(local, key), now, ttl);
    if c.count > limit then (false, Released(local[key := c], key)) else (true, local[key := c])
  }

  datatype Event =
    | Enter(id: nat, school: string, extension: string)
    | EnterExtension(id: nat)
    | GiveBack(id: nat)
    | Leave(id: nat)
    | Wait(elapsed: nat)

  function Step(limits: Limits, sys: System, ev: Event): System {
    match ev
    case Enter(id, school, extension) =>
      if id in sys.tickets then sys
      else
        var (ok, local) := Acquired(sys.local, SchoolKey(school), sys.now, HOLD_MS, limits.school);
        if ok then sys.(local := local, tickets := sys.tickets[id := Ticket(school, extension, HasSchool)])
        else sys.(local := local)
    case EnterExtension(id) =>
      if id !in sys.tickets || sys.tickets[id].phase != HasSchool then sys
      else
        var (ok, local) := Acquired(sys.local, ExtensionKey(sys.tickets[id].extension), sys.now, HOLD_MS,
            limits.extension);
        sys.(local := local, tickets := sys.tickets[id := sys.tickets[id].(phase := if ok then Inside else Refused)])
    case GiveBack(id) =>
      if id !in sys.tickets || sys.tickets[id].phase != Refused then sys
      else
        sys.(local := Released(sys.local, SchoolKey(sys.tickets[id].school)),
             tickets := sys.tickets[id := sys.tickets[id].(phase := Gone)])
    case Leave(id) =>
      if id !in sys.tickets || sys.tickets[id].phase != Inside then sys
      else
        var t := sys.tickets[id];
        sys.(local := Released(Released(sys.local, SchoolKey(t.school)), ExtensionKey(t.extension)),
             tickets := sys.tickets[id := t.(phase := Gone)])
    case Wait(elapsed) => sys.(now := sys.now + elapsed)
  }

  function Run(limits: Limits, sys: System, evs: seq<Event>): System
    decreases |evs|
  {
    if evs == [] then sys else Run(limits, Step(limits, sys, evs[0]), evs[1..])
  }

  function Begin(now: int): System {
    System(now, map[], map[])
  }

  // ---------------------------------------------------------------- holders

  predicate Holding(t: Ticket, key: Key) {
    (t.phase != Gone && key == SchoolKey(t.school)) || (t.phase == Inside && key == ExtensionKey(t.extension))
  }

  function Holders(tickets: map<nat, Ticket>, key: Key): set<nat> {
    set id | id in tickets && Holding(tickets[id], key)
  }

  function Count(local: Counters, key: Key): int {
    if key in local then local[key].count else 0
  }

  ghost predicate Sound(local: Counters, tickets: map<nat, Ticket>, key: Key) {
    && (key in local ==> local[key].count >= 1)
    && Count(local, key) <= |Holders(tickets, key)|
  }

  ghost predicate Exact(local: Counters, tickets: map<nat, Ticket>, key: Key) {
    && (key in local ==> local[key].count >= 1)
    && Count(local, key) == |Holders(tickets, key)|
  }

  lemma HoldersAfter(tickets: map<nat, Ticket>, id: nat, t: Ticket, key: Key)
    ensures var was := id in tickets && Holding(tickets[id], key);
      |Holders(tickets[id := t], key)| ==
        |Holders(tickets, key)| - (if was then 1 else 0) + (if Holding(t, key) then 1 else 0)
  {
    var others := Holders(tickets, key) - {id};
    if id in tickets && Holding(tickets[id], key) {
      assert Holders(tickets, key) == others + {id};
    } else {
      assert Holders(tickets, key) == others;
    }
    if Holding(t, key) {
      assert Holders(tickets[id := t], key) == others + {id};
    } else {
      assert Holders(tickets[id := t], key) == others;
    }
  }

  // The counter of a key moves with its holders.
  lemma AcquiredCount(local: Counters, key: Key, now: int, ttl: int, limit: int, other: Key)
    requires limit >= 1 && (other in local ==> local[other].count >= 1)
    ensures var (ok, after) := Acquired(local, key, now, ttl, limit);
      && (other in after ==> after[other].count >= 1)
      && Count(after, other) <= Count(local, other) + (if ok && other == key then 1 else 0)
      && ((key in local ==> now < local[key].expiresAt) ==>
            Count(after, other) == Count(local, other) + (if ok && other == key then 1 else 0))
      && (ok && other == key ==> Count(after, other) <= limit)
  {
  }

  lemma ReleasedCount(local: Counters, key: Key, other: Key)
    requires other in local ==> local[other].count >= 1
    ensures var after := Released(local, key);
      && (other in after ==> after[other].count >= 1)
      && Count(after, other) == if other == key && key in local then Count(local, other) - 1 else Count(local, other)
  {
  }

  // ---------------------------------------------------------------- whole runs

  ghost predicate AllSound(sys: System) {
    forall key {:trigger Sound(sys.local, sys.tickets, key)} :: Sound(sys.local, sys.tickets, key)
  }

  // Whether the event takes a unit under the key.
  predicate Acquires(sys: System, ev: Event, key: Key) {
    match ev
    case Enter(id, school, _) => id !in sys.tickets && key == SchoolKey(school)
    case EnterExtension(id) =>
      id in sys.tickets && sys.tickets[id].phase == HasSchool && key == ExtensionKey(sys.tickets[id].extension)
    case _ => false
  }

  // The event does not find the counter of the key expired when it needs it.
  predicate Unexpired(sys: System, ev: Event, key: Key) {
    Acquires(sys, ev, key) && key in sys.local ==> sys.now < sys.local[key].expiresAt
  }

  predicate AllUnexpired(limits: Limits, sys: System, evs: seq<Event>, key: Key)
    decreases |evs|
  {
    evs == [] || (Unexpired(sys, evs[0], key) && AllUnexpired(limits, Step(limits, sys, evs[0]), evs[1..], key))
  }

  // An event keeps the counter of a key at the number of its holders exactly when it does not find it
  // expired; and no event takes it above.
  lemma StepCounts(limits: Limits, sys: System, ev: Event, key: Key)
    requires limits.school >= 1 && limits.extension >= 1 && Sound(sys.local, sys.tickets, key)
    ensures var next := Step(limits, sys, ev); Sound(next.local, next.tickets, key)
    ensures Exact(sys.local, sys.tickets, key) ==>
      var next := Step(limits, sys, ev); Exact(next.local, next.tickets, key) <==> Unexpired(sys, ev, key)
  {
    match ev
    case Enter(id, school, extension) =>
      KeysDiffer(school, extension);
      AcquiredCount(sys.local, SchoolKey(school), sys.now, HOLD_MS, limits.school, key);
      HoldersAfter(sys.tickets, id, Ticket(school, extension, HasSchool), key);
    case EnterExtension(id) =>
      if id in sys.tickets && sys.tickets[id].phase == HasSchool {
        var t := sys.tickets[id];
        KeysDiffer(t.school, t.extension);
        AcquiredCount(sys.local, ExtensionKey(t.extension), sys.now, HOLD_MS, limits.extension, key);
        HoldersAfter(sys.tickets, id, t.(phase := Inside), key);
        HoldersAfter(sys.tickets, id, t.(phase := Refused), key);
      }
    case GiveBack(id) =>
      if id in sys.tickets && sys.tickets[id].phase == Refused {
        ReleasedCount(sys.local, SchoolKey(sys.tickets[id].school), key);
        HoldersAfter(sys.tickets, id, sys.tickets[id].(phase := Gone), key);
      }
    case Leave(id) =>
      if id in sys.tickets && sys.tickets[id].phase == Inside {
        var t := sys.tickets[id];
        KeysDiffer(t.school, t.extension);
        ReleasedCount(sys.local, SchoolKey(t.school), key);
        ReleasedCount(Released(sys.local, SchoolKey(t.school)), ExtensionKey(t.extension), key);
        HoldersAfter(sys.tickets, id, t.(phase := Gone), key);
      }
    case Wait(_) =>
  }

  ghost predicate ExactThroughout(limits: Limits, sys: System, evs: seq<Event>, key: Key)
    decreases |evs|
  {
    Exact(sys.local, sys.tickets, key) &&
      (evs == [] || ExactThroughout(limits, Step(limits, sys, evs[0]), evs[1..], key))
  }

  // In any run, a counter is the number of its holders all the time exactly when no acquisition finds
  // it expired.
  lemma {:induction false} ExactThroughoutIff(limits: Limits, sys: System, evs: seq<Event>, key: Key)
    requires limits.school >= 1 && limits.extension >= 1 && Exact(sys.local, sys.tickets, key)
    ensures ExactThroughout(limits, sys, evs, key) <==> AllUnexpired(limits, sys, evs, key)
    ensures AllUnexpired(limits, sys, evs, key) ==>
      var after := Run(limits, sys, evs); Exact(after.local, after.tickets, key)
    decreases |evs|
  {
    if evs != [] {
      StepCounts(limits, sys, evs[0], key);
      if Unexpired(sys, evs[0], key) {
        ExactThroughoutIff(limits, Step(limits, sys, evs[0]), evs[1..], key);
      }
    }
  }

  ghost predicate WithinLimits(limits: Limits, local: Counters) {
    && (forall s {:trigger SchoolKey(s)} :: Count(local, SchoolKey(s)) <= limits.school)
    && (forall e {:trigger ExtensionKey(e)} :: Count(local, ExtensionKey(e)) <= limits.extension)
  }

  predicate AtMost(limits: Limits, local: Counters, school: string, extension: string) {
    Count(local, SchoolKey(school)) <= limits.school && Count(local, ExtensionKey(extension)) <= limits.extension
  }

  lemma StepAtMost(limits: Limits, sys: System, ev: Event, s: string, e: string)
    requires limits.school >= 1 && limits.extension >= 1 && AllSound(sys) && AtMost(limits, sys.local, s, e)
    ensures AtMost(limits, Step(limits, sys, ev).local, s, e)
  {
    assert Sound(sys.local, sys.tickets, SchoolKey(s)) && Sound(sys.local, sys.tickets, ExtensionKey(e));
    KeysDiffer(s, e);
    match ev
    case Enter(_, school, _) =>
      KeysDiffer(school, e);
      AcquiredCount(sys.local, SchoolKey(school), sys.now, HOLD_MS, limits.school, SchoolKey(s));
      AcquiredCount(sys.local, SchoolKey(school), sys.now, HOLD_MS, limits.school, ExtensionKey(e));
    case EnterExtension(id) =>
      if id in sys.tickets {
        var extension := sys.tickets[id].extension;
        KeysDiffer(s, extension);
        AcquiredCount(sys.local, ExtensionKey(extension), sys.now, HOLD_MS, limits.extension, SchoolKey(s));
        AcquiredCount(sys.local, ExtensionKey(extension), sys.now, HOLD_MS, limits.extension, ExtensionKey(e));
      }
    case GiveBack(id) =>
      if id in sys.tickets {
        ReleasedAtMost(limits, sys.local, SchoolKey(sys.tickets[id].school), s, e);
      }
    case Leave(id) =>
      if id in sys.tickets {
        var t := sys.tickets[id];
        ReleasedAtMost(limits, sys.local, SchoolKey(t.school), s, e);
        ReleasedCount(sys.local, SchoolKey(t.school), SchoolKey(s));
        ReleasedCount(sys.local, SchoolKey(t.school), ExtensionKey(e));
        ReleasedAtMost(limits, Released(sys.local, SchoolKey(t.school)), ExtensionKey(t.extension), s, e);
      }
    case Wait(_) =>
  }

  lemma ReleasedAtMost(limits: Limits, local: Counters, key: Key, s: string, e: string)
    requires AtMost(limits, local, s, e)
    requires SchoolKey(s) in local ==> local[SchoolKey(s)].count >= 1
    requires ExtensionKey(e) in local ==> local[ExtensionKey(e)].count >= 1
    ensures AtMost(limits, Released(local, key), s, e)
  {
    ReleasedCount(local, key, SchoolKey(s));
    ReleasedCount(local, key, ExtensionKey(e));
  }

  lemma {:induction false} RunCounts(limits: Limits, sys: System, evs: seq<Event>)
    requires limits.school >= 1 && limits.extension >= 1 && AllSound(sys) && WithinLimits(limits, sys.local)
    ensures var after := Run(limits, sys, evs); AllSound(after) && WithinLimits(limits, after.local)
    decreases |evs|
  {
    if evs != [] {
      var ev := evs[0];
      var next := Step(limits, sys, ev);
      forall key ensures Sound(next.local, next.tickets, key) {
        assert Sound(sys.local, sys.tickets, key);
        StepCounts(limits, sys, ev, key);
      }
      forall s, e ensures AtMost(limits, next.local, s, e) {
        StepAtMost(limits, sys, ev, s, e);
      }
      forall s ensures Count(next.local, SchoolKey(s)) <= limits.school { assert AtMost(limits, next.local, s, ""); }
      forall e ensures Count(next.local, ExtensionKey(e)) <= limits.extension {
        assert AtMost(limits, next.local, "", e);
      }
      RunCounts(limits, next, evs[1..]);
    }
  }

  // In every run, with counters expiring at any time: no counter exceeds its limit or the number of
  // requests that hold it; and it is that number as long as no acquisition finds it expired.
  lemma CountersNeverLeak(limits: Limits, now: int, evs: seq<Event>, key: Key)
    requires limits.school >= 1 && limits.extension >= 1
    ensures var sys := Run(limits, Begin(now), evs);
      && Count(sys.local, key) <= |Holders(sys.tickets, key)|
      && (forall s :: Count(sys.local, SchoolKey(s)) <= limits.school)
      && (forall e :: Count(sys.local, ExtensionKey(e)) <= limits.extension)
      && (AllUnexpired(limits, Begin(now), evs, key) ==> Count(sys.local, key) == |Holders(sys.tickets, key)|)
  {
    var start := Begin(now);
    RunCounts(limits, start, evs);
    ExactThroughoutIff(limits, start, evs, key);
    var sys := Run(limits, start, evs);
    assert Sound(sys.local, sys.tickets, key);
  }

  // ---------------------------------------------------------------- refusal and release

  // What a counter that has expired is worth: nothing.
  function Effective(local: Counters, now: int, key: Key): Option<Counter> {
    if key in local && now < local[key].expiresAt then Some(local[key]) else None
  }

  lemma EffectiveLaw(local: Counters, now: int, key: Key)
    ensures Effective(local, now, key) == None <==> key !in local || local[key].expiresAt <= now
    ensures Effective(local, now, key).Some? ==> Effective(local, now, key).value == local[key]
  {
  }

  // A request that gets its school's unit but not its extension's leaves every counter as it was.
  lemma RefusedLeavesNoTrace(limits: Limits, sys: System, id: nat, school: string, extension: string, key: Key)
    requires limits.school >= 1 && limits.extension >= 1 && id !in sys.tickets
    requires key in sys.local ==> sys.local[key].count >= 1
    ensures var entered := Step(limits, sys, Enter(id, school, extension));
      var tried := Step(limits, entered, EnterExtension(id));
      var after := Step(limits, tried, GiveBack(id));
      id in tried.tickets && tried.tickets[id].phase == Refused ==>
        Effective(after.local, sys.now, key) == Effective(sys.local, sys.now, key) && id !in Holders(after.tickets, key)
  {
  }

  // Neither does one that is refused at once.
  lemma OverLimitLeavesNoTrace(local: Counters, key: Key, now: int, ttl: int, limit: int, other: Key)
    requires limit >= 1 && !Acquired(local, key, now, ttl, limit).0
    ensures Effective(Acquired(local, key, now, ttl, limit).1, now, other) == Effective(local, now, other)
  {
  }

  // Releasing twice is releasing once.
  lemma LeaveTwice(limits: Limits, sys: System, id: nat)
    ensures var once := Step(limits, sys, Leave(id)); Step(limits, once, Leave(id)) == once
  {
  }

  // After an expiry a counter may stay below the number of its holders: two requests in flight, and
  // the counter says one.
  lemma ExpiryUndercounts(limits: Limits)
    requires limits.school >= 1 && limits.extension >= 1
    ensures exists evs: seq<Event>, key ::
      var sys := Run(limits, Begin(0), evs); Count(sys.local, key) < |Holders(sys.tickets, key)|
  {
    var evs := [Enter(1, "s", "e"), Wait(HOLD_MS), Enter(2, "s", "e")];
    var key := SchoolKey("s");
    var s1 := Step(limits, Begin(0), evs[0]);
    var s2 := Step(limits, s1, evs[1]);
    var s3 := Step(limits, s2, evs[2]);
    assert Run(limits, s2, [evs[2]]) == s3;
    assert evs[1..][1..] == [evs[2]];
    assert Run(limits, Begin(0), evs) == s3;
    assert Holders(s3.tickets, key) == {1, 2};
    assert Count(s3.local, key) == 1;
  }

  // ---------------------------------------------------------------- what each event does

  // A request takes its school's unit first, and is turned away without it; then its extension's, and
  // without that it has to give the school's back.
  lemma EnterLaw(limits: Limits, sys: System, id: nat, school: string, extension: string)
    ensures id in sys.tickets ==> Step(limits, sys, Enter(id, school, extension)) == sys
    ensures id !in sys.tickets ==>
      var (ok, local) := Acquired(sys.local, "concurrency:school:" + school, sys.now, 300_000, limits.school);
      Step(limits, sys, Enter(id, school, extension)) == System(sys.now, local,
        if ok then sys.tickets[id := Ticket(school, extension, HasSchool)] else sys.tickets)
    ensures id !in sys.tickets || sys.tickets[id].phase != HasSchool ==>
      Step(limits, sys, EnterExtension(id)) == sys
    ensures id in sys.tickets && sys.tickets[id].phase == HasSchool ==>
      var t := sys.tickets[id];
      var (ok, local) := Acquired(sys.local, "concurrency:extension:" + t.extension, sys.now, 300_000,
        limits.extension);
      Step(limits, sys, EnterExtension(id)) ==
        System(sys.now, local, sys.tickets[id := Ticket(t.school, t.extension, if ok then Inside else Refused)])
  {
  }

  // A refused request gives back its school's unit, and one inside gives back both when it leaves; both
  // are then gone and give nothing back again.
  lemma LeaveLaw(limits: Limits, sys: System, id: nat)
    requires id in sys.tickets
    ensures var t := sys.tickets[id];
      var school := Released(sys.local, "concurrency:school:" + t.school);
      && Step(limits, sys, GiveBack(id)) ==
           (if t.phase == Refused
            then System(sys.now, school, sys.tickets[id := Ticket(t.school, t.extension, Gone)]) else sys)
      && Step(limits, sys, Leave(id)) ==
           (if t.phase == Inside
            then System(sys.now, Released(school, "concurrency:extension:" + t.extension),
              sys.tickets[id := Ticket(t.school, t.extension, Gone)])
            else sys)
  {
  }

  lemma WaitLaw(limits: Limits, sys: System, elapsed: nat)
    ensures Step(limits, sys, Wait(elapsed)) == System(sys.now + elapsed, sys.local, sys.tickets)
  {
  }

  // A unit more is counted from one where none is or the last has expired; over the limit it is taken
  // back. A unit less takes the last one away with its counter.
  lemma UnitLaw(local: Counters, key: Key, now: int, ttl: int, limit: int)
    ensures var running := key in local && now < local[key].expiresAt;
      var c := if running then Counter(local[key].count + 1, local[key].expiresAt) else Counter(1, now + ttl);
      && Acquired(local, key, now, ttl, limit).0 == (c.count <= limit)
      && (c.count <= limit ==> Acquired(local, key, now, ttl, limit).1 == local[key := c])
      && (c.count > limit ==>
            Acquired(local, key, now, ttl, limit).1 ==
              if c.count > 1 then local[key := Counter(c.count - 1, c.expiresAt)] else local - {key})
    ensures Released(local, key) ==
      if key in local && local[key].count > 1
      then local[key := Counter(local[key].count - 1, local[key].expiresAt)]
      else local - {key}
  {
    if key in local && now < local[key].expiresAt {
      var c := Counter(local[key].count + 1, local[key].expiresAt);
      var back := Counter(c.count - 1, c.expiresAt);
      assert local[key := c][key := back] == local[key := back];
      assert local[key := c] - {key} == local - {key};
    } else {
      assert local[key := Counter(1, now + ttl)] - {key} == local - {key};
    }
  }
}
