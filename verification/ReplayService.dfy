// One replay from end to end, as the queue service performs it when nothing interrupts it, and its
// agreement with the steps of the dead-letter protocol.
module ReplayService {
  import opened Results
  import opened DeadLetter

  datatype Refusal = InProgress | NotFound | WrongState(state: State)

  datatype Queues = Queues(target: map<JobId, Job>, dead: map<string, Entry>)

  // The replayed job replaces the failed one, if that is still there, and its dead letter goes.
  function Replayed(q: Queues, dead: string): Result<Queues, Refusal> {
    if dead !in q.dead then Err(NotFound)
    else
      var e := q.dead[dead];
      if e.job in q.target && q.target[e.job].state != Failed then Err(WrongState(q.target[e.job].state))
      else Ok(Queues(q.target[e.job := Job(e.envelope, Waiting)], q.dead - {dead}))
  }

  class Service {
    var leases: Leases.KeyStore
    var target: map<JobId, Job>
    var dead: map<string, Entry>

    constructor ()
      ensures fresh(leases) && leases.leases == map[] && target == map[] && dead == map[]
    {
      leases := new Leases.KeyStore();
      target, dead := map[], map[];
    }

    function Contents(): Queues
      reads this
    {
      Queues(target, dead)
    }

    method ReplayDeadLetter(now: int, owner: Owner, id: string) returns (r: Result<JobId, Refusal>)
      requires owner != ""
      modifies this, leases
      ensures leases == old(leases)
      ensures Leases.HolderOf(old(leases.leases), now, LeaseKey(id)).Some? <==> r == Err(InProgress)
      ensures r.Ok? ==> id in old(dead) && r.value == old(dead)[id].job
      ensures r != Err(InProgress) ==>
        match Replayed(old(Contents()), id) {
          case Err(e) => r == Err(e)
          case Ok(q) => r.Ok? && Contents() == q
        }
      ensures r.Err? ==> Contents() == old(Contents())
      ensures forall key :: Leases.HolderOf(leases.leases, now, key) == old(Leases.HolderOf(leases.leases, now, key))
    {
      var won := leases.AcquireLease(now, LeaseKey(id), owner, REPLAY_LEASE_MS);
      if won != Ok(true) {
        return Err(InProgress);
      }
      r := this.Transfer(id);
      var _ := leases.ReleaseLease(now, LeaseKey(id), owner);
    }

    method Transfer(id: string) returns (r: Result<JobId, Refusal>)
      modifies this`target, this`dead
      ensures r.Ok? ==> id in old(dead) && r.value == old(dead)[id].job
      ensures match Replayed(old(Contents()), id) {
                case Err(e) => r == Err(e) && Contents() == old(Contents())
                case Ok(q) => r.Ok? && Contents() == q
              }
    {
      if id !in dead {
        return Err(NotFound);
      }
      var e := dead[id];
      if e.job in target {
        if target[e.job].state != Failed {
          return Err(WrongState(target[e.job].state));
        }
        target := target - {e.job};
      }
      target := target[e.job := Job(e.envelope, Waiting)];
      dead := dead - {id};
      r := Ok(e.job);
    }
  }

  // ---------------------------------------------------------------- agreement with the protocol

  function Advanced(sys: System, owner: Owner, steps: nat): System
    decreases steps
  {
    if steps == 0 then sys else Advanced(Step(sys, Advance(owner)), owner, steps - 1)
  }

  predicate Over(sys: System, owner: Owner, q: Queues) {
    owner !in sys.replays && sys.target == q.target && sys.dead == q.dead
  }

  lemma {:induction false} StaysOver(sys: System, owner: Owner, q: Queues, steps: nat)
    requires Over(sys, owner, q)
    ensures Over(Advanced(sys, owner, steps), owner, q)
    decreases steps
  {
    if steps > 0 {
      StaysOver(Step(sys, Advance(owner)), owner, q, steps - 1);
    }
  }

  // The queues that remain to be reached from each point of a replay.
  function Outcome(sys: System, owner: Owner): Queues
    requires owner in sys.replays
  {
    var q := Queues(sys.target, sys.dead);
    var r := sys.replays[owner];
    match r.phase
    case ReadingDead =>
      (match Replayed(q, r.dead)
       case Err(_) => q
       case Ok(next) => next)
    case FindingSource(e) =>
      if e.job in q.target && q.target[e.job].state != Failed then q
      else Queues(q.target[e.job := Job(e.envelope, Waiting)], q.dead - {r.dead})
    case CheckingState(e) =>
      if e.job !in q.target || q.target[e.job].state != Failed then q
      else Queues(q.target[e.job := Job(e.envelope, Waiting)], q.dead - {r.dead})
    case RemovingSource(e) =>
      if e.job in q.target && q.target[e.job].state == Active then q
      else Queues(q.target[e.job := Job(e.envelope, Waiting)], q.dead - {r.dead})
    case Adding(e) => Queues(AddJob(q.target, e.job, e.envelope), q.dead - {r.dead})
    case RemovingDead(_) => Queues(q.target, q.dead - {r.dead})
    case Releasing => q
  }

  function StepsLeft(phase: Phase): nat {
    match phase
    case ReadingDead => 7
    case FindingSource(_) => 6
    case CheckingState(_) => 5
    case RemovingSource(_) => 4
    case Adding(_) => 3
    case RemovingDead(_) => 2
    case Releasing => 1
  }

  lemma StepAdvances(sys: System, owner: Owner)
    requires owner in sys.replays && owner in sys.added && !sys.replays[owner].phase.Releasing?
    ensures var next := Replaying(sys, owner);
      && owner in next.replays && owner in next.added && next.replays[owner].dead == sys.replays[owner].dead
      && StepsLeft(next.replays[owner].phase) < StepsLeft(sys.replays[owner].phase)
  {
    assert owner in Replaying(sys, owner).added;
    var p :| Replaying(sys, owner).replays == sys.replays[owner := sys.replays[owner].(phase := p)];
  }

  lemma StepTowards(sys: System, owner: Owner)
    requires owner in sys.replays && owner in sys.added && !sys.replays[owner].phase.Releasing?
    ensures owner in Replaying(sys, owner).replays && Outcome(Replaying(sys, owner), owner) == Outcome(sys, owner)
  {
    StepAdvances(sys, owner);
    var r, next := sys.replays[owner], Replaying(sys, owner);
    match r.phase
    case RemovingSource(e) =>
      assert AddJob(sys.target - {e.job}, e.job, e.envelope) == sys.target[e.job := Job(e.envelope, Waiting)];
    case _ =>
  }

  lemma StepEnds(sys: System, owner: Owner)
    requires owner in sys.replays && owner in sys.added && sys.replays[owner].phase.Releasing?
    ensures Over(Replaying(sys, owner), owner, Outcome(sys, owner))
  {
  }

  lemma {:induction false} LeadsToOutcome(sys: System, owner: Owner, steps: nat)
    requires owner in sys.replays && owner in sys.added && StepsLeft(sys.replays[owner].phase) <= steps
    ensures Over(Advanced(sys, owner, steps), owner, Outcome(sys, owner))
    decreases steps
  {
    var next := Step(sys, Advance(owner));
    if sys.replays[owner].phase.Releasing? {
      StepEnds(sys, owner);
      StaysOver(next, owner, Outcome(sys, owner), steps - 1);
    } else {
      StepAdvances(sys, owner);
      StepTowards(sys, owner);
      LeadsToOutcome(next, owner, steps - 1);
    }
  }

  // Undisturbed, the steps of a replay come to exactly what the service computes in one go.
  lemma StepsComputeReplay(sys: System, owner: Owner, dead: string)
    requires owner != "" && owner !in sys.added && Leases.HolderOf(sys.leases, sys.now, LeaseKey(dead)) == None
    ensures var done := Advanced(Step(sys, Open(owner, dead)), owner, 7);
      match Replayed(Queues(sys.target, sys.dead), dead)
      case Err(_) => Over(done, owner, Queues(sys.target, sys.dead))
      case Ok(q) => Over(done, owner, q)
  {
    LeadsToOutcome(Step(sys, Open(owner, dead)), owner, 7);
  }
}
