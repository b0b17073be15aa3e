// Dead-letter replay: a work queue, its dead-letter queue, workers, and operators who replay dead
// letters under a lease. Every await is one step, and anybody may crash between two steps.
module DeadLetter {
  import opened Results
  import Leases

  type JobId = string
  type Envelope = string
  type Owner = string

  datatype State = Waiting | Active | Failed | Completed

  datatype Job = Job(envelope: Envelope, state: State)

  datatype Entry = Entry(envelope: Envelope, job: JobId)

  // Where a replay stands: what it will do next, with the dead letter it has read.
  datatype Phase =
    | ReadingDead
    | FindingSource(entry: Entry)
    | CheckingState(entry: Entry)
    | RemovingSource(entry: Entry)
    | Adding(entry: Entry)
    | RemovingDead(entry: Entry)
    | Releasing

  datatype Replay = Replay(dead: string, phase: Phase)

  datatype System = System(
    now: int,
    leases: Leases.Table,
    target: map<JobId, Job>,
    dead: map<string, Entry>,
    failures: set<JobId>,             // exhausted jobs whose failure handler has not run yet
    replays: map<Owner, Replay>,
    submitted: map<JobId, Envelope>,
    completed: set<JobId>,
    added: map<Owner, nat>,           // jobs that each replay has added
    successes: set<Owner>)            // replays that reported success

  datatype Event =
    | Submit(job: JobId, envelope: Envelope)
    | Start(job: JobId)
    | Complete(job: JobId)
    | Retry(job: JobId)
    | Exhaust(job: JobId)
    | Handle(job: JobId)
    | LoseHandler(job: JobId)
    | Evict(job: JobId)
    | Open(owner: Owner, dead: string)
    | Advance(owner: Owner)
    | Abandon(owner: Owner)
    | Wait(elapsed: nat)

  const REPLAY_LEASE_MS: int := 30_000

  function DeadId(job: JobId): string {
    job + "-dead"
  }

  function LeaseKey(dead: string): string {
    "dead-letter-replay:" + dead
  }

  function Begin(): System {
    System(0, map[], map[], map[], {}, map[], map[], {}, map[], {})
  }

  // ---------------------------------------------------------------- steps

  // Adding a job under an id that exists does nothing.
  function AddJob(target: map<JobId, Job>, job: JobId, envelope: Envelope): map<JobId, Job> {
    if job in target then target else target[job := Job(envelope, Waiting)]
  }

  function Move(sys: System, job: JobId, from: State, to: State): System {
    if job in sys.target && sys.target[job].state == from
    then sys.(target := sys.target[job := sys.target[job].(state := to)])
    else sys
  }

  predicate ByWorker(ev: Event) {
    ev.Submit? || ev.Start? || ev.Complete? || ev.Retry? || ev.Exhaust? || ev.Handle? || ev.LoseHandler? || ev.Evict?
  }

  function WorkerStep(sys: System, ev: Event): System
    requires ByWorker(ev)
  {
    match ev
    case Submit(job, envelope) =>
      if job in sys.target then sys
      else sys.(target := AddJob(sys.target, job, envelope), submitted := sys.submitted[job := envelope])
    case Start(job) => Move(sys, job, Waiting, Active)
    case Retry(job) => Move(sys, job, Active, Waiting)
    case Complete(job) =>
      if job in sys.target && sys.target[job].state == Active
      then Move(sys, job, Active, Completed).(completed := sys.completed + {job})
      else sys
    case Exhaust(job) =>
      if job in sys.target && sys.target[job].state == Active
      then Move(sys, job, Active, Failed).(failures := sys.failures + {job})
      else sys
    case Handle(job) =>
      if job !in sys.failures || job !in sys.submitted then sys
      else
        sys.(failures := sys.failures - {job},
             dead := if DeadId(job) in sys.dead then sys.dead
                     else sys.dead[DeadId(job) := Entry(sys.submitted[job], job)])
    case LoseHandler(job) => sys.(failures := sys.failures - {job})
    case Evict(job) =>
      if job in sys.target && sys.target[job].state == Completed then sys.(target := sys.target - {job}) else sys
  }

  function OpenReplay(sys: System, owner: Owner, dead: string): System {
    match Leases.Acquired(sys.leases, sys.now, LeaseKey(dead), owner, REPLAY_LEASE_MS)
    case Err(_) => sys
    case Ok((won, leases)) =>
      if !won || owner in sys.added then sys
      else sys.(leases := leases, replays := sys.replays[owner := Replay(dead, ReadingDead)],
          added := sys.added[owner := 0])
  }

  function Proceed(sys: System, owner: Owner, phase: Phase): System
    requires owner in sys.replays
  {
    sys.(replays := sys.replays[owner := sys.replays[owner].(phase := phase)])
  }

  function Replaying(sys: System, owner: Owner): System
    requires owner in sys.replays && owner in sys.added
  {
    var r := sys.replays[owner];
    match r.phase
    case ReadingDead => Proceed(sys, owner, if r.dead in sys.dead then FindingSource(sys.dead[r.dead]) else Releasing)
    case FindingSource(e) => Proceed(sys, owner, if e.job in sys.target then CheckingState(e) else Adding(e))
    case CheckingState(e) =>
      Proceed(sys, owner,
              if e.job in sys.target && sys.target[e.job].state == Failed then RemovingSource(e) else Releasing)
    case RemovingSource(e) =>
      // An active job is locked by its worker and cannot be removed.
      if e.job in sys.target && sys.target[e.job].state == Active then Proceed(sys, owner, Releasing)
      else Proceed(sys, owner, Adding(e)).(target := sys.target - {e.job})
    case Adding(e) =>
      Proceed(sys, owner, RemovingDead(e)).(
        target := AddJob(sys.target, e.job, e.envelope),
        added := sys.added[owner := sys.added[owner] + if e.job in sys.target then 0 else 1])
    case RemovingDead(e) =>
      Proceed(sys, owner, Releasing).(dead := sys.dead - {r.dead}, successes := sys.successes + {owner})
    case Releasing =>
      sys.(leases := Leases.Released(sys.leases, sys.now, LeaseKey(r.dead), owner).1, replays := sys.replays - {owner})
  }

  function Step(sys: System, ev: Event): System {
    match ev
    case Open(owner, dead) => OpenReplay(sys, owner, dead)
    case Advance(owner) => if owner in sys.replays && owner in sys.added then Replaying(sys, owner) else sys
    case Abandon(owner) => sys.(replays := sys.replays - {owner})
    case Wait(elapsed) => sys.(now := sys.now + elapsed)
    case _ => WorkerStep(sys, ev)
  }

  function Run(sys: System, evs: seq<Event>): System
    decreases |evs|
  {
    if evs == [] then sys else Run(Step(sys, evs[0]), evs[1..])
  }

  // ---------------------------------------------------------------- what is kept

  predicate Holds(sys: System, owner: Owner, dead: string) {
    Leases.HolderOf(sys.leases, sys.now, LeaseKey(dead)) == Some(owner)
  }

  predicate InTarget(sys: System, job: JobId) {
    job in sys.target && job in sys.submitted && sys.target[job].envelope == sys.submitted[job]
  }

  predicate IsDead(sys: System, job: JobId) {
    DeadId(job) in sys.dead && job in sys.submitted && sys.dead[DeadId(job)] == Entry(sys.submitted[job], job)
  }

  predicate Kept(sys: System, job: JobId) {
    InTarget(sys, job) || IsDead(sys, job) || job in sys.completed
  }

  ghost predicate NothingLost(sys: System) {
    forall job {:trigger Kept(sys, job)} :: job in sys.submitted ==> Kept(sys, job)
  }

  // Every job and dead letter carries the envelope that was submitted.
  ghost predicate Authentic(sys: System) {
    && (forall job {:trigger job in sys.target} :: job in sys.target ==>
          InTarget(sys, job) && (sys.target[job].state == Completed ==> job in sys.completed))
    && (forall d {:trigger d in sys.dead} :: d in sys.dead ==>
      d == DeadId(sys.dead[d].job) && IsDead(sys, sys.dead[d].job))
    && (forall job {:trigger job in sys.failures} :: job in sys.failures ==> job in sys.submitted)
  }

  predicate Past(phase: Phase) {
    !phase.ReadingDead? && !phase.Releasing?
  }

  // A replay past its first read works on the dead letter of a job that was submitted.
  predicate Named(sys: System, owner: Owner) {
    owner in sys.replays && Past(sys.replays[owner].phase) ==>
      var r := sys.replays[owner];
      && r.dead == DeadId(r.phase.entry.job) && r.phase.entry.job in sys.submitted
      && r.phase.entry.envelope == sys.submitted[r.phase.entry.job]
  }

  ghost predicate ReplaysNamed(sys: System) {
    forall owner {:trigger Named(sys, owner)} :: Named(sys, owner) && (owner in sys.replays ==> owner in sys.added)
  }

  // A job id is submitted again only while its job is still there.
  predicate FreshSubmit(sys: System, ev: Event) {
    ev.Submit? && ev.job in sys.submitted ==> ev.job in sys.target
  }

  lemma DeadIdInjective(a: JobId, b: JobId)
    requires DeadId(a) == DeadId(b)
    ensures a == b
  {
    assert a == DeadId(a)[..|DeadId(a)| - 5];
    assert b == DeadId(b)[..|DeadId(b)| - 5];
  }

  // ---------------------------------------------------------------- one step

  // What worker steps do for jobs, and what replays rely on.
  ghost predicate KeepsJobs(sys: System, next: System) {
    && Authentic(next)
    && (forall job {:trigger Kept(next, job)} :: job in sys.submitted && Kept(sys, job) ==> Kept(next, job))
    && (forall job {:trigger Kept(next, job)} :: job in next.submitted && job !in sys.submitted ==> Kept(next, job))
  }

  lemma HandleKeepsJobs(sys: System, job: JobId)
    requires Authentic(sys)
    ensures KeepsJobs(sys, Step(sys, Handle(job)))
  {
    var next := Step(sys, Handle(job));
    forall d | d in next.dead ensures d == DeadId(next.dead[d].job) && IsDead(next, next.dead[d].job) {
      assert d in sys.dead || d == DeadId(job);
    }
    assert forall j {:trigger IsDead(next, j)} :: IsDead(sys, j) ==> IsDead(next, j);
  }

  lemma SubmitKeepsJobs(sys: System, job: JobId, envelope: Envelope)
    requires Authentic(sys) && FreshSubmit(sys, Submit(job, envelope))
    ensures KeepsJobs(sys, Step(sys, Submit(job, envelope)))
  {
    var next := Step(sys, Submit(job, envelope));
    assert forall j {:trigger IsDead(next, j)} :: IsDead(sys, j) ==> IsDead(next, j);
  }

  lemma MoveKeepsJobs(sys: System, ev: Event)
    requires Authentic(sys) && ByWorker(ev) && !ev.Submit? && !ev.Handle?
    ensures KeepsJobs(sys, Step(sys, ev))
  {
    var next := Step(sys, ev);
    assert next.dead == sys.dead && next.submitted == sys.submitted;
    assert forall j {:trigger IsDead(next, j)} :: IsDead(next, j) == IsDead(sys, j);
  }

  lemma WorkerKeepsJobs(sys: System, ev: Event)
    requires Authentic(sys) && FreshSubmit(sys, ev) && ByWorker(ev)
    ensures KeepsJobs(sys, Step(sys, ev))
  {
    if ev.Submit? {
      SubmitKeepsJobs(sys, ev.job, ev.envelope);
    } else if ev.Handle? {
      HandleKeepsJobs(sys, ev.job);
    } else {
      MoveKeepsJobs(sys, ev);
    }
  }

  // A replay touches its own job, its own dead letter and its own lease, and nothing else.
  lemma ReplayIsLocal(sys: System, owner: Owner, o: Owner, job: JobId)
    requires owner in sys.replays && owner in sys.added && o != owner
    requires Past(sys.replays[owner].phase) ==>
      sys.replays[owner].dead == DeadId(sys.replays[owner].phase.entry.job) && sys.replays[owner].phase.entry.job != job
    ensures var next := Replaying(sys, owner);
      && InTarget(next, job) == InTarget(sys, job) && IsDead(next, job) == IsDead(sys, job)
      && (job in next.target <==> job in sys.target)
      && (job in sys.target ==> next.target[job] == sys.target[job])
  {
    if Past(sys.replays[owner].phase) && DeadId(job) == sys.replays[owner].dead {
      DeadIdInjective(job, sys.replays[owner].phase.entry.job);
    }
  }

  lemma ReplayKeepsReplays(sys: System, owner: Owner, o: Owner)
    requires owner in sys.replays && owner in sys.added && o != owner
    ensures var next := Replaying(sys, owner);
      && (o in next.replays <==> o in sys.replays)
      && (o in sys.replays ==> next.replays[o] == sys.replays[o])
  {
    if sys.replays[owner].phase.Releasing? {
      assert Replaying(sys, owner).replays == sys.replays - {owner};
    } else {
      ghost var r :| Replaying(sys, owner).replays == sys.replays[owner := r];
    }
  }

  lemma ReplayKeepsCounts(sys: System, owner: Owner, o: Owner)
    requires owner in sys.replays && owner in sys.added && o != owner
    ensures var next := Replaying(sys, owner);
      && (o in next.added <==> o in sys.added)
      && (o in sys.added ==> next.added[o] == sys.added[o])
      && (o in next.successes <==> o in sys.successes)
  {
    assert Replaying(sys, owner).successes in {sys.successes, sys.successes + {owner}};
  }

  lemma ReplayKeepsHolders(sys: System, owner: Owner, o: Owner, dead: string)
    requires owner in sys.replays && owner in sys.added
    ensures var next := Replaying(sys, owner);
      && next.submitted == sys.submitted && next.completed == sys.completed
      && (Holds(next, o, dead) ==> Holds(sys, o, dead))
  {
    assert Replaying(sys, owner).now == sys.now;
    assert Replaying(sys, owner).leases in {sys.leases, sys.leases - {LeaseKey(sys.replays[owner].dead)}};
  }

  lemma ReplayAuthentic(sys: System, owner: Owner)
    requires Authentic(sys) && Named(sys, owner) && owner in sys.replays && owner in sys.added
    ensures Authentic(Replaying(sys, owner))
  {
    ReplayKeepsHolders(sys, owner, owner, "");
    var next, phase := Replaying(sys, owner), sys.replays[owner].phase;
    assert next.failures == sys.failures;
    assert forall d :: d in next.dead ==> d in sys.dead && next.dead[d] == sys.dead[d];
    forall job | job in next.target
      ensures InTarget(next, job) && (next.target[job].state == Completed ==> job in next.completed) {
      assert job in sys.target || (phase.Adding? && phase.entry.job == job);
    }
  }

  lemma ReplayNamed(sys: System, owner: Owner, o: Owner)
    requires Authentic(sys) && Named(sys, owner) && Named(sys, o) && owner in sys.replays && owner in sys.added
    requires o in sys.replays ==> o in sys.added
    ensures Named(Replaying(sys, owner), o) && (o in Replaying(sys, owner).replays ==> o in Replaying(sys, owner).added)
  {
    ReplayKeepsHolders(sys, owner, owner, "");
    if o != owner {
      ReplayKeepsReplays(sys, owner, o);
      ReplayKeepsCounts(sys, owner, o);
    }
  }

  lemma WorkerNamed(sys: System, ev: Event, o: Owner)
    requires Named(sys, o) && ByWorker(ev) && FreshSubmit(sys, ev) && Authentic(sys)
    ensures Named(Step(sys, ev), o) && Step(sys, ev).replays == sys.replays && Step(sys, ev).added == sys.added
  {
  }

  lemma OperatorAuthentic(sys: System, ev: Event)
    requires Authentic(sys) && ReplaysNamed(sys) && (ev.Open? || ev.Abandon? || ev.Wait?)
    ensures Authentic(Step(sys, ev)) && ReplaysNamed(Step(sys, ev))
  {
    var next := Step(sys, ev);
    assert next.target == sys.target && next.dead == sys.dead && next.submitted == sys.submitted;
    assert forall j {:trigger IsDead(next, j)} :: IsDead(next, j) == IsDead(sys, j);
    forall o ensures Named(next, o) && (o in next.replays ==> o in next.added) { assert Named(sys, o); }
  }

  // Whatever leases do, jobs and dead letters carry the envelopes that were submitted.
  lemma StepAuthentic(sys: System, ev: Event)
    requires Authentic(sys) && ReplaysNamed(sys) && FreshSubmit(sys, ev)
    ensures Authentic(Step(sys, ev)) && ReplaysNamed(Step(sys, ev))
  {
    var next := Step(sys, ev);
    if ByWorker(ev) {
      WorkerKeepsJobs(sys, ev);
      forall o ensures Named(next, o) && (o in next.replays ==> o in next.added) {
        assert Named(sys, o);
        WorkerNamed(sys, ev, o);
      }
    } else if !ev.Advance? {
      OperatorAuthentic(sys, ev);
    } else if ev.owner in sys.replays {
      assert Named(sys, ev.owner);
      ReplayAuthentic(sys, ev.owner);
      forall o ensures Named(next, o) && (o in next.replays ==> o in next.added) {
        assert Named(sys, o);
        ReplayNamed(sys, ev.owner, o);
      }
    }
  }

  // ---------------------------------------------------------------- exactly when an envelope is lost

  // The replay of the job removes it, or its dead letter, while the other is not there to be found.
  predicate Losing(sys: System, ev: Event, job: JobId) {
    ev.Advance? && ev.owner in sys.replays &&
    var phase := sys.replays[ev.owner].phase;
    && Past(phase) && phase.entry.job == job && job !in sys.completed
    && (|| (phase.RemovingSource? && job in sys.target && sys.target[job].state != Active && !IsDead(sys, job))
        || (phase.RemovingDead? && !InTarget(sys, job)))
  }

  lemma ReplayLosesIff(sys: System, owner: Owner, job: JobId)
    requires Authentic(sys) && Named(sys, owner) && owner in sys.replays && owner in sys.added
    requires job in sys.submitted && Kept(sys, job)
    ensures !Kept(Replaying(sys, owner), job) <==> Losing(sys, Advance(owner), job)
  {
    var phase := sys.replays[owner].phase;
    ReplayKeepsHolders(sys, owner, owner, "");
    if !Past(phase) || phase.entry.job != job {
      ReplayIsLocal(sys, owner, owner + "'", job);
    }
  }

  // A step loses an envelope exactly when it is such a removal.
  lemma LosesIff(sys: System, ev: Event, job: JobId)
    requires Authentic(sys) && ReplaysNamed(sys) && FreshSubmit(sys, ev)
    requires job in sys.submitted && Kept(sys, job)
    ensures !Kept(Step(sys, ev), job) <==> Losing(sys, ev, job)
  {
    if ByWorker(ev) {
      WorkerKeepsJobs(sys, ev);
      assert Kept(Step(sys, ev), job);
    } else if ev.Advance? && ev.owner in sys.replays {
      assert Named(sys, ev.owner);
      ReplayLosesIff(sys, ev.owner, job);
    }
  }

  predicate AllFreshSubmits(sys: System, evs: seq<Event>)
    decreases |evs|
  {
    evs == [] || (FreshSubmit(sys, evs[0]) && AllFreshSubmits(Step(sys, evs[0]), evs[1..]))
  }

  ghost predicate NoneLosing(sys: System, evs: seq<Event>)
    decreases |evs|
  {
    evs == [] ||
    ((forall job {:trigger Losing(sys, evs[0], job)} :: job in sys.submitted ==> !Losing(sys, evs[0], job))
     && NoneLosing(Step(sys, evs[0]), evs[1..]))
  }

  ghost predicate KeptThroughout(sys: System, evs: seq<Event>)
    decreases |evs|
  {
    NothingLost(sys) && (evs == [] || KeptThroughout(Step(sys, evs[0]), evs[1..]))
  }

  lemma StepKeepsIff(sys: System, ev: Event)
    requires Authentic(sys) && ReplaysNamed(sys) && NothingLost(sys) && FreshSubmit(sys, ev)
    ensures NothingLost(Step(sys, ev)) <==>
      forall job {:trigger Losing(sys, ev, job)} :: job in sys.submitted ==> !Losing(sys, ev, job)
  {
    var next := Step(sys, ev);
    SubmittedStays(sys, ev);
    forall job | job in sys.submitted ensures !Kept(next, job) <==> Losing(sys, ev, job) {
      assert Kept(sys, job);
      LosesIff(sys, ev, job);
    }
    forall job | job in next.submitted && job !in sys.submitted ensures Kept(next, job) {
      assert ev.Submit?;
      SubmitKeepsJobs(sys, ev.job, ev.envelope);
    }
  }

  lemma SubmittedStays(sys: System, ev: Event)
    ensures sys.submitted.Keys <= Step(sys, ev).submitted.Keys
    ensures !ev.Submit? ==> Step(sys, ev).submitted == sys.submitted
  {
    if ev.Advance? && ev.owner in sys.replays && ev.owner in sys.added {
      ReplayKeepsHolders(sys, ev.owner, ev.owner, "");
    }
  }

  // In any run, whatever leases expire, no envelope is lost at any time exactly when no step is such
  // a removal.
  lemma {:induction false} KeptThroughoutIff(sys: System, evs: seq<Event>)
    requires Authentic(sys) && ReplaysNamed(sys) && NothingLost(sys) && AllFreshSubmits(sys, evs)
    ensures KeptThroughout(sys, evs) <==> NoneLosing(sys, evs)
    decreases |evs|
  {
    if evs != [] {
      StepKeepsIff(sys, evs[0]);
      StepAuthentic(sys, evs[0]);
      if NothingLost(Step(sys, evs[0])) {
        KeptThroughoutIff(Step(sys, evs[0]), evs[1..]);
      }
    }
  }

  // ---------------------------------------------------------------- exactly when one is stranded

  // Waiting, active or done, or about to be reported by its failure handler.
  predicate Live(sys: System, job: JobId) {
    || (InTarget(sys, job) && sys.target[job].state != Failed)
    || job in sys.completed
    || job in sys.failures
  }

  predicate Recoverable(sys: System, job: JobId) {
    Live(sys, job) || IsDead(sys, job)
  }

  // The only failure handler that would have filed the dead letter is lost, a replay removes a job that
  // has no dead letter, or it removes the dead letter of a job that has failed for good again.
  predicate Stranding(sys: System, ev: Event, job: JobId) {
    || (ev == LoseHandler(job) && !IsDead(sys, job) && job !in sys.completed
        && !(InTarget(sys, job) && sys.target[job].state != Failed))
    || (ev.Advance? && ev.owner in sys.replays &&
        var phase := sys.replays[ev.owner].phase;
        && Past(phase) && phase.entry.job == job
        && (|| (phase.RemovingSource? && job in sys.target && sys.target[job].state != Active
                && !IsDead(sys, job) && job !in sys.completed && job !in sys.failures)
            || (phase.RemovingDead? && !Live(sys, job))))
  }

  lemma HandleKeepsLive(sys: System, handled: JobId, job: JobId)
    requires Authentic(sys) && job in sys.submitted
    ensures var next := Step(sys, Handle(handled));
      && (Live(sys, job) ==> Live(next, job) || (handled == job && IsDead(next, job)))
      && (IsDead(sys, job) ==> IsDead(next, job))
  {
    if handled != job && DeadId(handled) == DeadId(job) {
      DeadIdInjective(handled, job);
    }
    if DeadId(job) in sys.dead {
      DeadIdInjective(sys.dead[DeadId(job)].job, job);
    }
  }

  lemma WorkerKeepsLive(sys: System, ev: Event, job: JobId)
    requires Authentic(sys) && FreshSubmit(sys, ev) && ByWorker(ev) && !ev.LoseHandler?
    requires job in sys.submitted
    ensures Live(sys, job) ==> Live(Step(sys, ev), job) || (ev == Handle(job) && IsDead(Step(sys, ev), job))
    ensures IsDead(sys, job) ==> IsDead(Step(sys, ev), job)
  {
    if ev.Handle? {
      HandleKeepsLive(sys, ev.job, job);
    }
  }

  lemma LocalLive(sys: System, owner: Owner, job: JobId)
    requires Named(sys, owner) && owner in sys.replays && owner in sys.added
    requires Past(sys.replays[owner].phase) ==> sys.replays[owner].phase.entry.job != job
    ensures Live(Replaying(sys, owner), job) == Live(sys, job) && IsDead(Replaying(sys, owner), job) == IsDead(sys, job)
  {
    ReplayIsLocal(sys, owner, owner + "'", job);
    ReplayKeepsHolders(sys, owner, owner, "");
    assert Replaying(sys, owner).failures == sys.failures;
  }

  lemma ReplayStrandsIff(sys: System, owner: Owner, job: JobId)
    requires Authentic(sys) && Named(sys, owner) && owner in sys.replays && owner in sys.added
    requires job in sys.submitted && Recoverable(sys, job)
    ensures !Recoverable(Replaying(sys, owner), job) <==> Stranding(sys, Advance(owner), job)
  {
    var phase := sys.replays[owner].phase;
    ReplayKeepsHolders(sys, owner, owner, "");
    assert Replaying(sys, owner).failures == sys.failures;
    if !Past(phase) || phase.entry.job != job {
      LocalLive(sys, owner, job);
    }
  }

  // A step leaves an envelope without a job that runs and a dead letter to replay exactly then.
  lemma StrandsIff(sys: System, ev: Event, job: JobId)
    requires Authentic(sys) && ReplaysNamed(sys) && FreshSubmit(sys, ev)
    requires job in sys.submitted && Recoverable(sys, job)
    ensures !Recoverable(Step(sys, ev), job) <==> Stranding(sys, ev, job)
  {
    if ev.LoseHandler? {
      assert Step(sys, ev).dead == sys.dead && Step(sys, ev).target == sys.target;
    } else if ByWorker(ev) {
      WorkerKeepsLive(sys, ev, job);
    } else if ev.Advance? && ev.owner in sys.replays {
      assert Named(sys, ev.owner);
      ReplayStrandsIff(sys, ev.owner, job);
    }
  }

  ghost predicate AllRecoverable(sys: System) {
    forall job {:trigger Recoverable(sys, job)} :: job in sys.submitted ==> Recoverable(sys, job)
  }

  ghost predicate NoneStranding(sys: System, evs: seq<Event>)
    decreases |evs|
  {
    evs == [] ||
    ((forall job {:trigger Stranding(sys, evs[0], job)} :: job in sys.submitted ==> !Stranding(sys, evs[0], job))
     && NoneStranding(Step(sys, evs[0]), evs[1..]))
  }

  ghost predicate RecoverableThroughout(sys: System, evs: seq<Event>)
    decreases |evs|
  {
    AllRecoverable(sys) && (evs == [] || RecoverableThroughout(Step(sys, evs[0]), evs[1..]))
  }

  lemma StepRecoverableIff(sys: System, ev: Event)
    requires Authentic(sys) && ReplaysNamed(sys) && AllRecoverable(sys) && FreshSubmit(sys, ev)
    ensures AllRecoverable(Step(sys, ev)) <==>
      forall job {:trigger Stranding(sys, ev, job)} :: job in sys.submitted ==> !Stranding(sys, ev, job)
  {
    var next := Step(sys, ev);
    SubmittedStays(sys, ev);
    forall job | job in sys.submitted ensures !Recoverable(next, job) <==> Stranding(sys, ev, job) {
      assert Recoverable(sys, job);
      StrandsIff(sys, ev, job);
    }
    forall job | job in next.submitted && job !in sys.submitted ensures Recoverable(next, job) {
      assert ev.Submit? && ev.job == job;
    }
  }

  lemma {:induction false} RecoverableThroughoutIff(sys: System, evs: seq<Event>)
    requires Authentic(sys) && ReplaysNamed(sys) && AllRecoverable(sys) && AllFreshSubmits(sys, evs)
    ensures RecoverableThroughout(sys, evs) <==> NoneStranding(sys, evs)
    decreases |evs|
  {
    if evs != [] {
      StepRecoverableIff(sys, evs[0]);
      StepAuthentic(sys, evs[0]);
      if AllRecoverable(Step(sys, evs[0])) {
        RecoverableThroughoutIff(Step(sys, evs[0]), evs[1..]);
      }
    }
  }
}
