// Runs of dead-letter replay under leases: why leases that last keep every envelope, and what happens
// when they do not.
module DeadLetterRuns {
  import opened Results
  import opened DeadLetter

  // A replay's lease lasts until the replay is over, and a job id is submitted again only while
  // its job is still there.
  predicate Guarded(sys: System, ev: Event) {
    match ev
    case Advance(owner) =>
      owner in sys.replays && sys.replays[owner].phase != Releasing ==> Holds(sys, owner, sys.replays[owner].dead)
    case Submit(job, _) => job in sys.submitted ==> job in sys.target
    case _ => true
  }

  predicate AllGuarded(sys: System, evs: seq<Event>)
    decreases |evs|
  {
    evs == [] || (Guarded(sys, evs[0]) && AllGuarded(Step(sys, evs[0]), evs[1..]))
  }

  // What the holder of an unexpired lease may rely on at each point of its replay.
  predicate Placed(sys: System, owner: Owner) {
    owner in sys.replays ==>
      var r := sys.replays[owner];
      && Named(sys, owner)
      && (Holds(sys, owner, r.dead) ==>
            match r.phase
            case FindingSource(e) => IsDead(sys, e.job)
            case CheckingState(e) => IsDead(sys, e.job)
            case RemovingSource(e) => IsDead(sys, e.job) && InTarget(sys, e.job) && sys.target[e.job].state == Failed
            case Adding(e) => IsDead(sys, e.job) && e.job !in sys.target
            case RemovingDead(e) => InTarget(sys, e.job) || e.job in sys.completed
            case _ => true)
  }

  predicate Counted(sys: System, owner: Owner) {
    && (owner in sys.successes ==> owner in sys.added && sys.added[owner] == 1)
    && (owner in sys.replays ==>
          && owner in sys.added
          && sys.added[owner] == (if sys.replays[owner].phase.RemovingDead? || owner in sys.successes then 1 else 0)
          && (owner in sys.successes ==> sys.replays[owner].phase.Releasing?))
    && (owner in sys.added ==> sys.added[owner] <= 1)
  }

  ghost predicate ReplaysPlaced(sys: System) {
    forall owner {:trigger Placed(sys, owner)} :: Placed(sys, owner)
  }

  ghost predicate ReplaysCounted(sys: System) {
    forall owner {:trigger Counted(sys, owner)} :: Counted(sys, owner)
  }

  ghost predicate Safe(sys: System) {
    NothingLost(sys) && Authentic(sys) && ReplaysPlaced(sys) && ReplaysCounted(sys)
  }

  // Safe systems are those that the exact laws are about.
  lemma SafeIsNamed(sys: System)
    requires Safe(sys)
    ensures ReplaysNamed(sys)
  {
    forall o ensures Named(sys, o) && (o in sys.replays ==> o in sys.added) {
      assert Placed(sys, o) && Counted(sys, o);
    }
  }

  // A lease that lasts keeps its replay from losing anything.
  lemma LeasePreventsLoss(sys: System, ev: Event, job: JobId)
    requires Safe(sys) && Guarded(sys, ev)
    ensures !Losing(sys, ev, job)
  {
    if ev.Advance? {
      assert Placed(sys, ev.owner);
    }
  }

  lemma GuardedKeepsAll(sys: System, ev: Event)
    requires Safe(sys) && Guarded(sys, ev)
    ensures NothingLost(Step(sys, ev)) && Authentic(Step(sys, ev))
  {
    SafeIsNamed(sys);
    forall job ensures !Losing(sys, ev, job) { LeasePreventsLoss(sys, ev, job); }
    StepKeepsIff(sys, ev);
    StepAuthentic(sys, ev);
  }

  lemma LeaseKeyInjective(a: string, b: string)
    requires LeaseKey(a) == LeaseKey(b)
    ensures a == b
  {
    assert a == LeaseKey(a)[19..];
    assert b == LeaseKey(b)[19..];
  }
  // ---------------------------------------------------------------- one step

  lemma WorkerKeepsReplay(sys: System, ev: Event, owner: Owner)
    requires Authentic(sys) && Guarded(sys, ev) && ByWorker(ev) && Placed(sys, owner)
    ensures Placed(Step(sys, ev), owner)
  {
  }

  lemma WorkerStepSafe(sys: System, ev: Event)
    requires Safe(sys) && Guarded(sys, ev) && ByWorker(ev)
    ensures Safe(Step(sys, ev))
  {
    var next := Step(sys, ev);
    GuardedKeepsAll(sys, ev);
    forall owner ensures Placed(next, owner) {
      assert Placed(sys, owner);
      WorkerKeepsReplay(sys, ev, owner);
    }
    forall owner ensures Counted(next, owner) { assert Counted(sys, owner); }
  }

  lemma OpenSafe(sys: System, owner: Owner, dead: string)
    requires Safe(sys)
    ensures Safe(Step(sys, Open(owner, dead)))
  {
    var next := Step(sys, Open(owner, dead));
    assert Counted(sys, owner);
    GuardedKeepsAll(sys, Open(owner, dead));
    forall o ensures Placed(next, o) {
      assert Placed(sys, o) && Counted(sys, o);
      if o in sys.replays && o != owner && sys.replays[o].dead != dead &&
        LeaseKey(sys.replays[o].dead) == LeaseKey(dead) {
        LeaseKeyInjective(sys.replays[o].dead, dead);
      }
    }
    forall o ensures Counted(next, o) { assert Counted(sys, o); }
  }

  lemma AbandonOrWaitSafe(sys: System, ev: Event)
    requires Safe(sys) && (ev.Abandon? || ev.Wait?)
    ensures Safe(Step(sys, ev))
  {
    var next := Step(sys, ev);
    GuardedKeepsAll(sys, ev);
    forall o ensures Placed(next, o) { assert Placed(sys, o); }
    forall o ensures Counted(next, o) { assert Counted(sys, o); }
  }

  // Two replays that hold unexpired leases work on different jobs.
  lemma HoldersDiffer(sys: System, a: Owner, b: Owner)
    requires Placed(sys, a) && Placed(sys, b) && a != b
    requires a in sys.replays && b in sys.replays && Past(sys.replays[a].phase) && Past(sys.replays[b].phase)
    requires Holds(sys, a, sys.replays[a].dead) && Holds(sys, b, sys.replays[b].dead)
    ensures sys.replays[a].phase.entry.job != sys.replays[b].phase.entry.job
  {
  }

  lemma ReplayKeepsOthers(sys: System, owner: Owner, o: Owner)
    requires Authentic(sys) && Placed(sys, owner) && Placed(sys, o) && o != owner
    requires owner in sys.replays && owner in sys.added && Guarded(sys, Advance(owner))
    ensures Placed(Replaying(sys, owner), o)
    ensures Counted(sys, o) ==> Counted(Replaying(sys, owner), o)
  {
    ReplayKeepsReplays(sys, owner, o);
    ReplayKeepsCounts(sys, owner, o);
    ReplayKeepsHolders(sys, owner, o, if o in sys.replays then sys.replays[o].dead else "");
    if o in sys.replays && Past(sys.replays[o].phase) && Holds(sys, o, sys.replays[o].dead) {
      if Past(sys.replays[owner].phase) {
        HoldersDiffer(sys, owner, o);
      }
      ReplayIsLocal(sys, owner, o, sys.replays[o].phase.entry.job);
    }
  }

  lemma ReplayKeepsItself(sys: System, owner: Owner)
    requires Authentic(sys) && Placed(sys, owner) && Counted(sys, owner)
    requires owner in sys.replays && owner in sys.added && Guarded(sys, Advance(owner))
    ensures Placed(Replaying(sys, owner), owner) && Counted(Replaying(sys, owner), owner)
  {
  }

  lemma AdvanceSafe(sys: System, owner: Owner)
    requires Safe(sys) && Guarded(sys, Advance(owner))
    ensures Safe(Step(sys, Advance(owner)))
  {
    var next := Step(sys, Advance(owner));
    assert Placed(sys, owner) && Counted(sys, owner);
    if owner in sys.replays {
      GuardedKeepsAll(sys, Advance(owner));
      forall o ensures Placed(next, o) && Counted(next, o) {
        assert Placed(sys, o) && Counted(sys, o);
        if o == owner {
          ReplayKeepsItself(sys, owner);
        } else {
          ReplayKeepsOthers(sys, owner, o);
        }
      }
    }
  }

  lemma StepSafe(sys: System, ev: Event)
    requires Safe(sys) && Guarded(sys, ev)
    ensures Safe(Step(sys, ev))
  {
    match ev
    case Open(owner, dead) => OpenSafe(sys, owner, dead);
    case Advance(owner) => AdvanceSafe(sys, owner);
    case Abandon(_) => AbandonOrWaitSafe(sys, ev);
    case Wait(_) => AbandonOrWaitSafe(sys, ev);
    case _ => WorkerStepSafe(sys, ev);
  }

  // ---------------------------------------------------------------- whole runs

  lemma {:induction false} RunSafe(sys: System, evs: seq<Event>)
    requires Safe(sys) && AllGuarded(sys, evs)
    ensures Safe(Run(sys, evs))
    decreases |evs|
  {
    if evs != [] {
      StepSafe(sys, evs[0]);
      RunSafe(Step(sys, evs[0]), evs[1..]);
    }
  }

  // Whatever workers and operators do and wherever they crash: no submitted envelope is lost, and
  // a replay that reports success has added exactly one job, any other at most one.
  lemma ReplayNeitherLosesNorDuplicates(evs: seq<Event>)
    requires AllGuarded(Begin(), evs)
    ensures var sys := Run(Begin(), evs);
      && (forall job :: job in sys.submitted ==> Kept(sys, job))
      && (forall owner :: owner in sys.successes ==> owner in sys.added && sys.added[owner] == 1)
      && (forall owner :: owner in sys.added ==> sys.added[owner] <= 1)
  {
    RunSafe(Begin(), evs);
    var sys := Run(Begin(), evs);
    forall job | job in sys.submitted ensures Kept(sys, job) { }
    forall owner
      ensures owner in sys.successes || owner in sys.added ==>
        owner in sys.added && sys.added[owner] <= 1 && (owner in sys.successes ==> sys.added[owner] == 1) {
      assert Counted(sys, owner);
    }
  }

  // ---------------------------------------------------------------- reachable for an operator

  predicate Finishing(sys: System, owner: Owner, job: JobId) {
    && owner in sys.replays && sys.replays[owner].phase.RemovingDead? && sys.replays[owner].phase.entry.job == job
    && Holds(sys, owner, sys.replays[owner].dead)
  }

  predicate Tail(sys: System, owner: Owner) {
    owner in sys.replays && sys.replays[owner].phase.RemovingDead? &&
      Finishing(sys, owner, sys.replays[owner].phase.entry.job) ==>
      Live(sys, sys.replays[owner].phase.entry.job)
  }

  ghost predicate NoneStranded(sys: System) {
    AllRecoverable(sys) && TailsLive(sys)
  }

  // A replay about to remove a dead letter under its lease has put a job back that has not failed again.
  ghost predicate TailsLive(sys: System) {
    forall owner {:trigger Tail(sys, owner)} :: Tail(sys, owner)
  }

  // Failure handlers are not lost, and none runs between the two last steps of a replay of its job.
  ghost predicate Smooth(sys: System, ev: Event) {
    && Guarded(sys, ev)
    && !ev.LoseHandler?
    && (ev.Handle? ==> forall owner {:trigger Finishing(sys, owner, ev.job)} :: !Finishing(sys, owner, ev.job))
  }

  ghost predicate AllSmooth(sys: System, evs: seq<Event>)
    decreases |evs|
  {
    evs == [] || (Smooth(sys, evs[0]) && AllSmooth(Step(sys, evs[0]), evs[1..]))
  }

  lemma SmoothPreventsStranding(sys: System, ev: Event, job: JobId)
    requires Safe(sys) && TailsLive(sys) && Smooth(sys, ev)
    ensures !Stranding(sys, ev, job)
  {
    if ev.Advance? {
      assert Placed(sys, ev.owner) && Tail(sys, ev.owner);
    }
  }

  lemma WorkerTails(sys: System, ev: Event)
    requires Safe(sys) && TailsLive(sys) && Smooth(sys, ev) && ByWorker(ev)
    ensures TailsLive(Step(sys, ev))
  {
    var next := Step(sys, ev);
    forall owner ensures Tail(next, owner) {
      assert Tail(sys, owner) && Placed(sys, owner);
      assert next.replays == sys.replays && next.leases == sys.leases && next.now == sys.now;
      if owner in sys.replays && sys.replays[owner].phase.RemovingDead? {
        var job := sys.replays[owner].phase.entry.job;
        assert Finishing(next, owner, job) == Finishing(sys, owner, job);
        WorkerKeepsLive(sys, ev, job);
      }
    }
  }

  lemma OperatorTails(sys: System, ev: Event)
    requires Safe(sys) && TailsLive(sys) && (ev.Open? || ev.Abandon? || ev.Wait?)
    ensures TailsLive(Step(sys, ev))
  {
    var next := Step(sys, ev);
    forall o ensures Tail(next, o) {
      assert Tail(sys, o) && Counted(sys, o);
      if o in sys.replays && ev.Open? && LeaseKey(sys.replays[o].dead) == LeaseKey(ev.dead) {
        LeaseKeyInjective(sys.replays[o].dead, ev.dead);
      }
    }
  }

  lemma AdvanceTails(sys: System, owner: Owner)
    requires Safe(sys) && TailsLive(sys) && Guarded(sys, Advance(owner)) && owner in sys.replays && owner in sys.added
    ensures TailsLive(Replaying(sys, owner))
  {
    forall o ensures Tail(Replaying(sys, owner), o) {
      assert Tail(sys, o) && Placed(sys, o) && Placed(sys, owner);
      if o == owner {
        OwnTail(sys, owner);
      } else {
        OthersTail(sys, owner, o);
      }
    }
  }

  lemma OwnTail(sys: System, owner: Owner)
    requires Placed(sys, owner) && owner in sys.replays && owner in sys.added && Guarded(sys, Advance(owner))
    ensures Tail(Replaying(sys, owner), owner)
  {
  }

  lemma OthersTail(sys: System, owner: Owner, o: Owner)
    requires Placed(sys, owner) && Placed(sys, o) && Tail(sys, o) && o != owner
    requires owner in sys.replays && owner in sys.added && Guarded(sys, Advance(owner))
    ensures Tail(Replaying(sys, owner), o)
  {
    ReplayKeepsReplays(sys, owner, o);
    if o in sys.replays && sys.replays[o].phase.RemovingDead? {
      ReplayKeepsHolders(sys, owner, o, sys.replays[o].dead);
      if Holds(sys, o, sys.replays[o].dead) {
        if Past(sys.replays[owner].phase) {
          HoldersDiffer(sys, owner, o);
        }
        LocalLive(sys, owner, sys.replays[o].phase.entry.job);
      }
    }
  }

  lemma {:induction false} RunStrandsNone(sys: System, evs: seq<Event>)
    requires Safe(sys) && NoneStranded(sys) && AllSmooth(sys, evs)
    ensures NoneStranded(Run(sys, evs))
    decreases |evs|
  {
    if evs != [] {
      var ev := evs[0];
      StepSafe(sys, ev);
      SafeIsNamed(sys);
      forall job ensures !Stranding(sys, ev, job) { SmoothPreventsStranding(sys, ev, job); }
      StepRecoverableIff(sys, ev);
      if ByWorker(ev) {
        WorkerTails(sys, ev);
      } else if ev.Advance? {
        assert Counted(sys, ev.owner);
        if ev.owner in sys.replays { AdvanceTails(sys, ev.owner); }
      } else {
        OperatorTails(sys, ev);
      }
      RunStrandsNone(Step(sys, ev), evs[1..]);
    }
  }

  // An envelope whose job has failed for good always has a dead letter to replay it from, or is
  // about to get one.
  lemma AlwaysRecoverable(evs: seq<Event>)
    requires AllSmooth(Begin(), evs)
    ensures forall job :: job in Run(Begin(), evs).submitted ==> Recoverable(Run(Begin(), evs), job)
  {
    RunStrandsNone(Begin(), evs);
    forall job | job in Run(Begin(), evs).submitted ensures Recoverable(Run(Begin(), evs), job) { }
  }

  // ---------------------------------------------------------------- what the guards are for

  ghost predicate Reachable(sys: System) {
    exists evs: seq<Event> :: Run(Begin(), evs) == sys
  }

  lemma {:induction false} RunSnoc(sys: System, evs: seq<Event>, ev: Event)
    ensures Run(sys, evs + [ev]) == Step(Run(sys, evs), ev)
    decreases |evs|
  {
    if evs == [] {
      assert Run(Step(sys, ev), []) == Step(sys, ev);
      assert (evs + [ev])[1..] == [];
    } else {
      assert (evs + [ev])[1..] == evs[1..] + [ev];
      RunSnoc(Step(sys, evs[0]), evs[1..], ev);
    }
  }

  lemma Onwards(sys: System, ev: Event) returns (next: System)
    requires Reachable(sys)
    ensures next == Step(sys, ev) && Reachable(next)
  {
    var evs: seq<Event> :| Run(Begin(), evs) == sys;
    RunSnoc(Begin(), evs, ev);
    next := Step(sys, ev);
  }

  const FAILING: Job := Job("e", Failed)
  const LETTER: Entry := Entry("e", "a")

  // Job a has failed for good and its dead letter is filed.
  lemma FailedForGood() returns (sys: System)
    ensures Reachable(sys) && sys.now == 0 && sys.leases == map[] && sys.added == map[] && sys.replays == map[]
    ensures sys.target == map["a" := FAILING] && sys.dead == map[DeadId("a") := LETTER]
    ensures sys.submitted == map["a" := "e"] && sys.completed == {} && sys.failures == {}
  {
    assert Run(Begin(), []) == Begin();
    sys := Onwards(Begin(), Submit("a", "e"));
    sys := Onwards(sys, Start("a"));
    sys := Onwards(sys, Exhaust("a"));
    sys := Onwards(sys, Handle("a"));
    assert sys.target == map["a" := FAILING];
  }

  // What the steps below leave alone.
  predicate SameJobs(a: System, b: System) {
    && a.target == b.target && a.dead == b.dead && a.submitted == b.submitted
    && a.completed == b.completed && a.failures == b.failures
  }

  function At(phase: Phase): Replay {
    Replay(DeadId("a"), phase)
  }

  // A replay opened under a fresh lease gets as far as being about to remove the failed job.
  lemma Opened(start: System, owner: Owner) returns (sys: System)
    requires Reachable(start) && owner != "" && owner !in start.added
    requires Leases.HolderOf(start.leases, start.now, LeaseKey(DeadId("a"))) == None
    ensures Reachable(sys) && SameJobs(sys, start) && sys.now == start.now
    ensures sys.added == start.added[owner := 0] && sys.replays == start.replays[owner := At(ReadingDead)]
    ensures sys.leases == start.leases[LeaseKey(DeadId("a")) := Leases.Lease(owner, start.now + REPLAY_LEASE_MS)]
  {
    sys := Onwards(start, Open(owner, DeadId("a")));
  }

  lemma Looked(start: System, owner: Owner) returns (sys: System)
    requires Reachable(start) && owner in start.added && owner in start.replays
    requires start.target == map["a" := FAILING] && start.dead == map[DeadId("a") := LETTER]
    requires start.replays[owner].dead == DeadId("a")
    requires start.replays[owner].phase in {ReadingDead, FindingSource(LETTER), CheckingState(LETTER)}
    ensures Reachable(sys) && SameJobs(sys, start) && sys.now == start.now
    ensures sys.added == start.added && sys.leases == start.leases
    ensures sys.replays == start.replays[owner := At(match start.replays[owner].phase
                                                     case ReadingDead => FindingSource(LETTER)
                                                     case FindingSource(_) => CheckingState(LETTER)
                                                     case _ => RemovingSource(LETTER))]
  {
    sys := Onwards(start, Advance(owner));
  }

  lemma LookedAround(start: System, owner: Owner) returns (sys: System)
    requires Reachable(start) && owner in start.added && owner in start.replays
    requires start.replays[owner] == At(ReadingDead)
    requires start.target == map["a" := FAILING] && start.dead == map[DeadId("a") := LETTER]
    ensures Reachable(sys) && SameJobs(sys, start) && sys.now == start.now
    ensures sys.added == start.added && sys.leases == start.leases
    ensures sys.replays == start.replays[owner := At(RemovingSource(LETTER))]
  {
    sys := Looked(start, owner);
    assert sys.replays == start.replays[owner := At(FindingSource(LETTER))];
    sys := Looked(sys, owner);
    assert sys.replays == start.replays[owner := At(CheckingState(LETTER))];
    sys := Looked(sys, owner);
  }

  lemma UpToRemoval(start: System, owner: Owner) returns (sys: System)
    requires Reachable(start) && owner != "" && owner !in start.added
    requires Leases.HolderOf(start.leases, start.now, LeaseKey(DeadId("a"))) == None
    requires start.target == map["a" := FAILING] && start.dead == map[DeadId("a") := LETTER]
    ensures Reachable(sys) && SameJobs(sys, start) && sys.now == start.now
    ensures sys.added == start.added[owner := 0] && sys.replays == start.replays[owner := At(RemovingSource(LETTER))]
    ensures sys.leases == start.leases[LeaseKey(DeadId("a")) := Leases.Lease(owner, start.now + REPLAY_LEASE_MS)]
  {
    sys := Opened(start, owner);
    sys := LookedAround(sys, owner);
  }

  // From there it removes the failed job and adds it again, and is about to remove the dead letter.
  lemma SourceRemoved(start: System, owner: Owner) returns (sys: System)
    requires Reachable(start) && owner in start.replays && owner in start.added
    requires start.replays[owner] == At(RemovingSource(LETTER))
    requires "a" in start.target && start.target["a"].state != Active
    ensures Reachable(sys) && SameJobs(sys, start.(target := start.target - {"a"}))
    ensures sys.added == start.added && sys.replays == start.replays[owner := At(Adding(LETTER))]
  {
    sys := Onwards(start, Advance(owner));
  }

  lemma SourceAdded(start: System, owner: Owner) returns (sys: System)
    requires Reachable(start) && owner in start.replays && owner in start.added
    requires start.replays[owner] == At(Adding(LETTER)) && "a" !in start.target
    ensures Reachable(sys) && SameJobs(sys, start.(target := start.target["a" := Job("e", Waiting)]))
    ensures owner in sys.added && sys.added == start.added[owner := sys.added[owner]]
    ensures sys.replays == start.replays[owner := At(RemovingDead(LETTER))]
  {
    sys := Onwards(start, Advance(owner));
  }

  lemma DeadRemoved(start: System, owner: Owner) returns (sys: System)
    requires Reachable(start) && owner in start.replays && owner in start.added
    requires start.replays[owner] == At(RemovingDead(LETTER))
    ensures Reachable(sys) && SameJobs(sys, start.(dead := start.dead - {DeadId("a")}))
    ensures sys.added == start.added && sys.replays == start.replays[owner := At(Releasing)]
  {
    sys := Onwards(start, Advance(owner));
  }

  // Two replays of the same dead letter, where the lease of the first expired before its removal.
  lemma TwoAtOnce() returns (sys: System)
    ensures Reachable(sys) && sys.target == map["a" := FAILING] && sys.submitted == map["a" := "e"] &&
      sys.completed == {}
    ensures sys.dead == map[DeadId("a") := LETTER] && sys.added == map["r1" := 0, "r2" := 0]
    ensures sys.replays == map["r1" := At(RemovingSource(LETTER)), "r2" := At(RemovingSource(LETTER))]
  {
    sys := FailedForGood();
    sys := UpToRemoval(sys, "r1");
    var late := Onwards(sys, Wait(30_000));
    assert SameJobs(late, sys) && late.now == 30_000 && late.leases == sys.leases;
    assert late.added == sys.added && late.replays == sys.replays;
    sys := UpToRemoval(late, "r2");
  }

  // A lease that expires in the middle of a replay can lose the envelope: a second replay completes,
  // and then the first removes the new job and crashes.
  lemma ExpiredLeaseLoses()
    ensures exists sys :: Reachable(sys) && "a" in sys.submitted && !Kept(sys, "a")
  {
    var sys := TwoAtOnce();
    sys := SourceRemoved(sys, "r2");
    sys := SourceAdded(sys, "r2");
    sys := DeadRemoved(sys, "r2");
    sys := SourceRemoved(sys, "r1");
    assert !Kept(sys, "a");
  }

  lemma Exhausted(start: System) returns (sys: System)
    requires Reachable(start) && start.target == map["a" := Job("e", Waiting)] && start.failures == {}
    ensures Reachable(sys) && SameJobs(sys, start.(target := map["a" := FAILING], failures := {"a"}))
    ensures sys.replays == start.replays && sys.added == start.added
  {
    sys := Onwards(start, Start("a"));
    sys := Onwards(sys, Exhaust("a"));
  }

  // The job fails for good while its old dead letter is still there, so that none is filed.
  lemma FailsAgain(start: System) returns (sys: System)
    requires Reachable(start) && start.target == map["a" := Job("e", Waiting)] && start.failures == {}
    requires "a" in start.submitted && DeadId("a") in start.dead
    ensures Reachable(sys) && SameJobs(sys, start.(target := map["a" := FAILING]))
    ensures sys.replays == start.replays && sys.added == start.added
  {
    var failed := Exhausted(start);
    sys := Onwards(failed, Handle("a"));
  }

  lemma AboutToFinish() returns (sys: System)
    ensures Reachable(sys) && sys.target == map["a" := Job("e", Waiting)] && sys.dead == map[DeadId("a") := LETTER]
    ensures sys.submitted == map["a" := "e"] && sys.completed == {} && sys.failures == {}
    ensures "r1" in sys.added && sys.replays == map["r1" := At(RemovingDead(LETTER))]
  {
    sys := FailedForGood();
    sys := UpToRemoval(sys, "r1");
    sys := SourceRemoved(sys, "r1");
    sys := SourceAdded(sys, "r1");
  }

  // With every lease in time the envelope is never lost, but a job that fails for good again before
  // the replay removes the old dead letter is left failed without a dead letter to replay.
  lemma EarlyFailureStrands()
    ensures exists sys :: Reachable(sys) && "a" in sys.submitted && Kept(sys, "a") && !Recoverable(sys, "a")
  {
    var sys := AboutToFinish();
    sys := FailsAgain(sys);
    sys := DeadRemoved(sys, "r1");
    assert Kept(sys, "a") && !Recoverable(sys, "a");
  }
}
