// What each event does to the queue, its dead letters and a replay, and the way of a failed job back.
module DeadLetterLaws {
  import opened Results
  import Leases
  import opened DeadLetter
  import opened ReplayService

  // ---------------------------------------------------------------- the queue

  // A job is waiting once it is submitted; submitting it again while it is there does nothing.
  lemma SubmitLaw(sys: System, job: JobId, envelope: Envelope)
    ensures Step(sys, Submit(job, envelope)) ==
      if job in sys.target then sys
      else sys.(target := sys.target[job := Job(envelope, Waiting)], submitted := sys.submitted[job := envelope])
  {
  }

  ghost predicate InState(sys: System, job: JobId, state: State) {
    job in sys.target && sys.target[job].state == state
  }

  // A worker starts a waiting job; an active one it puts back, completes, or gives up as failed, and only
  // then is its failure handler due.
  lemma WorkLaw(sys: System, job: JobId)
    ensures Step(sys, Start(job)) ==
      if InState(sys, job, Waiting) then sys.(target := sys.target[job := Job(sys.target[job].envelope, Active)])
      else sys
    ensures Step(sys, Retry(job)) ==
      if InState(sys, job, Active) then sys.(target := sys.target[job := Job(sys.target[job].envelope, Waiting)])
      else sys
    ensures Step(sys, Complete(job)) ==
      if InState(sys, job, Active)
      then sys.(target := sys.target[job := Job(sys.target[job].envelope, Completed)],
                completed := sys.completed + {job})
      else sys
    ensures Step(sys, Exhaust(job)) ==
      if InState(sys, job, Active)
      then sys.(target := sys.target[job := Job(sys.target[job].envelope, Failed)], failures := sys.failures + {job})
      else sys
  {
  }

  // The failure handler files the job's envelope under the job's dead letter id, if nothing is there yet;
  // a handler that is lost files nothing. Only completed jobs are evicted.
  lemma FilingLaw(sys: System, job: JobId)
    ensures Step(sys, Handle(job)) ==
      if job !in sys.failures || job !in sys.submitted then sys
      else sys.(failures := sys.failures - {job},
                dead := if job + "-dead" in sys.dead then sys.dead
                        else sys.dead[job + "-dead" := Entry(sys.submitted[job], job)])
    ensures Step(sys, LoseHandler(job)) == sys.(failures := sys.failures - {job})
    ensures Step(sys, Evict(job)) ==
      if InState(sys, job, Completed) then sys.(target := sys.target - {job}) else sys
  {
  }

  // ---------------------------------------------------------------- a replay

  // A replay begins with a lease of thirty seconds on its dead letter, which nobody may hold.
  lemma OpenLaw(sys: System, owner: Owner, dead: string)
    ensures var key := "dead-letter-replay:" + dead;
      Step(sys, Open(owner, dead)) ==
        if owner == "" || owner in sys.added || (key in sys.leases && sys.now < sys.leases[key].expiresAt) then sys
        else sys.(leases := sys.leases[key := Leases.Lease(owner, sys.now + 30_000)],
                  replays := sys.replays[owner := Replay(dead, ReadingDead)], added := sys.added[owner := 0])
  {
    assert LeaseKey(dead) == "dead-letter-replay:" + dead && LeaseKey(dead) != "";
  }

  ghost predicate At(sys: System, owner: Owner, phase: Phase) {
    owner in sys.replays && owner in sys.added && sys.replays[owner].phase == phase
  }

  ghost function Goes(sys: System, owner: Owner, phase: Phase): System
    requires owner in sys.replays
  {
    sys.(replays := sys.replays[owner := Replay(sys.replays[owner].dead, phase)])
  }

  // It reads the dead letter, looks for the job and goes on only when that is gone or failed.
  lemma LookingLaw(sys: System, owner: Owner, e: Entry)
    ensures At(sys, owner, ReadingDead) ==>
      Step(sys, Advance(owner)) ==
        (if sys.replays[owner].dead in sys.dead then
           Goes(sys, owner, FindingSource(sys.dead[sys.replays[owner].dead]))
         else Goes(sys, owner, Releasing))
    ensures At(sys, owner, FindingSource(e)) ==>
      Step(sys, Advance(owner)) ==
        Goes(sys, owner, if e.job in sys.target then CheckingState(e) else Adding(e))
    ensures At(sys, owner, CheckingState(e)) ==>
      Step(sys, Advance(owner)) ==
        Goes(sys, owner, if InState(sys, e.job, Failed) then RemovingSource(e) else Releasing)
  {
  }

  // Then it removes the job unless a worker has it, adds it anew with the envelope of the dead letter,
  // removes the dead letter and releases its own lease.
  lemma MovingLaw(sys: System, owner: Owner, e: Entry)
    ensures At(sys, owner, RemovingSource(e)) ==>
      Step(sys, Advance(owner)) ==
        (if InState(sys, e.job, Active) then Goes(sys, owner, Releasing)
         else Goes(sys, owner, Adding(e)).(target := sys.target - {e.job}))
    ensures At(sys, owner, Adding(e)) ==>
      Step(sys, Advance(owner)) ==
        (if e.job in sys.target then Goes(sys, owner, RemovingDead(e))
         else Goes(sys, owner, RemovingDead(e)).(
           target := sys.target[e.job := Job(e.envelope, Waiting)],
           added := sys.added[owner := sys.added[owner] + 1]))
    ensures At(sys, owner, RemovingDead(e)) ==>
      Step(sys, Advance(owner)) ==
        Goes(sys, owner, Releasing).(dead := sys.dead - {sys.replays[owner].dead},
                                    successes := sys.successes + {owner})
    ensures At(sys, owner, Releasing) ==>
      var key := "dead-letter-replay:" + sys.replays[owner].dead;
      var mine := key in sys.leases && sys.now < sys.leases[key].expiresAt && sys.leases[key].owner == owner;
      Step(sys, Advance(owner)) ==
        sys.(replays := sys.replays - {owner}, leases := if mine then sys.leases - {key} else sys.leases)
  {
    if At(sys, owner, Adding(e)) && e.job in sys.target {
      assert sys.added[owner := sys.added[owner] + 0] == sys.added;
    }
  }

  lemma OtherwiseLaw(sys: System, owner: Owner, elapsed: nat)
    ensures Step(sys, Abandon(owner)) == sys.(replays := sys.replays - {owner})
    ensures Step(sys, Wait(elapsed)) == sys.(now := sys.now + elapsed)
    ensures owner !in sys.replays ==> Step(sys, Advance(owner)) == sys
  {
  }

  // The undisturbed replay: refused without the dead letter, refused while the job is there and has not
  // failed, and otherwise the job waits again with the envelope of the dead letter, which is gone.
  lemma ReplayedLaw(q: Queues, dead: string)
    ensures dead !in q.dead ==> Replayed(q, dead) == Err(NotFound)
    ensures dead in q.dead ==>
      var (job, envelope) := (q.dead[dead].job, q.dead[dead].envelope);
      Replayed(q, dead) ==
        if job in q.target && q.target[job].state in {Waiting, Active, Completed}
        then Err(WrongState(q.target[job].state))
        else Ok(Queues(q.target[job := Job(envelope, Waiting)], q.dead - {dead}))
  {
  }

  // ---------------------------------------------------------------- there and back

  function Started(sys: System, job: JobId, envelope: Envelope): System {
    Step(Step(sys, Submit(job, envelope)), Start(job))
  }

  lemma StartedIs(sys: System, job: JobId, envelope: Envelope)
    requires job !in sys.target
    ensures Started(sys, job, envelope) == sys.(
      target := sys.target[job := Job(envelope, Active)], submitted := sys.submitted[job := envelope])
  {
    SubmitLaw(sys, job, envelope);
    WorkLaw(Step(sys, Submit(job, envelope)), job);
    assert sys.target[job := Job(envelope, Waiting)][job := Job(envelope, Active)] ==
      sys.target[job := Job(envelope, Active)];
  }

  function FailedAndFiled(sys: System, job: JobId, envelope: Envelope): System {
    Step(Step(Started(sys, job, envelope), Exhaust(job)), Handle(job))
  }

  lemma FiledAfterFailure(sys: System, job: JobId, envelope: Envelope)
    requires job !in sys.target && job + "-dead" !in sys.dead
    ensures FailedAndFiled(sys, job, envelope) == sys.(
      target := sys.target[job := Job(envelope, Failed)], submitted := sys.submitted[job := envelope],
      failures := sys.failures + {job} - {job}, dead := sys.dead[job + "-dead" := Entry(envelope, job)])
  {
    var started := Started(sys, job, envelope);
    StartedIs(sys, job, envelope);
    WorkLaw(started, job);
    assert sys.target[job := Job(envelope, Active)][job := Job(envelope, Failed)] ==
      sys.target[job := Job(envelope, Failed)];
    FilingLaw(Step(started, Exhaust(job)), job);
  }

  // A job that is submitted, fails for good and is filed comes back through a replay: it waits again with
  // the envelope that was submitted, and its dead letter is gone.
  lemma FailedJobComesBack(sys: System, job: JobId, envelope: Envelope, owner: Owner)
    requires job !in sys.target && job + "-dead" !in sys.dead && owner != "" && owner !in sys.added
    requires Leases.HolderOf(sys.leases, sys.now, LeaseKey(job + "-dead")) == None
    ensures var filed := FailedAndFiled(sys, job, envelope);
      var back := Advanced(Step(filed, Open(owner, job + "-dead")), owner, 7);
      && back.target == sys.target[job := Job(envelope, Waiting)] && back.dead == sys.dead
      && owner !in back.replays
  {
    var filed := FailedAndFiled(sys, job, envelope);
    FiledAfterFailure(sys, job, envelope);
    StepsComputeReplay(filed, owner, job + "-dead");
    ReplayedLaw(Queues(filed.target, filed.dead), job + "-dead");
    PutAgain(sys.target, job, Job(envelope, Failed), Job(envelope, Waiting));
    PutAndTaken(sys.dead, job + "-dead", Entry(envelope, job));
  }

  lemma PutAgain<K, V>(m: map<K, V>, k: K, v: V, w: V)
    ensures m[k := v][k := w] == m[k := w]
  {
  }

  lemma PutAndTaken<K, V>(m: map<K, V>, k: K, v: V)
    requires k !in m
    ensures m[k := v] - {k} == m
  {
  }

  // One that succeeds leaves the queue once it is evicted, and is remembered as completed.
  lemma JobCompletes(sys: System, job: JobId, envelope: Envelope)
    requires job !in sys.target
    ensures var done := Step(Started(sys, job, envelope), Complete(job));
      && job in done.target && done.target[job] == Job(envelope, Completed) && job in done.completed
      && Step(done, Evict(job)).target == sys.target
  {
    var started := Started(sys, job, envelope);
    StartedIs(sys, job, envelope);
    WorkLaw(started, job);
    FilingLaw(Step(started, Complete(job)), job);
    PutAgain(sys.target, job, Job(envelope, Active), Job(envelope, Completed));
    PutAndTaken(sys.target, job, Job(envelope, Completed));
  }
}
