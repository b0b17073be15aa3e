// The claim, effect and mark protocol of queued jobs, with any number of workers interleaving and
// crashing between the three steps. The effect of the job's command is a parameter: it may be
// refused (None) depending on an environment that differs from one delivery to the next. Commands of
// one resource run under a lock, so that the effect is one step; the lock outlasts the command.
module JobMachine {
  import opened Results

  datatype Status = Queued | Running | Succeeded | Failed

  // A worker between its claim and its final write.
  datatype Phase = Claimed | Finished(ok: bool)

  datatype System<S> = System(
    status: Status,
    attempts: nat,
    startedAt: int,
    workers: map<nat, Phase>,
    target: S,
    changes: nat)

  datatype Event<E> =
    | Claim(worker: nat, attempt: nat, now: int)
    | Effect(worker: nat, env: E, logged: bool)
    | Mark(worker: nat, written: bool)
    | Crash(worker: nat)

  function Start<S>(target: S): System<S> {
    System(Queued, 0, 0, map[], target, 0)
  }

  // A job may be claimed unless it has succeeded, or a younger delivery or a recent start holds it.
  predicate Claimable<S>(sys: System<S>, staleAfter: nat, attempt: nat, now: int) {
    || sys.status in {Queued, Failed}
    || (sys.status == Running && sys.attempts < attempt)
    || (sys.status == Running && sys.startedAt <= now - staleAfter)
  }

  function Step<S(==), E>(f: (E, S) -> Option<S>, staleAfter: nat, sys: System<S>, ev: Event<E>): System<S> {
    match ev
    case Claim(w, attempt, now) =>
      if w in sys.workers || !Claimable(sys, staleAfter, attempt, now) then sys
      else sys.(status := Running, attempts := attempt, startedAt := now, workers := sys.workers[w := Claimed])
    case Effect(w, env, logged) =>
      // What the command does after its effect, such as writing the log, may still fail.
      if w !in sys.workers || sys.workers[w] != Claimed then sys
      else
        (match f(env, sys.target)
         case None => sys.(workers := sys.workers[w := Finished(false)])
         case Some(t) => sys.(workers := sys.workers[w := Finished(logged)], target := t,
                              changes := if t == sys.target then sys.changes else sys.changes + 1))
    case Mark(w, written) =>
      // Where SUCCEEDED cannot be written, FAILED is.
      if w !in sys.workers || sys.workers[w] == Claimed then sys
      else sys.(status := if sys.workers[w].ok && written then Succeeded else Failed, workers := sys.workers - {w})
    case Crash(w) => sys.(workers := sys.workers - {w})
  }

  function Run<S(==), E>(f: (E, S) -> Option<S>, staleAfter: nat, sys: System<S>, evs: seq<Event<E>>): System<S>
    decreases |evs|
  {
    if evs == [] then sys else Run(f, staleAfter, Step(f, staleAfter, sys, evs[0]), evs[1..])
  }

  // Once the effect has taken place, repeating it is refused or changes nothing.
  ghost predicate Repeatable<S(!new), E(!new)>(f: (E, S) -> Option<S>) {
    forall e1, e2, s, t {:trigger f(e1, s), f(e2, t)} :: f(e1, s) == Some(t) ==> f(e2, t) in {None, Some(t)}
  }

  ghost predicate Effected<S, E(!new)>(f: (E, S) -> Option<S>, before: S, after: S) {
    exists e :: f(e, before) == Some(after)
  }

  ghost predicate SomeoneDone<S>(sys: System<S>) {
    exists w :: DoneAt(sys, w)
  }

  predicate DoneAt<S>(sys: System<S>, w: nat) {
    w in sys.workers && sys.workers[w] == Finished(true)
  }

  // Not done yet, or done once: and done if anyone is about to say so or has said so.
  ghost predicate OnceOnly<S, E(!new)>(f: (E, S) -> Option<S>, before: S, sys: System<S>) {
    || (sys.target == before && sys.changes == 0 && !SomeoneDone(sys) && sys.status != Succeeded)
    || (Effected(f, before, sys.target) && sys.changes == if sys.target == before then 0 else 1)
  }

  lemma StepOnceOnly<S(!new), E(!new)>(f: (E, S) -> Option<S>, staleAfter: nat, before: S, sys: System<S>, ev: Event<E>)
    requires Repeatable(f) && OnceOnly(f, before, sys)
    ensures OnceOnly(f, before, Step(f, staleAfter, sys, ev))
    ensures Effected(f, before, sys.target) ==> Step(f, staleAfter, sys, ev).target == sys.target
  {
    var next := Step(f, staleAfter, sys, ev);
    if ev.Effect? && ev.worker in sys.workers && sys.workers[ev.worker] == Claimed {
      if Effected(f, before, sys.target) {
        var e :| f(e, before) == Some(sys.target);
        assert f(ev.env, sys.target) in {None, Some(sys.target)};
      } else if f(ev.env, sys.target).Some? {
        assert Effected(f, before, next.target);
      } else {
        assert forall w :: DoneAt(next, w) ==> DoneAt(sys, w);
      }
    } else if ev.Mark? && ev.worker in sys.workers && sys.workers[ev.worker] == Finished(true) {
      assert DoneAt(sys, ev.worker);
    } else {
      assert forall w :: DoneAt(next, w) ==> DoneAt(sys, w);
    }
  }

  lemma {:induction false} RunOnceOnly<S(!new), E(!new)>(
      f: (E, S) -> Option<S>, staleAfter: nat, before: S, sys: System<S>, evs: seq<Event<E>>)
    requires Repeatable(f) && OnceOnly(f, before, sys)
    ensures OnceOnly(f, before, Run(f, staleAfter, sys, evs))
    decreases |evs|
  {
    if evs != [] {
      StepOnceOnly(f, staleAfter, before, sys, evs[0]);
      RunOnceOnly(f, staleAfter, before, Step(f, staleAfter, sys, evs[0]), evs[1..]);
    }
  }

  // However deliveries, crashes and workers interleave: the target is as before or as one effect
  // left it, it changed at most once, and a job that reads SUCCEEDED has had its effect.
  lemma OnceOnlyEffect<S(!new), E(!new)>(f: (E, S) -> Option<S>, staleAfter: nat, before: S, evs: seq<Event<E>>)
    requires Repeatable(f)
    ensures var sys := Run(f, staleAfter, Start(before), evs);
      && (sys.target == before || Effected(f, before, sys.target))
      && sys.changes <= 1
      && (sys.status == Succeeded ==> Effected(f, before, sys.target))
  {
    RunOnceOnly(f, staleAfter, before, Start(before), evs);
  }

  ghost predicate Untouched<S(!new)>(before: S, sys: System<S>) {
    sys.target == before && sys.changes == 0 && sys.status != Succeeded && !SomeoneDone(sys)
  }

  // A command that is refused whatever the environment never takes effect and never succeeds.
  lemma {:induction false} RefusedNeverRuns<S(!new), E(!new)>(
      f: (E, S) -> Option<S>, staleAfter: nat, before: S, sys: System<S>, evs: seq<Event<E>>)
    requires (forall e :: f(e, before) == None) && Untouched(before, sys)
    ensures Untouched(before, Run(f, staleAfter, sys, evs))
    decreases |evs|
  {
    if evs != [] {
      var next := Step(f, staleAfter, sys, evs[0]);
      forall w ensures !DoneAt(next, w) {
        assert !DoneAt(sys, w);
      }
      assert evs[0].Mark? ==> !DoneAt(sys, evs[0].worker);
      RefusedNeverRuns(f, staleAfter, before, next, evs[1..]);
    }
  }

  // ---------------------------------------------------------------- is SUCCEEDED final?

  lemma {:induction false} StaysSucceeded<S(!new), E(!new)>(
      f: (E, S) -> Option<S>, staleAfter: nat, sys: System<S>, evs: seq<Event<E>>)
    requires sys.status == Succeeded && sys.workers == map[]
    ensures Run(f, staleAfter, sys, evs).status == Succeeded
    decreases |evs|
  {
    if evs != [] {
      var next := Step(f, staleAfter, sys, evs[0]);
      assert next.workers == map[];
      StaysSucceeded(f, staleAfter, next, evs[1..]);
    }
  }

  // The final writes are unguarded: SUCCEEDED is final exactly when no other worker is in flight. One
  // that is may be refused, or fail after its effect, and then writes FAILED over it.
  lemma SucceededIsFinalIff<S(!new), E(!new)>(f: (E, S) -> Option<S>, staleAfter: nat, sys: System<S>, anyEnv: E)
    requires sys.status == Succeeded
    ensures (forall evs: seq<Event<E>> :: Run(f, staleAfter, sys, evs).status == Succeeded) <==> sys.workers == map[]
  {
    if sys.workers == map[] {
      forall evs: seq<Event<E>> ensures Run(f, staleAfter, sys, evs).status == Succeeded {
        StaysSucceeded(f, staleAfter, sys, evs);
      }
    } else {
      var w :| w in sys.workers;
      if sys.workers[w] == Claimed {
        LateEffect(f, staleAfter, sys, w, anyEnv);
      } else {
        LateMark<S, E>(f, staleAfter, sys, w);
      }
    }
  }

  lemma LateMark<S(!new), E(!new)>(f: (E, S) -> Option<S>, staleAfter: nat, sys: System<S>, w: nat)
    requires w in sys.workers && sys.workers[w] != Claimed
    ensures exists evs: seq<Event<E>> :: Run(f, staleAfter, sys, evs).status == Failed
  {
    var evs: seq<Event<E>> := [Mark(w, false)];
    assert Run(f, staleAfter, sys, evs) == Run(f, staleAfter, Step(f, staleAfter, sys, evs[0]), evs[1..]);
    assert Run(f, staleAfter, sys, evs).status == Failed;
  }

  lemma LateEffect<S(!new), E(!new)>(f: (E, S) -> Option<S>, staleAfter: nat, sys: System<S>, w: nat, e: E)
    requires w in sys.workers && sys.workers[w] == Claimed
    ensures exists evs: seq<Event<E>> :: Run(f, staleAfter, sys, evs).status == Failed
  {
    var mid := Step(f, staleAfter, sys, Effect(w, e, false));
    LateMark<S, E>(f, staleAfter, mid, w);
    var evs: seq<Event<E>> :| Run(f, staleAfter, mid, evs).status == Failed;
    var all := [Effect(w, e, false)] + evs;
    assert all[1..] == evs;
    assert Run(f, staleAfter, sys, all).status == Failed;
  }

  // ---------------------------------------------------------------- what a delivery comes to

  // A claim goes through for a job that is waiting or has failed, and for a running one under an earlier
  // attempt or started long enough ago; then the job is running under the new attempt.
  lemma ClaimLaw<S, E>(f: (E, S) -> Option<S>, staleAfter: nat, sys: System<S>, w: nat, attempt: nat, now: int)
    requires w !in sys.workers
    ensures var next := Step(f, staleAfter, sys, Event<E>.Claim(w, attempt, now));
      match sys.status
      case Queued => next == System(Running, attempt, now, sys.workers[w := Claimed], sys.target, sys.changes)
      case Failed => next == System(Running, attempt, now, sys.workers[w := Claimed], sys.target, sys.changes)
      case Succeeded => next == sys
      case Running =>
        if attempt > sys.attempts || now >= sys.startedAt + staleAfter
        then next == System(Running, attempt, now, sys.workers[w := Claimed], sys.target, sys.changes)
        else next == sys
  {
  }

  // The worker that claimed carries the command out, once, and writes how it went; one that is refused
  // leaves the target alone.
  lemma WorkLaw<S, E>(
      f: (E, S) -> Option<S>, staleAfter: nat, sys: System<S>, w: nat, env: E, logged: bool, written: bool)
    requires w in sys.workers && sys.workers[w] == Claimed
    ensures var worked := Step(f, staleAfter, sys, Effect(w, env, logged));
      var marked := Step(f, staleAfter, worked, Event<E>.Mark(w, written));
      && marked.target == (if f(env, sys.target).Some? then f(env, sys.target).value else sys.target)
      && marked.status == (if f(env, sys.target).Some? && logged && written then Succeeded else Failed)
      && marked.attempts == sys.attempts && marked.startedAt == sys.startedAt
      && marked.workers == sys.workers - {w}
      && marked.changes == sys.changes + (if marked.target == sys.target then 0 else 1)
      && Step(f, staleAfter, worked, Effect(w, env, logged)) == worked
  {
  }

  // A worker that crashes leaves everything but itself behind.
  lemma CrashLaw<S, E>(f: (E, S) -> Option<S>, staleAfter: nat, sys: System<S>, w: nat)
    ensures Step(f, staleAfter, sys, Event<E>.Crash(w)) ==
      System(sys.status, sys.attempts, sys.startedAt, sys.workers - {w}, sys.target, sys.changes)
  {
  }

  function Delivery<E>(w: nat, attempt: nat, now: int, env: E, logged: bool, written: bool): seq<Event<E>> {
    [Claim(w, attempt, now), Effect(w, env, logged), Mark(w, written)]
  }

  // A delivery that nobody else interferes with: it changes nothing when the job has succeeded or is
  // held by this attempt or a later one that started less than the limit ago; otherwise the command is
  // carried out, and the job ends SUCCEEDED exactly when it is accepted, logged and written.
  lemma DeliveryLaw<S, E>(
      f: (E, S) -> Option<S>, staleAfter: nat, sys: System<S>, w: nat, attempt: nat, now: int, env: E, logged: bool,
      written: bool)
    requires w !in sys.workers
    ensures var after := Run(f, staleAfter, sys, Delivery(w, attempt, now, env, logged, written));
      if sys.status == Succeeded ||
        (sys.status == Running && attempt <= sys.attempts && now < sys.startedAt + staleAfter)
      then after == sys
      else
        && after.status == (if f(env, sys.target).Some? && logged && written then Succeeded else Failed)
        && after.target == (if f(env, sys.target).Some? then f(env, sys.target).value else sys.target)
        && after.attempts == attempt && after.startedAt == now && after.workers == sys.workers
  {
    RunThree(f, staleAfter, sys, Claim(w, attempt, now), Effect(w, env, logged), Mark(w, written));
    ClaimLaw(f, staleAfter, sys, w, attempt, now);
    var claimed := Step(f, staleAfter, sys, Event<E>.Claim(w, attempt, now));
    if claimed != sys {
      WorkLaw(f, staleAfter, claimed, w, env, logged, written);
      assert sys.workers[w := Claimed] - {w} == sys.workers;
    }
  }

  lemma RunThree<S, E>(
      f: (E, S) -> Option<S>, staleAfter: nat, sys: System<S>, e0: Event<E>, e1: Event<E>, e2: Event<E>)
    ensures Run(f, staleAfter, sys, [e0, e1, e2])
      == Step(f, staleAfter, Step(f, staleAfter, Step(f, staleAfter, sys, e0), e1), e2)
  {
    var s1 := Step(f, staleAfter, sys, e0);
    var s2 := Step(f, staleAfter, s1, e1);
    assert [e0, e1, e2][1..] == [e1, e2] && [e1, e2][1..] == [e2] && [e2][1..] == [];
    assert Run(f, staleAfter, sys, [e0, e1, e2]) == Run(f, staleAfter, s1, [e1, e2]);
    assert Run(f, staleAfter, s1, [e1, e2]) == Run(f, staleAfter, s2, [e2]);
    assert Run(f, staleAfter, s2, [e2]) == Run(f, staleAfter, Step(f, staleAfter, s2, e2), []);
  }

  // Whatever crashes and interleavings went before, the next attempt of an acceptable command succeeds.
  lemma NextAttemptSucceeds<S, E>(
      f: (E, S) -> Option<S>, staleAfter: nat, before: S, evs: seq<Event<E>>, w: nat, attempt: nat, now: int, env: E)
    requires var sys := Run(f, staleAfter, Start(before), evs);
      w !in sys.workers && sys.attempts < attempt && f(env, sys.target).Some?
    ensures var sys := Run(f, staleAfter, Start(before), evs);
      var after := Run(f, staleAfter, sys, Delivery(w, attempt, now, env, true, true));
      after.status == Succeeded && (sys.status == Succeeded || after.target == f(env, sys.target).value)
  {
    DeliveryLaw(f, staleAfter, Run(f, staleAfter, Start(before), evs), w, attempt, now, env, true, true);
  }
}
