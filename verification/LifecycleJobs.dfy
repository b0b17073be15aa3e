// Lifecycle commands as queued jobs: submission under an idempotency key, and execution, which the
// job machine proves to take effect at most once.
module LifecycleJobs {
  import opened Results
  import L = Lifecycle
  import M = JobMachine
  import D = DataPlane

  // ---------------------------------------------------------------- submission

  // What travels with a command; a rollback carries the target read at submission.
  datatype Payload = Payload(version: Option<nat>, acknowledge: bool, target: Option<nat>)

  datatype Kind = KInstall | KUpgrade | KRollback | KActivate | KDeactivate | KUninstall | KPurge

  datatype Job = Job(school: nat, extension: nat, installation: nat, kind: Kind, payload: Payload, key: string,
      status: M.Status)

  datatype Failure = NotFound | KeyReused | SchoolJobQuota | ExtensionJobQuota | QueueUnavailable

  // The columns of the installation that submission reads.
  datatype Target = Target(id: nat, school: nat, extension: nat, rollbackVersion: Option<nat>)

  function PayloadOf(kind: Kind, t: Target, payload: Payload): Payload {
    if kind == KRollback then payload.(target := t.rollbackVersion) else payload
  }

  predicate IsActive(status: M.Status) {
    status in {M.Queued, M.Running}
  }

  ghost predicate UniqueKeys(jobs: map<nat, Job>) {
    forall a, b :: a in jobs && b in jobs && jobs[a].school == jobs[b].school && jobs[a].key == jobs[b].key ==> a == b
  }

  class JobTable {
    const schoolQuota: nat
    const extensionQuota: nat
    var jobs: map<nat, Job>
    var nextId: nat

    ghost predicate Valid()
      reads this
    {
      UniqueKeys(jobs) && forall id :: id in jobs ==> id < nextId
    }

    constructor (schoolQuota: nat, extensionQuota: nat)
      ensures Valid() && jobs == map[]
      ensures this.schoolQuota == schoolQuota && this.extensionQuota == extensionQuota
    {
      this.schoolQuota, this.extensionQuota := schoolQuota, extensionQuota;
      jobs, nextId := map[], 0;
    }

    function Matching(school: nat, key: string): set<nat>
      reads this
    {
      set id | id in jobs && jobs[id].school == school && jobs[id].key == key
    }

    function SchoolActive(school: nat): set<nat>
      reads this
    {
      set id | id in jobs && jobs[id].school == school && IsActive(jobs[id].status)
    }

    function ExtensionActive(extension: nat): set<nat>
      reads this
    {
      set id | id in jobs && jobs[id].extension == extension && IsActive(jobs[id].status)
    }

    // A known key answers with its job when the request is the same, and is refused otherwise; a new
    // key makes a job within the quotas, taken back when the queue cannot be reached.
    method Submit(
        t: Target, kind: Kind, payload: Payload, key: string, reachable: bool) returns (r: Result<nat, Failure>)
      requires Valid()
      modifies this
      ensures Valid()
      ensures r.Ok? ==>
        && r.value in jobs
        && jobs[r.value].school == t.school && jobs[r.value].key == key
        && jobs[r.value].kind == kind && jobs[r.value].payload == PayloadOf(kind, t, payload)
      ensures old(Matching(t.school, key)) != {} || r.Err? ==> jobs == old(jobs)
      ensures old(Matching(t.school, key)) == {} && r.Ok? ==>
        && r.value !in old(jobs)
        && jobs == old(jobs)[r.value := Job(t.school, t.extension, t.id, kind, PayloadOf(kind, t, payload), key,
            M.Queued)]
      ensures r == Err(KeyReused) <==>
        exists id :: id in old(Matching(t.school, key))
          && (old(jobs)[id].kind != kind || old(jobs)[id].payload != PayloadOf(kind, t, payload))
      ensures old(Matching(t.school, key)) != {} ==> r.Ok? || r == Err(KeyReused)
      ensures old(Matching(t.school, key)) == {} ==>
        var school := set id | id in old(jobs) && old(jobs)[id].school == t.school
          && (old(jobs)[id].status == M.Queued || old(jobs)[id].status == M.Running);
        var extension := set id | id in old(jobs) && old(jobs)[id].extension == t.extension
          && (old(jobs)[id].status == M.Queued || old(jobs)[id].status == M.Running);
        if |school| >= schoolQuota then r == Err(SchoolJobQuota)
        else if |extension| >= extensionQuota then r == Err(ExtensionJobQuota)
        else if !reachable then r == Err(QueueUnavailable)
        else r.Ok?
      ensures r.Ok? ==>
        && jobs[r.value].payload.version == payload.version && jobs[r.value].payload.acknowledge == payload.acknowledge
        && jobs[r.value].payload.target == (if kind == KRollback then t.rollbackVersion else payload.target)
    {
      var sent := PayloadOf(kind, t, payload);
      var matching := Matching(t.school, key);
      assert SchoolActive(t.school) == set id | id in jobs && jobs[id].school == t.school
        && (jobs[id].status == M.Queued || jobs[id].status == M.Running);
      assert ExtensionActive(t.extension) == set id | id in jobs && jobs[id].extension == t.extension
        && (jobs[id].status == M.Queued || jobs[id].status == M.Running);
      if matching != {} {
        var id :| id in matching;
        if jobs[id].kind != kind || jobs[id].payload != sent {
          return Err(KeyReused);
        }
        return Ok(id);
      }
      if |SchoolActive(t.school)| >= schoolQuota {
        return Err(SchoolJobQuota);
      }
      if |ExtensionActive(t.extension)| >= extensionQuota {
        return Err(ExtensionJobQuota);
      }
      if !reachable {
        return Err(QueueUnavailable);
      }
      assert forall id :: id in jobs && jobs[id].school == t.school && jobs[id].key == key ==> id in matching;
      jobs := jobs[nextId := Job(t.school, t.extension, t.id, kind, sent, key, M.Queued)];
      nextId := nextId + 1;
      return Ok(nextId - 1);
    }

    // The same request sent again under the same key gets the same job exactly when it carries the
    // same payload: a rollback that has meanwhile been carried out no longer does.
    method SubmitTwice(t: Target, later: Target, kind: Kind, payload: Payload, key: string)
      returns (first: Result<nat, Failure>, second: Result<nat, Failure>)
      requires Valid() && later.id == t.id && later.school == t.school && later.extension == t.extension
      modifies this
      ensures first.Ok? ==>
        (second == first <==> kind != KRollback || later.rollbackVersion == t.rollbackVersion)
      ensures first.Ok? && second != first ==> second == Err(KeyReused)
    {
      first := Submit(t, kind, payload, key, true);
      if first.Ok? {
        assert first.value in Matching(t.school, key);
        ghost var made := jobs;
        second := Submit(later, kind, payload, key, true);
        assert jobs == made;
      } else {
        second := first;
      }
    }
  }

  // ---------------------------------------------------------------- execution

  type Delivery = (L.World, nat)

  function Effect(p: L.Pricing, c: L.Command): (Delivery, Option<L.Installation>) -> Option<Option<L.Installation>> {
    (d: Delivery, row: Option<L.Installation>) => L.JobEffect(p, c, d.0, d.1, row)
  }

  // Once only, for every lifecycle command a job can carry; a rollback job has captured its target.
  lemma LifecycleJobOnceOnly(
      p: L.Pricing, c: L.Command, staleAfter: nat, before: Option<L.Installation>, evs: seq<M.Event<Delivery>>)
    requires L.IsJob(c) && (c.Rollback? ==> c.target.Some?)
    ensures var sys := M.Run(Effect(p, c), staleAfter, M.Start(before), evs);
      && (sys.target == before || exists w, now :: L.JobEffect(p, c, w, now, before) == Some(sys.target))
      && sys.changes <= 1
      && (sys.status == M.Succeeded ==> exists w, now :: L.JobEffect(p, c, w, now, before) == Some(sys.target))
  {
    var f := Effect(p, c);
    forall e1: Delivery, e2: Delivery, s, t | f(e1, s) == Some(t) ensures f(e2, t) in {None, Some(t)} {
      L.RepeatIsSame(p, c, e1.0, e1.1, s, e2.0, e2.1);
    }
    M.OnceOnlyEffect(f, staleAfter, before, evs);
    var sys := M.Run(f, staleAfter, M.Start(before), evs);
    if M.Effected(f, before, sys.target) {
      var e :| f(e, before) == Some(sys.target);
      assert L.JobEffect(p, c, e.0, e.1, before) == Some(sys.target);
    }
  }

  // A rollback job submitted while there was nothing to roll back to captured no target: it never
  // takes effect and never succeeds.
  lemma UncapturedRollbackNeverRuns(p: L.Pricing, staleAfter: nat, before: L.Installation, evs: seq<M.Event<Delivery>>)
    requires before.rollbackVersion == None
    ensures var sys := M.Run(Effect(p, L.Rollback(None)), staleAfter, M.Start(Some(before)), evs);
      sys.target == Some(before) && sys.status != M.Succeeded
  {
    var f := Effect(p, L.Rollback(None));
    M.RefusedNeverRuns(f, staleAfter, Some(before), M.Start(Some(before)), evs);
  }

  // The same for a rollback of the data plane with its records and counters: any number of
  // deliveries leave the database as it was or rolled back once.
  ghost function DataRollback(cfg: D.Settings, i: D.Id, to: D.Id): (bool, D.Db) -> Option<D.Db> {
    (signed: bool, db: D.Db) =>
      if !signed then None
      else
        match D.Rollback(cfg, db, i, Some(to))
        case Ok(next) => Some(next)
        case Err(_) => None
  }

  // A job whose package is not signed is refused; any other rolls back, or is refused with its rollback.
  lemma DataRollbackLaw(cfg: D.Settings, i: D.Id, to: D.Id, signed: bool, db: D.Db, next: D.Db)
    ensures DataRollback(cfg, i, to)(signed, db) == Some(next) <==>
      signed && D.Rollback(cfg, db, i, Some(to)) == Ok(next)
  {
  }

  lemma DataRollbackOnceOnly(cfg: D.Settings, i: D.Id, to: D.Id, staleAfter: nat, before: D.Db, evs: seq<M.Event<bool>>)
    ensures var sys := M.Run(DataRollback(cfg, i, to), staleAfter, M.Start(before), evs);
      && (sys.target == before || D.Rollback(cfg, before, i, Some(to)) == Ok(sys.target))
      && (sys.status == M.Succeeded ==> D.Rollback(cfg, before, i, Some(to)) == Ok(sys.target))
  {
    var f := DataRollback(cfg, i, to);
    forall e1, e2, s, t | f(e1, s) == Some(t) ensures f(e2, t) in {None, Some(t)} {
      RolledBackStays(cfg, s, i, to, t);
    }
    M.OnceOnlyEffect(f, staleAfter, before, evs);
  }

  lemma RolledBackStays(cfg: D.Settings, db: D.Db, i: D.Id, to: D.Id, done: D.Db)
    requires D.Rollback(cfg, db, i, Some(to)) == Ok(done)
    ensures D.Rollback(cfg, done, i, Some(to)) == Ok(done)
  {
  }

  // A job whose deliveries are carried out to the end: claim, effect, mark.
  class Execution {
    const pricing: L.Pricing
    const command: L.Command
    var status: M.Status
    var attempts: nat
    var startedAt: int
    var row: Option<L.Installation>

    constructor (pricing: L.Pricing, command: L.Command, row: Option<L.Installation>)
      ensures this.pricing == pricing && this.command == command
      ensures System() == M.System(M.Queued, 0, 0, map[], row, 0)
    {
      this.pricing, this.command, this.row := pricing, command, row;
      status, attempts, startedAt := M.Queued, 0, 0;
    }

    function System(): M.System<Option<L.Installation>>
      reads this
    {
      M.System(status, attempts, startedAt, map[], row, 0)
    }

    // One delivery; worker numbers it among deliveries.
    method Execute(worker: nat, attempt: nat, now: nat, staleAfter: nat, w: L.World, logged: bool, written: bool)
      returns (done: bool)
      modifies this
      ensures System() == M.Run(Effect(pricing, command), staleAfter, old(System()),
        [M.Claim(worker, attempt, now), M.Effect(worker, (w, now), logged), M.Mark(worker, written)]).(changes := 0)
      ensures done <==> status == M.Succeeded
      ensures
        if old(status) == M.Succeeded ||
          (old(status) == M.Running && attempt <= old(attempts) && now < old(startedAt) + staleAfter)
        then System() == old(System())
        else
          var effect := L.JobEffect(pricing, command, w, now, old(row));
          && status == (if effect.Some? && logged && written then M.Succeeded else M.Failed)
          && row == (if effect.Some? then effect.value else old(row))
          && attempts == attempt && startedAt == now
    {
      ghost var f := Effect(pricing, command);
      ghost var e0: M.Event<Delivery> := M.Claim(worker, attempt, now);
      ghost var e1: M.Event<Delivery> := M.Effect(worker, (w, now), logged);
      ghost var e2: M.Event<Delivery> := M.Mark(worker, written);
      M.RunThree(f, staleAfter, System(), e0, e1, e2);
      if status == M.Succeeded {
        return true;
      }
      if !M.Claimable(System(), staleAfter, attempt, now) {
        return false;
      }
      status, attempts, startedAt := M.Running, attempt, now;
      var effect := L.JobEffect(pricing, command, w, now, row);
      if effect.Some? {
        row := effect.value;
        status := if logged && written then M.Succeeded else M.Failed;
      } else {
        status := M.Failed;
      }
      assert (map[worker := M.Claimed] - {worker}) == map[];
      done := status == M.Succeeded;
    }
  }
}
