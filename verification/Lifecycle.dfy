// The lifecycle of one school's installation of one extension: request, payment, approval,
// installation, activation, upgrade, rollback, uninstallation and removal.
module Lifecycle {
  import opened Results

  datatype State = Requested | PaymentReview | Approved | Installed | Active | Uninstalled

  datatype Pricing = Free | PrivateContract | OneTime | Subscription

  datatype Billing = BillingPending | BillingActive | Overdue | Cancelled

  // Timestamps are None where the column is null. invoice: an evidence upload is on file.
  datatype Installation = Installation(
    state: State,
    enabled: bool,
    version: nat,
    rollbackVersion: Option<nat>,
    billing: Billing,
    requestedAt: Option<nat>,
    approvedAt: Option<nat>,
    installedAt: Option<nat>,
    uninstalledAt: Option<nat>,
    purgeAfter: Option<nat>,
    paymentSubmittedAt: Option<nat>,
    invoice: bool)

  // The answers of everything a command consults: catalogue, controls, dependencies, signatures,
  // storage, and the data plane for a declared migration or its undoing.
  datatype World = World(
    listed: bool,
    publishedVersion: nat,
    identified: bool,
    available: bool,
    allowed: bool,
    compatible: bool,
    dependenciesMet: bool,
    signed: bool,
    permissionsAdded: bool,
    migration: Option<bool>,
    undoable: bool,
    neededByOthers: bool,
    evidenceMatches: bool,
    evidenceRetained: bool,
    graceDays: nat)

  datatype Command =
    | Request
    | RequestPaid
    | InitiatePayment
    | FinalizePayment
    | PurgeEvidence
    | Approve
    | SetBilling(billing: Billing)
    | Install(version: nat)
    | Upgrade(to: nat, acknowledge: bool)
    | Rollback(target: Option<nat>)
    | Activate
    | Deactivate
    | Uninstall
    | Purge
    | Suspend
    | Retire

  datatype Failure = NotFound | Conflict

  predicate Paid(p: Pricing) {
    p in {OneTime, Subscription}
  }

  const DAY_MS: nat := 24 * 60 * 60 * 1000

  // One command on the installation row, if there is one, carried out from its read to its write with
  // no other in between. Suspend is what blocking a version, revoking a key or suspending a publisher
  // does to an enabled installation, and Retire what retiring a core module does to any.
  function Exec(
      p: Pricing, w: World, now: nat, c: Command, row: Option<Installation>): Result<Option<Installation>, Failure> {
    match c
    case Request =>
      if Paid(p) || !w.listed || !w.identified then Err(NotFound)
      else if row.Some? && row.value.enabled then Err(Conflict)
      else
        var billing := if p == Free then BillingActive else BillingPending;
        (match row
         case Some(i) => Ok(Some(i.(
           state := Requested, enabled := false, billing := billing, requestedAt := Some(now), approvedAt := None,
           installedAt := None, uninstalledAt := None, purgeAfter := None)))
         case None => Ok(Some(Installation(
           Requested, false, w.publishedVersion, None, billing, Some(now), None, None, None, None, None, false))))
    case RequestPaid =>
      if !Paid(p) || !w.listed || !w.identified then Err(NotFound)
      else if row.Some? && row.value.enabled then Err(Conflict)
      else Ok(Some(Asked(row, w.publishedVersion, now, PaymentReview, Some(now))))
    case InitiatePayment =>
      if !Paid(p) || !w.listed || !w.identified then Err(NotFound)
      else if row.Some? && row.value.enabled then Err(Conflict)
      else Ok(Some(Asked(row, w.publishedVersion, now, Requested, None)))
    case _ =>
      match row
      case None => Err(NotFound)
      case Some(i) => ExecOn(p, w, now, c, i)
  }

  // A paid request overwrites the whole request part of the row.
  function Asked(
      row: Option<Installation>, version: nat, now: nat, state: State, submitted: Option<nat>): Installation {
    var kept := if row.Some? then row.value.rollbackVersion else None;
    Installation(state, false, version, kept, BillingPending, Some(now), None, None, None, None, submitted, true)
  }

  function ExecOn(p: Pricing, w: World, now: nat, c: Command, i: Installation): Result<Option<Installation>, Failure>
    requires !(c.Request? || c.RequestPaid? || c.InitiatePayment?)
  {
    match c
    case FinalizePayment =>
      if !i.invoice then Err(NotFound)
      else if i.paymentSubmittedAt.Some? then Ok(Some(i))
      else if !w.evidenceMatches then Err(Conflict)
      else Ok(Some(i.(paymentSubmittedAt := Some(now), state := PaymentReview)))
    case PurgeEvidence => Ok(Some(i.(invoice := false)))
    case Approve =>
      if i.requestedAt == None then Err(Conflict)
      else if i.state == Approved then Ok(Some(i))
      else if i.state !in {Requested, PaymentReview} then Err(Conflict)
      else if p != Free && i.billing != BillingActive then Err(Conflict)
      else if Paid(p) && i.paymentSubmittedAt == None then Err(Conflict)
      else Ok(Some(i.(approvedAt := Some(now), state := Approved)))
    case SetBilling(billing) =>
      if p == Free then Err(Conflict)
      else if i.state == Active && billing != BillingActive then Err(Conflict)
      else Ok(Some(i.(billing := billing)))
    case Install(version) =>
      if i.state == Installed && i.version == version then Ok(Some(i))
      else if i.state != Approved then Err(Conflict)
      else if !w.available then Err(NotFound)
      else if !(w.allowed && w.compatible && w.dependenciesMet && w.signed) then Err(Conflict)
      else Ok(Some(i.(version := version, installedAt := Some(now), state := Installed, uninstalledAt := None,
          purgeAfter := None)))
    case Upgrade(to, acknowledge) =>
      if i.installedAt == None then Err(Conflict)
      else if i.version == to then Ok(Some(i))
      else if !w.available then Err(NotFound)
      else if !(w.allowed && w.compatible && w.dependenciesMet && w.signed) then Err(Conflict)
      else if w.permissionsAdded && !acknowledge then Err(Conflict)
      else
        (match w.migration
         case None => Ok(Some(i.(version := to, installedAt := Some(now))))
         case Some(applied) =>
           if !applied then Err(Conflict)
           else Ok(Some(i.(version := to, installedAt := Some(now), rollbackVersion := Some(i.version)))))
    case Rollback(target) =>
      if target == Some(i.version) then Ok(Some(i))
      else
        (match if target.Some? then target else i.rollbackVersion
         case None => Err(Conflict)
         case Some(to) =>
           if !w.available then Err(NotFound)
           else if !(w.signed && w.undoable) then Err(Conflict)
           else Ok(Some(i.(version := to, rollbackVersion := Some(i.version)))))
    case Activate =>
      if !w.allowed then Err(Conflict)
      else if i.state == Active then Ok(Some(i))
      else if i.state != Installed then Err(Conflict)
      else if !w.available || (p != Free && i.billing != BillingActive) then Err(Conflict)
      else if !w.dependenciesMet || !w.signed then Err(Conflict)
      else Ok(Some(i.(enabled := true, state := Active)))
    case Deactivate =>
      if i.state == Installed then Ok(Some(i))
      else if i.state != Active then Err(Conflict)
      else Ok(Some(i.(enabled := false, state := Installed)))
    case Uninstall =>
      if i.state == Uninstalled then Ok(Some(i))
      else if i.state !in {Installed, Active} || w.neededByOthers then Err(Conflict)
      else Ok(Some(i.(enabled := false, uninstalledAt := Some(now), purgeAfter := Some(now + w.graceDays * DAY_MS),
                      state := Uninstalled)))
    case Purge =>
      if i.uninstalledAt == None || i.enabled || w.evidenceRetained then Err(Conflict)
      else Ok(None)
    case Suspend => Ok(Some(if i.enabled then i.(enabled := false, state := Installed) else i))
    case Retire => Ok(Some(i.(enabled := false)))
  }

  // ---------------------------------------------------------------- safety over whole runs

  // The state that the timestamps alone give, as used for rows without a stored state.
  function DerivedState(i: Installation): State {
    if i.uninstalledAt.Some? then Uninstalled
    else if i.enabled then Active
    else if i.installedAt.Some? then Installed
    else if i.approvedAt.Some? then Approved
    else if i.paymentSubmittedAt.Some? then PaymentReview
    else Requested
  }

  ghost predicate Sound(p: Pricing, now: nat, i: Installation) {
    && i.state == DerivedState(i)
    && (i.enabled ==> i.uninstalledAt == None && i.installedAt.Some?)
    && (i.uninstalledAt.Some? ==>
      i.installedAt.Some? && i.purgeAfter.Some? && i.purgeAfter.value >= i.uninstalledAt.value)
    && i.requestedAt.Some?
    && i.requestedAt.value <= now
    && (i.approvedAt.Some? ==> i.requestedAt.value <= i.approvedAt.value <= now)
    && (i.installedAt.Some? ==> i.approvedAt.Some? && i.approvedAt.value <= i.installedAt.value <= now)
    && (Paid(p) && i.approvedAt.Some? ==> i.paymentSubmittedAt.Some?)
    && (!Paid(p) ==> !i.invoice && i.paymentSubmittedAt == None)
    && (p != Free && i.enabled ==> i.billing == BillingActive)
  }

  ghost predicate SoundRow(p: Pricing, now: nat, row: Option<Installation>) {
    row.Some? ==> Sound(p, now, row.value)
  }

  lemma RequestSound(p: Pricing, w: World, before: nat, now: nat, c: Command, row: Option<Installation>)
    requires SoundRow(p, before, row) && before <= now && (c.Request? || c.RequestPaid? || c.InitiatePayment?)
    ensures Exec(p, w, now, c, row).Ok? ==> SoundRow(p, now, Exec(p, w, now, c, row).value)
  {
  }

  lemma CommandSound(p: Pricing, w: World, before: nat, now: nat, c: Command, i: Installation)
    requires Sound(p, before, i) && before <= now && !(c.Request? || c.RequestPaid? || c.InitiatePayment? || c.Retire?)
    ensures ExecOn(p, w, now, c, i).Ok? ==> SoundRow(p, now, ExecOn(p, w, now, c, i).value)
  {
    match c
    case FinalizePayment =>
      assert i.paymentSubmittedAt == None && i.invoice ==> i.state == Requested;
    case Approve =>
    case SetBilling(_) =>
    case Install(_) =>
    case Upgrade(_, _) =>
    case Activate =>
    case Deactivate =>
    case Uninstall =>
    case _ =>
  }

  // Retiring a core module switches its active installations off and leaves their state ACTIVE.
  predicate RetiresActive(c: Command, row: Option<Installation>) {
    c.Retire? && row.Some? && row.value.enabled
  }

  // A command keeps the row sound exactly when it does not retire an active installation.
  lemma StepSoundIff(p: Pricing, w: World, before: nat, now: nat, c: Command, row: Option<Installation>)
    requires SoundRow(p, before, row) && before <= now
    ensures SoundRow(p, now, row)
    ensures Exec(p, w, now, c, row).Ok? ==>
      (SoundRow(p, now, Exec(p, w, now, c, row).value) <==> !RetiresActive(c, row))
  {
    if c.Request? || c.RequestPaid? || c.InitiatePayment? {
      RequestSound(p, w, before, now, c, row);
    } else if row.Some? && !c.Retire? {
      CommandSound(p, w, before, now, c, row.value);
    }
  }

  datatype Event = Event(world: World, now: nat, command: Command)

  predicate Clocked(since: nat, events: seq<Event>)
    decreases |events|
  {
    events == [] || (since <= events[0].now && Clocked(events[0].now, events[1..]))
  }

  function Next(p: Pricing, e: Event, row: Option<Installation>): Option<Installation> {
    match Exec(p, e.world, e.now, e.command, row)
    case Ok(next) => next
    case Err(_) => row
  }

  function Run(p: Pricing, events: seq<Event>, row: Option<Installation>): Option<Installation> {
    if events == [] then row else Run(p, events[1..], Next(p, events[0], row))
  }

  function End(since: nat, events: seq<Event>): nat
    decreases |events|
  {
    if events == [] then since else End(events[0].now, events[1..])
  }

  predicate NoActiveRetired(p: Pricing, events: seq<Event>, row: Option<Installation>)
    decreases |events|
  {
    events == [] ||
    (!RetiresActive(events[0].command, row) && NoActiveRetired(p, events[1..], Next(p, events[0], row)))
  }

  ghost predicate SoundThroughout(p: Pricing, since: nat, events: seq<Event>, row: Option<Installation>)
    decreases |events|
  {
    SoundRow(p, since, row) &&
    (events == [] || SoundThroughout(p, events[0].now, events[1..], Next(p, events[0], row)))
  }

  // Whatever commands are carried out one after the other, with whatever answers from the world: the
  // row is sound all the time exactly when no active installation is retired.
  lemma {:induction false} SoundThroughoutIff(p: Pricing, since: nat, events: seq<Event>, row: Option<Installation>)
    requires SoundRow(p, since, row) && Clocked(since, events)
    ensures SoundThroughout(p, since, events, row) <==> NoActiveRetired(p, events, row)
    ensures NoActiveRetired(p, events, row) ==> SoundRow(p, End(since, events), Run(p, events, row))
    decreases |events|
  {
    if events != [] {
      var e := events[0];
      StepSoundIff(p, e.world, since, e.now, e.command, row);
      assert RetiresActive(e.command, row) ==> Exec(p, e.world, e.now, e.command, row).Ok?;
      if !RetiresActive(e.command, row) {
        SoundThroughoutIff(p, e.now, events[1..], Next(p, e, row));
      }
    }
  }

  // What the sound row of an installation promises.
  lemma LifecycleSafety(p: Pricing, events: seq<Event>)
    requires Clocked(0, events) && NoActiveRetired(p, events, None)
    requires Run(p, events, None).Some?
    ensures var i := Run(p, events, None).value;
      && (i.enabled <==> i.state == Active)
      && (i.state == Active ==>
            && i.requestedAt.Some? && i.approvedAt.Some? && i.installedAt.Some?
            && i.requestedAt.value <= i.approvedAt.value <= i.installedAt.value
            && (p != Free ==> i.billing == BillingActive)
            && (Paid(p) ==> i.paymentSubmittedAt.Some?))
      && (i.state == Uninstalled ==> !i.enabled && i.uninstalledAt.Some? && i.purgeAfter.Some?)
      && i.state == DerivedState(i)
  {
    SoundThroughoutIff(p, 0, events, None);
  }

  // ---------------------------------------------------------------- repeating a command

  // The command of a queued job; a purge of what is already gone counts as done.
  function JobEffect(
      p: Pricing, c: Command, w: World, now: nat, row: Option<Installation>): Option<Option<Installation>> {
    match Exec(p, w, now, c, row)
    case Ok(next) => Some(next)
    case Err(e) => if c == Purge && e == NotFound then Some(row) else None
  }

  predicate IsJob(c: Command) {
    c.Install? || c.Upgrade? || c.Rollback? || c.Activate? || c.Deactivate? || c.Uninstall? || c.Purge?
  }

  // Every job command repeats to the same row, or is refused: except a rollback without a target
  // captured at submission.
  lemma RepeatIsSame(p: Pricing, c: Command, w: World, now: nat, row: Option<Installation>, again: World, later: nat)
    requires IsJob(c) && (c.Rollback? ==> c.target.Some?)
    requires JobEffect(p, c, w, now, row).Some?
    ensures var done := JobEffect(p, c, w, now, row).value;
      JobEffect(p, c, again, later, done) in {None, Some(done)}
  {
  }

  // Without a captured target a rollback repeats to the same row exactly when it rolls back to the
  // version already installed; otherwise the repetition rolls forward again.
  lemma UntargetedRollbackRepeatsIff(p: Pricing, w: World, now: nat, i: Installation)
    requires JobEffect(p, Rollback(None), w, now, Some(i)).Some?
    ensures var done := JobEffect(p, Rollback(None), w, now, Some(i)).value;
      JobEffect(p, Rollback(None), w, now, done) == Some(done) <==> i.rollbackVersion == Some(i.version)
  {
  }
}
