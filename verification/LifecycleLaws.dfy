// What each lifecycle command leaves in the columns of its installation, and exactly when it is refused;
// and where the commands, one after the other, take an installation.
module LifecycleLaws {
  import opened Results
  import opened Lifecycle

  function Done(
      p: Pricing, w: World, now: nat, c: Command, i: Installation): Result<Option<Installation>, Failure> {
    Exec(p, w, now, c, Some(i))
  }

  // Every command but the three requests needs an installation.
  lemma NeedsInstallation(p: Pricing, w: World, now: nat, c: Command)
    requires c !in {Request, RequestPaid, InitiatePayment}
    ensures Exec(p, w, now, c, None) == Err(NotFound)
  {
  }

  // ---------------------------------------------------------------- requests and payment

  // A request is for a listed extension that is not sold, by a known administrator, and not while the
  // installation is enabled.
  lemma RequestLaw(p: Pricing, w: World, now: nat, row: Option<Installation>)
    ensures var r := Exec(p, w, now, Request, row);
      && (p in {OneTime, Subscription} || !w.listed || !w.identified ==> r == Err(NotFound))
      && (p in {Free, PrivateContract} && w.listed && w.identified ==>
            if row.Some? && row.value.enabled then r == Err(Conflict)
            else
              && r.Ok? && r.value.Some?
              && var after := r.value.value;
                && after.state == Requested && !after.enabled
                && after.billing == (if p == Free then BillingActive else BillingPending)
                && after.requestedAt == Some(now) && after.approvedAt == None && after.installedAt == None
                && after.uninstalledAt == None && after.purgeAfter == None
                && after.version == (if row.Some? then row.value.version else w.publishedVersion)
                && after.rollbackVersion == (if row.Some? then row.value.rollbackVersion else None)
                && after.paymentSubmittedAt == (if row.Some? then row.value.paymentSubmittedAt else None)
                && after.invoice == (row.Some? && row.value.invoice))
  {
  }

  // A paid request comes with its evidence, an initiated one without, and both with the newest version.
  lemma PaidRequestLaw(p: Pricing, w: World, now: nat, c: Command, row: Option<Installation>)
    requires c in {RequestPaid, InitiatePayment}
    ensures var r := Exec(p, w, now, c, row);
      && (p in {Free, PrivateContract} || !w.listed || !w.identified ==> r == Err(NotFound))
      && (p in {OneTime, Subscription} && w.listed && w.identified ==>
            if row.Some? && row.value.enabled then r == Err(Conflict)
            else r == Ok(Some(Installation(
              if c == RequestPaid then PaymentReview else Requested, false, w.publishedVersion,
              if row.Some? then row.value.rollbackVersion else None, BillingPending, Some(now), None, None, None, None,
              if c == RequestPaid then Some(now) else None, true))))
  {
  }

  lemma EvidenceLaw(p: Pricing, w: World, now: nat, i: Installation)
    ensures Done(p, w, now, FinalizePayment, i) ==
      if !i.invoice then Err(NotFound)
      else if i.paymentSubmittedAt.Some? then Ok(Some(i))
      else if !w.evidenceMatches then Err(Conflict)
      else Ok(Some(i.(paymentSubmittedAt := Some(now), state := PaymentReview)))
    ensures Done(p, w, now, PurgeEvidence, i) == Ok(Some(i.(invoice := false)))
  {
  }

  // ---------------------------------------------------------------- approval and billing

  // Approval takes a request or a reviewed payment, active billing where the extension is not free, and
  // evidence where it is sold; it writes the state and the date alone.
  lemma ApproveLaw(p: Pricing, w: World, now: nat, i: Installation)
    ensures var r := Done(p, w, now, Approve, i);
      && (r.Ok? <==>
            && i.requestedAt.Some?
            && (i.state == Approved ||
                (&& i.state in {Requested, PaymentReview}
                 && (p != Free ==> i.billing == BillingActive)
                 && (p in {OneTime, Subscription} ==> i.paymentSubmittedAt.Some?))))
      && (r.Ok? ==> r.value == Some(if i.state == Approved then i else i.(state := Approved, approvedAt := Some(now))))
      && (r.Err? ==> r.error == Conflict)
  {
  }

  lemma BillingLaw(p: Pricing, w: World, now: nat, i: Installation, billing: Billing)
    ensures Done(p, w, now, SetBilling(billing), i) ==
      if p == Free || (i.state == Active && billing != BillingActive) then Err(Conflict)
      else Ok(Some(i.(billing := billing)))
  {
  }

  // ---------------------------------------------------------------- versions

  // The package of the version asked for may be used: published and allowed, for this platform, with its
  // dependencies met and its signature good.
  predicate Usable(w: World) {
    w.available && w.allowed && w.compatible && w.dependenciesMet && w.signed
  }

  // What an unusable package is refused with.
  lemma UnusableLaw(p: Pricing, w: World, now: nat, i: Installation, version: nat, acknowledge: bool)
    requires !w.available || !w.allowed || !w.compatible || !w.dependenciesMet || !w.signed
    ensures i.state == Approved ==>
      Done(p, w, now, Install(version), i) == Err(if !w.available then NotFound else Conflict)
    ensures i.installedAt.Some? && i.version != version ==>
      Done(p, w, now, Upgrade(version, acknowledge), i) == Err(if !w.available then NotFound else Conflict)
  {
  }

  // An installation that succeeds leaves INSTALLED at the version asked for.
  lemma InstallLaw(p: Pricing, w: World, now: nat, i: Installation, version: nat)
    ensures var r := Done(p, w, now, Install(version), i);
      && (r.Ok? <==> (i.state == Installed && i.version == version) || (i.state == Approved && Usable(w)))
      && (r.Err? ==> r.error == if i.state == Approved && !w.available then NotFound else Conflict)
      && (r.Ok? ==>
            && r.value.Some? && r.value.value.state == Installed && r.value.value.version == version
            && (i.state == Installed ==> r.value.value == i)
            && (i.state == Approved ==> r.value.value == Installation(Installed, i.enabled, version, i.rollbackVersion,
                  i.billing, i.requestedAt, i.approvedAt, Some(now), None, None, i.paymentSubmittedAt, i.invoice)))
  {
  }

  // An upgrade that succeeds leaves the version asked for and the state as it was; where it migrates
  // records it remembers the version before.
  lemma UpgradeLaw(p: Pricing, w: World, now: nat, i: Installation, to: nat, acknowledge: bool)
    ensures var r := Done(p, w, now, Upgrade(to, acknowledge), i);
      && (r.Ok? <==>
            && i.installedAt.Some?
            && (i.version == to ||
                (Usable(w) && (w.permissionsAdded ==> acknowledge) && w.migration != Some(false))))
      && (r.Err? ==> r.error == if i.installedAt.Some? && i.version != to && !w.available then NotFound else Conflict)
      && (r.Ok? ==>
            && r.value.Some? && r.value.value.version == to
            && (i.version == to ==> r.value.value == i)
            && (i.version != to ==> r.value.value == Installation(i.state, i.enabled, to,
                  if w.migration == Some(true) then Some(i.version) else i.rollbackVersion, i.billing, i.requestedAt,
                  i.approvedAt, Some(now), i.uninstalledAt, i.purgeAfter, i.paymentSubmittedAt, i.invoice)))
  {
  }

  // A rollback that succeeds leaves its target, or the remembered version where it has none, remembers
  // the version it left and changes nothing else.
  lemma RollbackLaw(p: Pricing, w: World, now: nat, i: Installation, target: Option<nat>)
    ensures var r := Done(p, w, now, Rollback(target), i);
      && (r.Ok? <==>
            || target == Some(i.version)
            || ((target.Some? || i.rollbackVersion.Some?) && w.available && w.signed && w.undoable))
      && (r.Err? ==>
            r.error == if (target.Some? || i.rollbackVersion.Some?) && !w.available then NotFound else Conflict)
      && (r.Ok? ==>
            && r.value.Some?
            && Some(r.value.value.version) == (if target.Some? then target else i.rollbackVersion)
            && r.value.value == if target == Some(i.version) then i
                 else i.(version := r.value.value.version, rollbackVersion := Some(i.version)))
  {
  }

  // ---------------------------------------------------------------- activation and removal

  // Activation takes an installed, published, allowed package with its dependencies met and a good
  // signature, and active billing where the extension is not free; it leaves the version alone.
  lemma ActivateLaw(p: Pricing, w: World, now: nat, i: Installation)
    ensures var r := Done(p, w, now, Activate, i);
      && (r.Ok? <==>
            && w.allowed
            && (i.state == Active ||
                (&& i.state == Installed && w.available && w.dependenciesMet && w.signed
                 && (p != Free ==> i.billing == BillingActive))))
      && (r.Err? ==> r.error == Conflict)
      && (r.Ok? ==> r.value == Some(if i.state == Active then i else i.(state := Active, enabled := true)))
  {
  }

  // Deactivation is of an active installation, which stays installed at its version.
  lemma DeactivateLaw(p: Pricing, w: World, now: nat, i: Installation)
    ensures var r := Done(p, w, now, Deactivate, i);
      && (r.Ok? <==> i.state in {Installed, Active})
      && (r.Err? ==> r.error == Conflict)
      && (r.Ok? ==> r.value == Some(if i.state == Installed then i else i.(state := Installed, enabled := false)))
  {
  }

  // Uninstalling is refused while another active extension needs this one; the row stays, at its
  // version, until the grace period is over.
  lemma UninstallLaw(p: Pricing, w: World, now: nat, i: Installation)
    ensures var r := Done(p, w, now, Uninstall, i);
      && (r.Ok? <==> i.state == Uninstalled || (i.state in {Installed, Active} && !w.neededByOthers))
      && (r.Err? ==> r.error == Conflict)
      && (r.Ok? ==> r.value == Some(
            if i.state == Uninstalled then i
            else i.(state := Uninstalled, enabled := false, uninstalledAt := Some(now),
                    purgeAfter := Some(now + w.graceDays * 86_400_000))))
  {
  }

  lemma PurgeLaw(p: Pricing, w: World, now: nat, i: Installation)
    ensures Done(p, w, now, Purge, i) ==
      if i.uninstalledAt.Some? && !i.enabled && !w.evidenceRetained then Ok(None) else Err(Conflict)
  {
  }

  // Blocking, revoking and suspending take enabled installations back to INSTALLED and leave others
  // alone; retiring disables and leaves the state.
  lemma CatalogueLaw(p: Pricing, w: World, now: nat, i: Installation)
    ensures Done(p, w, now, Suspend, i) == Ok(Some(if i.enabled then i.(enabled := false, state := Installed) else i))
    ensures Done(p, w, now, Retire, i) == Ok(Some(i.(enabled := false)))
  {
  }

  // ---------------------------------------------------------------- one after the other

  function Then(p: Pricing, w: World, now: nat, c: Command, r: Result<Option<Installation>, Failure>)
    : Result<Option<Installation>, Failure>
  {
    match r
    case Ok(row) => Exec(p, w, now, c, row)
    case Err(e) => Err(e)
  }

  // The world has no objection.
  predicate Agreeable(w: World) {
    && w.listed && w.identified && Usable(w) && !w.permissionsAdded && w.migration != Some(false) && w.undoable
    && !w.neededByOthers && w.evidenceMatches && !w.evidenceRetained
  }

  // From nothing to an active installation of any version asked for, at any price: payment and billing
  // where the extension is sold, billing where it is under contract.
  lemma CanBecomeActive(p: Pricing, w: World, now: nat, version: nat)
    requires Agreeable(w)
    ensures var asked := Exec(p, w, now, if p in {OneTime, Subscription} then RequestPaid else Request, None);
      var billed := if p == Free then asked else Then(p, w, now, SetBilling(BillingActive), asked);
      var installed := Then(p, w, now, Install(version), Then(p, w, now, Approve, billed));
      var active := Then(p, w, now, Activate, installed);
      && active.Ok? && active.value.Some? && active.value.value.state == Active && active.value.value.enabled
      && active.value.value.version == version
  {
  }

  // Deactivating undoes activating, and the other way round.
  lemma ActivationRoundTrip(p: Pricing, w: World, now: nat, i: Installation)
    requires i.enabled <==> i.state == Active
    ensures i.state == Installed && Done(p, w, now, Activate, i).Ok? ==>
      Then(p, w, now, Deactivate, Done(p, w, now, Activate, i)) == Ok(Some(i))
    ensures i.state == Active && Agreeable(w) && i.billing == BillingActive ==>
      Then(p, w, now, Activate, Done(p, w, now, Deactivate, i)) == Ok(Some(i))
  {
  }

  // An upgrade that migrates is taken back by a rollback, with and without a captured target; another
  // rollback goes forward again.
  lemma UpgradeRollback(p: Pricing, w: World, now: nat, i: Installation, to: nat, target: Option<nat>)
    requires i.installedAt.Some? && i.version != to && Agreeable(w) && w.migration == Some(true)
    requires target in {None, Some(i.version)}
    ensures var back := Then(p, w, now, Rollback(target), Done(p, w, now, Upgrade(to, false), i));
      && back.Ok? && back.value.Some? && back.value.value.version == i.version
      && back.value.value.state == i.state && back.value.value.rollbackVersion == Some(to)
      && var again := Then(p, w, now, Rollback(None), back);
        again.Ok? && again.value.Some? && again.value.value.version == to
  {
  }

  // An installation comes back after it was uninstalled: asked for, approved and installed again.
  lemma CanComeBack(p: Pricing, w: World, now: nat, i: Installation, version: nat)
    requires i.state in {Installed, Active} && p == Free && Agreeable(w)
    ensures var gone := Done(p, w, now, Uninstall, i);
      var approved := Then(p, w, now, Approve, Then(p, w, now, Request, gone));
      var back := Then(p, w, now, Install(version), approved);
      && back.Ok? && back.value.Some? && back.value.value.state == Installed && back.value.value.version == version
      && back.value.value.uninstalledAt == None && back.value.value.purgeAfter == None
      && Then(p, w, now, Purge, gone) == Ok(None) && Then(p, w, now, Purge, back) == Err(Conflict)
  {
  }

  // ---------------------------------------------------------------- as jobs

  // A job's command has the effect of the command; purging what is already gone counts as done.
  lemma JobLaw(p: Pricing, c: Command, w: World, now: nat, row: Option<Installation>)
    ensures JobEffect(p, c, w, now, row) ==
      if c == Purge && row == None then Some(None)
      else if Exec(p, w, now, c, row).Ok? then Some(Exec(p, w, now, c, row).value)
      else None
    ensures !IsJob(c) <==>
      || c in {Request, RequestPaid, InitiatePayment, FinalizePayment, PurgeEvidence, Approve, Suspend, Retire}
      || c.SetBilling?
  {
    if c == Purge && row.Some? { PurgeLaw(p, w, now, row.value); }
  }
}
