// Lifecycle commands as the service carries them out: each reads the row first and writes some of its
// columns later, and nothing keeps other commands from writing in between.
module LifecycleRaces {
  import opened Results
  import opened Lifecycle

  // ---------------------------------------------------------------- the write of a stale read

  // Commands that are a single statement read nothing beforehand.
  predicate IsStatement(c: Command) {
    c.Suspend? || c.Retire? || c.PurgeEvidence?
  }

  // Nothing is written when the row that was read is already where the command leads.
  predicate ReturnsEarly(c: Command, seen: Installation) {
    match c
    case FinalizePayment => seen.paymentSubmittedAt.Some?
    case Approve => seen.state == Approved
    case Install(version) => seen.state == Installed && seen.version == version
    case Upgrade(to, _) => seen.version == to
    case Rollback(target) => target == Some(seen.version)
    case Activate => seen.state == Active
    case Deactivate => seen.state == Installed
    case Uninstall => seen.state == Uninstalled
    case _ => false
  }

  // The row as it is when the write comes, with the columns that the command writes as it computed
  // them from the row it read. The rollback version is in the configuration, which some rewrite whole.
  function Written(c: Command, done: Installation, cur: Installation): Installation {
    match c
    case Request => cur.(state := done.state, enabled := done.enabled, billing := done.billing,
                         requestedAt := done.requestedAt, approvedAt := done.approvedAt,
                         installedAt := done.installedAt, uninstalledAt := done.uninstalledAt,
                         purgeAfter := done.purgeAfter)
    case RequestPaid => done.(rollbackVersion := cur.rollbackVersion)
    case InitiatePayment => done.(rollbackVersion := cur.rollbackVersion)
    case FinalizePayment => cur.(paymentSubmittedAt := done.paymentSubmittedAt, state := done.state)
    case PurgeEvidence => cur.(invoice := done.invoice)
    case Approve => cur.(approvedAt := done.approvedAt, state := done.state)
    case SetBilling(_) => cur.(billing := done.billing)
    case Install(_) => cur.(version := done.version, installedAt := done.installedAt, state := done.state,
                            uninstalledAt := done.uninstalledAt, purgeAfter := done.purgeAfter)
    case Upgrade(_, _) =>
      cur.(version := done.version, installedAt := done.installedAt, rollbackVersion := done.rollbackVersion)
    case Rollback(_) => cur.(version := done.version, rollbackVersion := done.rollbackVersion)
    case Activate => cur.(enabled := done.enabled, state := done.state, rollbackVersion := done.rollbackVersion)
    case Deactivate => cur.(enabled := done.enabled, state := done.state, rollbackVersion := done.rollbackVersion)
    case Uninstall => cur.(enabled := done.enabled, uninstalledAt := done.uninstalledAt, purgeAfter := done.purgeAfter,
                           state := done.state)
    case _ => done
  }

  // What a command that read one row leaves of the row it finds later: a new row only where there is
  // still none, a change or a removal only of a row that is still there.
  function Landed(p: Pricing, w: World, now: nat, c: Command, seen: Option<Installation>, cur: Option<Installation>)
    : Result<Option<Installation>, Failure>
  {
    match Exec(p, w, now, c, seen)
    case Err(e) => Err(e)
    case Ok(done) =>
      if seen.None? then (if cur.None? then Ok(done) else Err(Conflict))
      else if ReturnsEarly(c, seen.value) then Ok(cur)
      else if cur.None? then Err(NotFound)
      else if done.None? then Ok(None)
      else Ok(Some(Written(c, done.value, cur.value)))
  }

  // With nothing in between it is the command carried out at once.
  lemma LandsFresh(p: Pricing, w: World, now: nat, c: Command, row: Option<Installation>)
    ensures Landed(p, w, now, c, row, row) == Exec(p, w, now, c, row)
  {
  }

  predicate Asks(c: Command) {
    c in {Request, RequestPaid, InitiatePayment}
  }

  // Column by column: which commands write it as they computed it. All others leave it as it is by then.
  lemma WrittenColumns(c: Command, done: Installation, cur: Installation)
    requires !IsStatement(c) && c != Purge
    ensures var after := Written(c, done, cur);
      && after.state == (if c.SetBilling? || c.Upgrade? || c.Rollback? then cur.state else done.state)
      && after.enabled == (if Asks(c) || c in {Activate, Deactivate, Uninstall} then done.enabled else cur.enabled)
      && after.version == (if c in {RequestPaid, InitiatePayment} || c.Install? || c.Upgrade? || c.Rollback?
           then done.version else cur.version)
      && after.rollbackVersion == (if c.Upgrade? || c.Rollback? || c in {Activate, Deactivate}
           then done.rollbackVersion else cur.rollbackVersion)
      && after.billing == (if Asks(c) || c.SetBilling? then done.billing else cur.billing)
      && after.requestedAt == (if Asks(c) then done.requestedAt else cur.requestedAt)
      && after.approvedAt == (if Asks(c) || c == Approve then done.approvedAt else cur.approvedAt)
      && after.installedAt == (if Asks(c) || c.Install? || c.Upgrade? then done.installedAt else cur.installedAt)
      && after.uninstalledAt ==
           (if Asks(c) || c.Install? || c == Uninstall then done.uninstalledAt else cur.uninstalledAt)
      && after.purgeAfter == (if Asks(c) || c.Install? || c == Uninstall then done.purgeAfter else cur.purgeAfter)
      && after.paymentSubmittedAt == (if c in {RequestPaid, InitiatePayment, FinalizePayment}
           then done.paymentSubmittedAt else cur.paymentSubmittedAt)
      && after.invoice == (if c in {RequestPaid, InitiatePayment} then done.invoice else cur.invoice)
  {
  }

  // A command that read no row makes one only where there still is none. One that read a row fails when
  // it is gone, unless it had nothing to write.
  lemma LandedLaw(
      p: Pricing, w: World, now: nat, c: Command, seen: Option<Installation>, cur: Option<Installation>)
    ensures var (r, done) := (Landed(p, w, now, c, seen, cur), Exec(p, w, now, c, seen));
      && (done.Err? ==> r == done)
      && (done.Ok? && seen == None ==> r == if cur == None then done else Err(Conflict))
      && (done.Ok? && seen.Some? && ReturnsEarly(c, seen.value) ==> r == Ok(cur))
      && (done.Ok? && seen.Some? && !ReturnsEarly(c, seen.value) && cur == None ==> r == Err(NotFound))
      && (done.Ok? && seen.Some? && !ReturnsEarly(c, seen.value) && cur.Some? ==>
            r.Ok? && (r.value == None <==> done.value == None))
  {
  }

  // ---------------------------------------------------------------- when a stale write is sound

  // What the row must be like when the write comes.
  predicate Fits(p: Pricing, c: Command, cur: Installation) {
    match c
    case FinalizePayment => cur.state in {Requested, PaymentReview}
    case Approve => cur.state in {Requested, PaymentReview, Approved} && (Paid(p) ==> cur.paymentSubmittedAt.Some?)
    case SetBilling(billing) => cur.state == Active ==> billing == BillingActive
    case Install(_) => cur.state in {Approved, Installed, Uninstalled}
    case Upgrade(_, _) => cur.state in {Installed, Active, Uninstalled}
    case Activate => cur.state in {Installed, Active} && (p != Free ==> cur.billing == BillingActive)
    case Deactivate => cur.state in {Installed, Active}
    case Uninstall => cur.state in {Installed, Active, Uninstalled}
    case Retire => !cur.enabled
    case _ => true
  }

  // Of a sound row, a write computed from an earlier sound row makes a sound row exactly when the row
  // it finds fits the command.
  lemma StaleWriteSoundIff(
      p: Pricing, w: World, before: nat, now: nat, c: Command, seen: Installation, cur: Installation)
    requires Sound(p, before, seen) && Sound(p, before, cur) && before <= now
    requires !IsStatement(c) && !ReturnsEarly(c, seen) && Exec(p, w, now, c, Some(seen)).Ok?
    requires Exec(p, w, now, c, Some(seen)).value.Some?
    ensures Sound(p, now, Written(c, Exec(p, w, now, c, Some(seen)).value.value, cur)) <==> Fits(p, c, cur)
  {
    match c
    case Request =>
    case RequestPaid =>
    case InitiatePayment =>
    case FinalizePayment =>
    case Approve =>
    case SetBilling(_) =>
    case Install(_) =>
    case Upgrade(_, _) =>
    case Activate =>
    case Deactivate =>
    case Uninstall =>
    case _ =>
  }

  // ---------------------------------------------------------------- interleaved commands

  // A command at work: the row it read, and which row that was; a row made anew is another one.
  datatype Handler = Handler(command: Command, seen: Option<Installation>, generation: nat)

  datatype System = System(now: nat, row: Option<Installation>, generation: nat, handlers: map<nat, Handler>)

  datatype Moment =
    | Read(handler: nat, command: Command)
    | Write(handler: nat, world: World)
    | Statement(command: Command)
    | Wait(elapsed: nat)

  function Begin(): System {
    System(0, None, 0, map[])
  }

  function WithRow(sys: System, row: Option<Installation>): System {
    sys.(row := row, generation := if sys.row.None? && row.Some? then sys.generation + 1 else sys.generation)
  }

  // The row that the write of a handler finds: none, if the one it read has been removed.
  function Found(sys: System, h: Handler): Option<Installation> {
    if h.seen.Some? && h.generation != sys.generation then None else sys.row
  }

  function Outcome(p: Pricing, sys: System, h: Handler, w: World): Result<Option<Installation>, Failure> {
    Landed(p, w, sys.now, h.command, h.seen, Found(sys, h))
  }

  function Step(p: Pricing, sys: System, m: Moment): System {
    match m
    case Read(h, c) =>
      if IsStatement(c) then sys else sys.(handlers := sys.handlers[h := Handler(c, sys.row, sys.generation)])
    case Write(h, w) =>
      if h !in sys.handlers then sys
      else
        var rest := sys.(handlers := sys.handlers - {h});
        (match Outcome(p, sys, sys.handlers[h], w)
         case Err(_) => rest
         case Ok(row) => if Found(sys, sys.handlers[h]) == sys.row then WithRow(rest, row) else rest)
    case Statement(c) =>
      if !IsStatement(c) || sys.row.None? then sys
      else
        (match ExecOn(p, AnyWorld(), sys.now, c, sys.row.value)
         case Err(_) => sys
         case Ok(row) => WithRow(sys, row))
    case Wait(elapsed) => sys.(now := sys.now + elapsed)
  }

  // Statements consult nothing.
  function AnyWorld(): World {
    World(true, 0, true, true, true, true, true, true, false, None, true, false, true, false, 30)
  }

  function Run(p: Pricing, sys: System, ms: seq<Moment>): System
    decreases |ms|
  {
    if ms == [] then sys else Run(p, Step(p, sys, ms[0]), ms[1..])
  }

  // A read keeps the row for later, and which row it is, and nothing else changes.
  lemma ReadLaw(p: Pricing, sys: System, h: nat, c: Command)
    requires !IsStatement(c)
    ensures Step(p, sys, Read(h, c)) ==
      System(sys.now, sys.row, sys.generation, sys.handlers[h := Handler(c, sys.row, sys.generation)])
  {
  }

  // A write is over with its handler. One whose row was removed since changes nothing, even if another
  // row has taken its place.
  lemma RemovedIsLost(p: Pricing, sys: System, h: nat, w: World)
    requires h in sys.handlers
    ensures Step(p, sys, Write(h, w)).handlers == sys.handlers - {h} && Step(p, sys, Write(h, w)).now == sys.now
    ensures sys.handlers[h].seen.Some? && sys.handlers[h].generation != sys.generation ==>
      Step(p, sys, Write(h, w)).row == sys.row && Step(p, sys, Write(h, w)).generation == sys.generation
  {
  }

  // A new row is another row; a changed one is the same.
  lemma GenerationLaw(p: Pricing, sys: System, m: Moment)
    ensures Step(p, sys, m).generation ==
      sys.generation + (if sys.row == None && Step(p, sys, m).row.Some? then 1 else 0)
  {
  }

  lemma WaitingLaw(p: Pricing, sys: System, elapsed: nat)
    ensures Step(p, sys, Wait(elapsed)) == System(sys.now + elapsed, sys.row, sys.generation, sys.handlers)
  {
  }

  // A statement is carried out on the row there is.
  lemma StatementLaw(p: Pricing, sys: System, c: Command, w: World)
    requires IsStatement(c) && sys.row.Some?
    ensures Exec(p, w, sys.now, c, sys.row).Ok?
    ensures Step(p, sys, Statement(c)) ==
      System(sys.now, Exec(p, w, sys.now, c, sys.row).value, sys.generation, sys.handlers)
  {
  }

  // ---------------------------------------------------------------- soundness, exactly

  // Whether the moment changes the row by a write that the row fits, if it changes it at all.
  predicate FitsNow(p: Pricing, sys: System, m: Moment) {
    match m
    case Write(h, w) =>
      h in sys.handlers && Changes(p, sys, sys.handlers[h], w) && sys.row.Some? ==>
        Fits(p, sys.handlers[h].command, sys.row.value)
    case Statement(c) => IsStatement(c) && sys.row.Some? ==> Fits(p, c, sys.row.value)
    case _ => true
  }

  // A write that goes through, and is neither nothing nor a removal.
  predicate Changes(p: Pricing, sys: System, h: Handler, w: World) {
    && Outcome(p, sys, h, w).Ok? && Outcome(p, sys, h, w).value.Some?
    && (h.seen.Some? ==> !ReturnsEarly(h.command, h.seen.value))
  }

  ghost predicate SoundSystem(p: Pricing, sys: System) {
    && SoundRow(p, sys.now, sys.row)
    && (forall h :: h in sys.handlers ==>
      SoundRow(p, sys.now, sys.handlers[h].seen) && !IsStatement(sys.handlers[h].command))
  }

  lemma SoundLater(p: Pricing, now: nat, later: nat, row: Option<Installation>)
    requires SoundRow(p, now, row) && now <= later
    ensures SoundRow(p, later, row)
  {
  }

  lemma WriteSoundIff(p: Pricing, sys: System, id: nat, w: World)
    requires SoundSystem(p, sys) && id in sys.handlers
    ensures SoundRow(p, sys.now, Step(p, sys, Write(id, w)).row) <==> FitsNow(p, sys, Write(id, w))
  {
    var h := sys.handlers[id];
    var done := Exec(p, w, sys.now, h.command, h.seen);
    if done.Ok? && h.seen.None? {
      StepSoundIff(p, w, sys.now, sys.now, h.command, None);
    } else if Changes(p, sys, h, w) {
      assert Found(sys, h) == sys.row && sys.row.Some?;
      StaleWriteSoundIff(p, w, sys.now, sys.now, h.command, h.seen.value, sys.row.value);
    }
  }

  lemma StatementSoundIff(p: Pricing, sys: System, c: Command)
    requires SoundSystem(p, sys)
    ensures SoundRow(p, sys.now, Step(p, sys, Statement(c)).row) <==> FitsNow(p, sys, Statement(c))
  {
    if IsStatement(c) && sys.row.Some? {
      StepSoundIff(p, AnyWorld(), sys.now, sys.now, c, sys.row);
    }
  }

  lemma MomentSoundIff(p: Pricing, sys: System, m: Moment)
    requires SoundSystem(p, sys)
    ensures SoundSystem(p, Step(p, sys, m)) <==> FitsNow(p, sys, m)
  {
    var next := Step(p, sys, m);
    match m
    case Write(id, w) => if id in sys.handlers { WriteSoundIff(p, sys, id, w); }
    case Statement(c) => StatementSoundIff(p, sys, c);
    case Read(_, _) =>
    case Wait(_) =>
      SoundLater(p, sys.now, next.now, sys.row);
      forall h | h in next.handlers ensures SoundRow(p, next.now, next.handlers[h].seen) {
        SoundLater(p, sys.now, next.now, sys.handlers[h].seen);
      }
  }

  predicate AllFit(p: Pricing, sys: System, ms: seq<Moment>)
    decreases |ms|
  {
    ms == [] || (FitsNow(p, sys, ms[0]) && AllFit(p, Step(p, sys, ms[0]), ms[1..]))
  }

  ghost predicate StaysSound(p: Pricing, sys: System, ms: seq<Moment>)
    decreases |ms|
  {
    SoundRow(p, sys.now, sys.row) && (ms == [] || StaysSound(p, Step(p, sys, ms[0]), ms[1..]))
  }

  // However commands interleave: the row is sound all the time exactly when every write finds a row
  // that fits its command.
  lemma {:induction false} StaysSoundIff(p: Pricing, sys: System, ms: seq<Moment>)
    requires SoundSystem(p, sys)
    ensures StaysSound(p, sys, ms) <==> AllFit(p, sys, ms)
    decreases |ms|
  {
    if ms != [] {
      MomentSoundIff(p, sys, ms[0]);
      if FitsNow(p, sys, ms[0]) {
        StaysSoundIff(p, Step(p, sys, ms[0]), ms[1..]);
      } else {
        BreaksNow(p, sys, ms[0]);
      }
    }
  }

  lemma BreaksNow(p: Pricing, sys: System, m: Moment)
    requires SoundSystem(p, sys) && !FitsNow(p, sys, m)
    ensures !SoundRow(p, Step(p, sys, m).now, Step(p, sys, m).row)
  {
    match m
    case Write(id, w) => WriteSoundIff(p, sys, id, w);
    case Statement(c) => StatementSoundIff(p, sys, c);
  }

  // A write that finds the row as it was read fits, and so does every statement but the retirement of
  // an active installation.
  lemma FreshWriteFits(p: Pricing, sys: System, id: nat, w: World)
    requires SoundSystem(p, sys) && id in sys.handlers && sys.handlers[id].seen == sys.row
    ensures FitsNow(p, sys, Write(id, w))
  {
    var h := sys.handlers[id];
    if Changes(p, sys, h, w) && sys.row.Some? {
      StepSoundIff(p, w, sys.now, sys.now, h.command, sys.row);
      LandsFresh(p, w, sys.now, h.command, sys.row);
      WriteSoundIff(p, sys, id, w);
    }
  }

  // ---------------------------------------------------------------- what every interleaving keeps

  // Columns that are only ever written together agree, whatever was read before.
  ghost predicate Durable(p: Pricing, now: nat, i: Installation) {
    && i.requestedAt.Some? && i.requestedAt.value <= now
    && (i.approvedAt.Some? ==> i.requestedAt.value <= i.approvedAt.value <= now)
    && (i.installedAt.Some? ==> i.requestedAt.value <= i.installedAt.value <= now)
    && (i.uninstalledAt.Some? <==> i.purgeAfter.Some?)
    && (i.uninstalledAt.Some? ==> i.purgeAfter.value >= i.uninstalledAt.value)
    && (i.enabled ==> i.state in {Approved, PaymentReview, Installed, Active})
    && (i.state == PaymentReview ==> i.paymentSubmittedAt.Some?)
    && (i.state == Approved ==> i.approvedAt.Some?)
    && (i.state == Uninstalled ==> i.uninstalledAt.Some?)
    && (!Paid(p) ==> !i.invoice && i.paymentSubmittedAt == None)
  }

  ghost predicate DurableRow(p: Pricing, now: nat, row: Option<Installation>) {
    row.Some? ==> Durable(p, now, row.value)
  }

  ghost predicate DurableSystem(p: Pricing, sys: System) {
    && DurableRow(p, sys.now, sys.row)
    && (forall h :: h in sys.handlers ==>
      DurableRow(p, sys.now, sys.handlers[h].seen) && !IsStatement(sys.handlers[h].command))
  }

  lemma WrittenDurable(p: Pricing, w: World, now: nat, c: Command, seen: Installation, cur: Installation)
    requires Durable(p, now, seen) && Durable(p, now, cur) && !IsStatement(c) && !ReturnsEarly(c, seen)
    requires Exec(p, w, now, c, Some(seen)).Ok? && Exec(p, w, now, c, Some(seen)).value.Some?
    ensures var after := Written(c, Exec(p, w, now, c, Some(seen)).value.value, cur);
      && Durable(p, now, after)
      && ((cur.state == Active ==> cur.enabled) && after.state == Active ==> after.enabled)
  {
    match c
    case Request =>
    case RequestPaid =>
    case InitiatePayment =>
    case FinalizePayment =>
    case Approve =>
    case SetBilling(_) =>
    case Install(_) =>
    case Upgrade(_, _) =>
    case Activate =>
    case Deactivate =>
    case Uninstall =>
    case _ =>
  }

  predicate ActiveEnabled(row: Option<Installation>) {
    row.Some? && row.value.state == Active ==> row.value.enabled
  }

  lemma InsertDurable(p: Pricing, w: World, now: nat, c: Command)
    requires Exec(p, w, now, c, None).Ok?
    ensures DurableRow(p, now, Exec(p, w, now, c, None).value) && ActiveEnabled(Exec(p, w, now, c, None).value)
  {
  }

  lemma OutcomeDurable(p: Pricing, sys: System, h: Handler, w: World)
    requires DurableRow(p, sys.now, sys.row) && DurableRow(p, sys.now, h.seen) && !IsStatement(h.command)
    requires Outcome(p, sys, h, w).Ok?
    ensures DurableRow(p, sys.now, Outcome(p, sys, h, w).value)
    ensures ActiveEnabled(sys.row) ==> ActiveEnabled(Outcome(p, sys, h, w).value)
  {
    if h.seen.None? {
      InsertDurable(p, w, sys.now, h.command);
    } else if Changes(p, sys, h, w) {
      WrittenDurable(p, w, sys.now, h.command, h.seen.value, Found(sys, h).value);
    }
  }

  lemma StatementDurable(p: Pricing, sys: System, c: Command)
    requires DurableRow(p, sys.now, sys.row)
    ensures DurableRow(p, sys.now, Step(p, sys, Statement(c)).row)
    ensures ActiveEnabled(sys.row) && c != Retire ==> ActiveEnabled(Step(p, sys, Statement(c)).row)
  {
  }

  lemma MomentDurable(p: Pricing, sys: System, m: Moment)
    requires DurableSystem(p, sys)
    ensures DurableSystem(p, Step(p, sys, m))
    ensures ActiveEnabled(sys.row) && m != Statement(Retire) ==> ActiveEnabled(Step(p, sys, m).row)
  {
    match m
    case Write(id, w) =>
      if id in sys.handlers && Outcome(p, sys, sys.handlers[id], w).Ok? { OutcomeDurable(p, sys, sys.handlers[id], w); }
    case Statement(c) => StatementDurable(p, sys, c);
    case Read(_, _) =>
    case Wait(_) =>
  }

  lemma {:induction false} RunDurable(p: Pricing, sys: System, ms: seq<Moment>)
    requires DurableSystem(p, sys)
    ensures DurableSystem(p, Run(p, sys, ms))
    ensures ActiveEnabled(sys.row) && Statement(Retire) !in ms ==> ActiveEnabled(Run(p, sys, ms).row)
    decreases |ms|
  {
    if ms != [] {
      MomentDurable(p, sys, ms[0]);
      RunDurable(p, Step(p, sys, ms[0]), ms[1..]);
    }
  }

  // However commands interleave: an uninstalled installation is disabled and has its purge date, an
  // approved one was approved after its last request, payment review has its evidence, and, unless a
  // core module is retired, an ACTIVE one is enabled.
  lemma SurvivesInterleaving(p: Pricing, ms: seq<Moment>)
    requires Run(p, Begin(), ms).row.Some?
    ensures var i := Run(p, Begin(), ms).row.value;
      && (i.state == Uninstalled ==> !i.enabled && i.uninstalledAt.Some? && i.purgeAfter.Some?)
      && (i.state == Approved ==>
        i.requestedAt.Some? && i.approvedAt.Some? && i.requestedAt.value <= i.approvedAt.value)
      && (i.state == PaymentReview ==> i.paymentSubmittedAt.Some?)
      && (i.uninstalledAt.Some? <==> i.purgeAfter.Some?)
      && (Statement(Retire) !in ms ==> i.state == Active ==> i.enabled)
  {
    RunDurable(p, Begin(), ms);
  }

  // ---------------------------------------------------------------- what some interleavings break

  ghost predicate Reachable(p: Pricing, sys: System) {
    exists ms: seq<Moment> :: Run(p, Begin(), ms) == sys
  }

  lemma {:induction false} RunSnoc(p: Pricing, sys: System, ms: seq<Moment>, m: Moment)
    ensures Run(p, sys, ms + [m]) == Step(p, Run(p, sys, ms), m)
    decreases |ms|
  {
    if ms == [] {
      assert (ms + [m])[1..] == [];
      assert Run(p, Step(p, sys, m), []) == Step(p, sys, m);
    } else {
      assert (ms + [m])[1..] == ms[1..] + [m];
      RunSnoc(p, Step(p, sys, ms[0]), ms[1..], m);
    }
  }

  lemma Onwards(p: Pricing, sys: System, m: Moment) returns (next: System)
    requires Reachable(p, sys)
    ensures next == Step(p, sys, m) && Reachable(p, next)
  {
    var ms: seq<Moment> :| Run(p, Begin(), ms) == sys;
    RunSnoc(p, Begin(), ms, m);
    next := Step(p, sys, m);
  }

  // A command carried out at once, by a handler that has nothing else to do.
  lemma AtOnce(p: Pricing, sys: System, id: nat, c: Command) returns (next: System)
    requires Reachable(p, sys) && !IsStatement(c) && Exec(p, AnyWorld(), sys.now, c, sys.row).Ok?
    ensures Reachable(p, next) && next.now == sys.now && next.handlers == sys.handlers - {id}
    ensures next.row == Exec(p, AnyWorld(), sys.now, c, sys.row).value
    ensures sys.row.Some? ==> next.generation == sys.generation
  {
    var read := Onwards(p, sys, Read(id, c));
    LandsFresh(p, AnyWorld(), sys.now, c, sys.row);
    next := Onwards(p, read, Write(id, AnyWorld()));
  }

  // A private contract that has been requested, paid for, approved and installed.
  lemma InstalledContract() returns (sys: System)
    ensures Reachable(PrivateContract, sys) && sys.handlers == map[] && sys.now == 0
    ensures sys.row == Some(Installation(Installed, false, 0, None, BillingActive, Some(0), Some(0), Some(0), None,
        None, None, false))
  {
    assert Run(PrivateContract, Begin(), []) == Begin();
    sys := AtOnce(PrivateContract, Begin(), 0, Request);
    sys := AtOnce(PrivateContract, sys, 0, SetBilling(BillingActive));
    sys := AtOnce(PrivateContract, sys, 0, Approve);
    sys := AtOnce(PrivateContract, sys, 0, Install(0));
  }

  // A billing change that read an installation before its activation makes it active and overdue.
  lemma LateBillingBreaks()
    ensures exists sys ::
      && Reachable(PrivateContract, sys) && sys.row.Some?
      && sys.row.value.state == Active && sys.row.value.enabled && sys.row.value.billing == Overdue
  {
    var sys := InstalledContract();
    sys := Onwards(PrivateContract, sys, Read(1, SetBilling(Overdue)));
    sys := AtOnce(PrivateContract, sys, 2, Activate);
    sys := Onwards(PrivateContract, sys, Write(1, AnyWorld()));
  }

  // An activation that read an installation before it was requested again makes it active without an
  // approval.
  lemma LateActivationBreaks()
    ensures exists sys ::
      && Reachable(PrivateContract, sys) && sys.row.Some?
      && sys.row.value.state == Active && sys.row.value.enabled && sys.row.value.approvedAt == None
  {
    var sys := InstalledContract();
    sys := Onwards(PrivateContract, sys, Read(1, Activate));
    sys := AtOnce(PrivateContract, sys, 2, Request);
    sys := Onwards(PrivateContract, sys, Write(1, AnyWorld()));
  }

  // Retiring a core module leaves its active installations ACTIVE and disabled, with no race at all.
  lemma RetirementBreaks()
    ensures exists sys ::
      && Reachable(PrivateContract, sys) && sys.row.Some?
      && sys.row.value.state == Active && !sys.row.value.enabled
  {
    var sys := InstalledContract();
    sys := AtOnce(PrivateContract, sys, 1, Activate);
    sys := Onwards(PrivateContract, sys, Statement(Retire));
  }
}
