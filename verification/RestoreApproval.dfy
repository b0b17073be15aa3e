// The life of a restore request: verification, approval, execution. Every handler first reads the
// request and later writes it, so that handlers may overtake each other.
module RestoreApproval {
  import opened Results

  type Id = nat

  datatype Status =
    | PendingVerification | Verifying | Verified | Rejected | Approved | Executing | Completed | Failed

  datatype Request = Request(status: Status, requestedBy: Option<Id>, verifiedAt: bool, approvedBy: Option<Id>)

  // What happened to the request, oldest first.
  datatype Entry =
    | WasVerified
    | WasRejected
    | WasApproved(approver: Id)
    | WasStarted(executor: Id, approvedBy: Option<Id>)
    | WasCompleted
    | WasFailed

  // A handler at work: the request as it last read or wrote it, and whether it is verifying.
  datatype Handler = Handler(seen: Request, verifying: bool)

  datatype System = System(request: Request, handlers: map<Id, Handler>, history: seq<Entry>)

  datatype Event =
    | Read(handler: Id)
    | BeginVerify(handler: Id)
    | EndVerify(handler: Id, ok: bool)
    | Approve(handler: Id, actor: Id)
    | Submit(handler: Id, actor: Id)
    | EndExecute(handler: Id, ok: bool)

  function Begin(requestedBy: Option<Id>): System {
    System(Request(PendingVerification, requestedBy, false, None), map[], [])
  }

  function Write(sys: System, handler: Id, request: Request, entries: seq<Entry>): System {
    System(request, sys.handlers - {handler}, sys.history + entries)
  }

  function Verification(sys: System, ev: Event): System
    requires ev.BeginVerify? || ev.EndVerify?
    requires ev.handler in sys.handlers
  {
    var me := sys.handlers[ev.handler];
    match ev
    case BeginVerify(h) =>
      if me.seen.status in {Verified, Approved, Executing, Completed} then sys
      else
        var now := sys.request.(status := Verifying);
        sys.(request := now, handlers := sys.handlers[h := Handler(now, true)])
    case EndVerify(h, ok) =>
      if !me.verifying then sys
      else if ok then Write(sys, h, sys.request.(status := Verified, verifiedAt := true), [WasVerified])
      else Write(sys, h, sys.request.(status := Rejected), [WasRejected])
  }

  // Platform administrators only: their role and the texts they give are checked before.
  function Step(sys: System, ev: Event): System {
    if ev.Read? then sys.(handlers := sys.handlers[ev.handler := Handler(sys.request, false)])
    else if ev.handler !in sys.handlers then sys
    else
      var seen := sys.handlers[ev.handler].seen;
      var now := sys.request;
      match ev
      case Approve(h, actor) =>
        if seen.status == Verified && seen.requestedBy != Some(actor) && now.status == Verified
        then Write(sys, h, now.(status := Approved, approvedBy := Some(actor)), [WasApproved(actor)])
        else sys
      case Submit(h, actor) =>
        if seen.status == Approved && Some(actor) !in {seen.requestedBy, seen.approvedBy} && now.status == Approved
        then Write(sys, h, now.(status := Executing), [WasStarted(actor, now.approvedBy)])
        else sys
      case EndExecute(h, ok) =>
        if seen.status != Executing || seen.approvedBy.None? || !seen.verifiedAt then sys
        else if ok then Write(sys, h, now.(status := Completed), [WasCompleted])
        else if now.status == Executing then Write(sys, h, now.(status := Failed), [WasFailed])
        else sys
      case _ => Verification(sys, ev)
  }

  function Run(sys: System, evs: seq<Event>): System
    decreases |evs|
  {
    if evs == [] then sys else Run(Step(sys, evs[0]), evs[1..])
  }

  // ---------------------------------------------------------------- whatever overtakes what

  // Nobody approves or executes a request of their own, and no approval starts two executions.
  ghost predicate Separated(requester: Option<Id>, history: seq<Entry>) {
    && (forall k {:trigger history[k]} :: 0 <= k < |history| ==>
          match history[k]
          case WasApproved(a) => Some(a) != requester
          case WasStarted(x, _) => Some(x) != requester
          case _ => true)
    && (forall i, j {:trigger history[i].WasStarted?, history[j].WasStarted?} ::
          0 <= i < j < |history| && history[i].WasStarted? && history[j].WasStarted? ==> ApprovedWithin(history, i, j))
  }

  predicate ApprovedWithin(history: seq<Entry>, i: int, j: int)
    requires 0 <= i < j <= |history|
  {
    exists k :: i < k < j && history[k].WasApproved?
  }

  predicate StartedIn(history: seq<Entry>) {
    exists k :: 0 <= k < |history| && history[k].WasStarted?
  }

  ghost predicate Guarded(requester: Option<Id>, sys: System) {
    && sys.request.requestedBy == requester
    && (forall h :: h in sys.handlers ==> sys.handlers[h].seen.requestedBy == requester)
    && Separated(requester, sys.history)
    && (sys.request.status == Approved ==>
          forall i :: 0 <= i < |sys.history| && sys.history[i].WasStarted? ==>
            ApprovedWithin(sys.history, i, |sys.history|))
    && (forall h :: h in sys.handlers && sys.handlers[h].seen.status == Executing ==> StartedIn(sys.history))
    && (sys.request.status == Executing ==> StartedIn(sys.history))
    && (WasCompleted in sys.history ==> StartedIn(sys.history))
  }

  lemma Grows(history: seq<Entry>, e: Entry)
    ensures StartedIn(history) ==> StartedIn(history + [e])
    ensures e.WasStarted? ==> StartedIn(history + [e])
    ensures forall i, j :: 0 <= i < j <= |history| && ApprovedWithin(history, i, j) ==>
      ApprovedWithin(history + [e], i, j)
    ensures forall i :: 0 <= i < |history| && (e.WasApproved? || ApprovedWithin(history, i, |history|)) ==>
      ApprovedWithin(history + [e], i, |history + [e]|)
  {
    var longer := history + [e];
    assert longer[|history|] == e;
    if StartedIn(history) {
      var k :| 0 <= k < |history| && history[k].WasStarted?;
      assert longer[k].WasStarted?;
    }
    forall i, j | 0 <= i < j <= |history| && ApprovedWithin(history, i, j)
      ensures ApprovedWithin(longer, i, j) && ApprovedWithin(longer, i, |longer|) {
      var k :| i < k < j && history[k].WasApproved?;
      assert longer[k].WasApproved?;
    }
  }

  lemma StepGuarded(requester: Option<Id>, sys: System, ev: Event)
    requires Guarded(requester, sys)
    ensures Guarded(requester, Step(sys, ev))
  {
    var next := Step(sys, ev);
    if next.history != sys.history {
      var e := next.history[|sys.history|];
      assert next.history == sys.history + [e];
      Grows(sys.history, e);
    }
  }

  lemma {:induction false} RunGuarded(requester: Option<Id>, sys: System, evs: seq<Event>)
    requires Guarded(requester, sys)
    ensures Guarded(requester, Run(sys, evs))
    decreases |evs|
  {
    if evs != [] {
      StepGuarded(requester, sys, evs[0]);
      RunGuarded(requester, Step(sys, evs[0]), evs[1..]);
    }
  }

  // However the handlers interleave.
  lemma DutiesAreSeparate(requestedBy: Option<Id>, evs: seq<Event>)
    ensures var sys := Run(Begin(requestedBy), evs);
      Separated(requestedBy, sys.history) && (WasCompleted in sys.history ==> StartedIn(sys.history))
  {
    RunGuarded(requestedBy, Begin(requestedBy), evs);
  }

  // ---------------------------------------------------------------- status and history in order

  predicate InExecution(e: Entry) {
    e.WasStarted? || e.WasCompleted?
  }

  // What may come after what: an approval after a verification, a start after an approval by somebody
  // else, an end after a start, and a verification at any time but during an execution or after it.
  predicate Follows(previous: Option<Entry>, e: Entry) {
    match e
    case WasApproved(_) => previous == Some(WasVerified)
    case WasStarted(x, a) =>
      previous.Some? && previous.value.WasApproved? && a == Some(previous.value.approver) && x != a.value
    case WasCompleted => previous.Some? && previous.value.WasStarted?
    case WasFailed => previous.Some? && previous.value.WasStarted?
    case _ => previous.Some? ==> !InExecution(previous.value)
  }

  function Last(history: seq<Entry>): Option<Entry> {
    if history == [] then None else Some(history[|history| - 1])
  }

  ghost predicate Orderly(history: seq<Entry>) {
    forall k {:trigger FollowsAt(history, k)} :: 0 <= k < |history| ==> FollowsAt(history, k)
  }

  predicate FollowsAt(history: seq<Entry>, k: nat)
    requires k < |history|
  {
    Follows(Last(history[..k]), history[k])
  }

  ghost predicate StatusIsLast(sys: System) {
    var last := Last(sys.history);
    match sys.request.status
    case PendingVerification => last == None
    case Verifying => last.Some? ==> !InExecution(last.value)
    case Verified => last == Some(WasVerified)
    case Rejected => last == Some(WasRejected)
    case Approved => last.Some? && last.value.WasApproved? && sys.request.approvedBy == Some(last.value.approver)
    case Executing => last.Some? && last.value.WasStarted?
    case Completed => last == Some(WasCompleted)
    case Failed => last == Some(WasFailed)
  }

  lemma OrderlySnoc(history: seq<Entry>, e: Entry)
    requires Orderly(history) && Follows(Last(history), e)
    ensures Orderly(history + [e])
  {
    var longer := history + [e];
    forall k | 0 <= k < |longer| ensures FollowsAt(longer, k) {
      assert longer[..k] == history[..k];
      if k < |history| {
        assert FollowsAt(history, k);
      } else {
        assert history[..|history|] == history;
      }
    }
  }

  ghost predicate InOrder(sys: System) {
    Orderly(sys.history) && StatusIsLast(sys)
  }

  predicate Starts(sys: System, h: Id, actor: Id) {
    && h in sys.handlers
    && sys.handlers[h].seen.status == Approved && sys.request.status == Approved
    && Some(actor) !in {sys.handlers[h].seen.requestedBy, sys.handlers[h].seen.approvedBy}
  }

  predicate Completes(sys: System, h: Id) {
    h in sys.handlers && sys.handlers[h].seen.status == Executing && sys.handlers[h].seen.approvedBy.Some? &&
      sys.handlers[h].seen.verifiedAt
  }

  // Whether the request is, at the time of the write, what the write takes it for: not in execution
  // for a verification, approved by somebody else for a start, in execution for its completion.
  predicate Fits(sys: System, ev: Event) {
    match ev
    case BeginVerify(h) =>
      h in sys.handlers && sys.handlers[h].seen.status !in {Verified, Approved, Executing, Completed} ==>
        sys.request.status !in {Executing, Completed}
    case EndVerify(h, _) =>
      h in sys.handlers && sys.handlers[h].verifying ==> sys.request.status !in {Executing, Completed}
    case Submit(h, actor) => Starts(sys, h, actor) ==> sys.request.approvedBy != Some(actor)
    case EndExecute(h, ok) => ok && Completes(sys, h) ==> sys.request.status == Executing
    case _ => true
  }

  lemma LastSnoc(history: seq<Entry>, e: Entry)
    ensures Orderly(history + [e]) <==> Orderly(history) && Follows(Last(history), e)
  {
    var longer := history + [e];
    if Orderly(longer) {
      assert FollowsAt(longer, |history|) && longer[..|history|] == history;
      forall k | 0 <= k < |history| ensures FollowsAt(history, k) {
        assert FollowsAt(longer, k) && longer[..k] == history[..k];
      }
    } else if Orderly(history) && Follows(Last(history), e) {
      OrderlySnoc(history, e);
    }
  }

  // A write keeps status and history in order exactly when the request is what it takes it for.
  lemma StepInOrderIff(sys: System, ev: Event)
    requires InOrder(sys)
    ensures InOrder(Step(sys, ev)) <==> Fits(sys, ev)
  {
    var next := Step(sys, ev);
    if next.history != sys.history {
      var e := next.history[|sys.history|];
      assert next.history == sys.history + [e];
      LastSnoc(sys.history, e);
    }
  }

  predicate AllFit(sys: System, evs: seq<Event>)
    decreases |evs|
  {
    evs == [] || (Fits(sys, evs[0]) && AllFit(Step(sys, evs[0]), evs[1..]))
  }

  ghost predicate InOrderThroughout(sys: System, evs: seq<Event>)
    decreases |evs|
  {
    InOrder(sys) && (evs == [] || InOrderThroughout(Step(sys, evs[0]), evs[1..]))
  }

  // However handlers interleave, status and history are in order all the time exactly when every
  // write fits.
  lemma {:induction false} InOrderThroughoutIff(sys: System, evs: seq<Event>)
    requires InOrder(sys)
    ensures InOrderThroughout(sys, evs) <==> AllFit(sys, evs)
    ensures AllFit(sys, evs) ==> InOrder(Run(sys, evs))
    decreases |evs|
  {
    if evs != [] {
      StepInOrderIff(sys, evs[0]);
      if Fits(sys, evs[0]) {
        InOrderThroughoutIff(Step(sys, evs[0]), evs[1..]);
      }
    }
  }

  // A request that was completed was verified, approved and started just before, in that order, by
  // three different people.
  lemma CompletedInOrder(requestedBy: Option<Id>, evs: seq<Event>, k: nat)
    requires AllFit(Begin(requestedBy), evs)
    requires k < |Run(Begin(requestedBy), evs).history| && Run(Begin(requestedBy), evs).history[k] == WasCompleted
    ensures var history := Run(Begin(requestedBy), evs).history;
      && k >= 3
      && history[k - 3] == WasVerified
      && history[k - 2].WasApproved?
      && history[k - 1].WasStarted? && history[k - 1].approvedBy == Some(history[k - 2].approver)
      && Some(history[k - 2].approver) != requestedBy
      && Some(history[k - 1].executor) !in {requestedBy, Some(history[k - 2].approver)}
  {
    var sys := Begin(requestedBy);
    var history := Run(sys, evs).history;
    InOrderThroughoutIff(sys, evs);
    RunGuarded(requestedBy, sys, evs);
    assert FollowsAt(history, k);
    assert FollowsAt(history, k - 1);
    assert FollowsAt(history, k - 2);
  }

  // Nothing happens to a request after its completion.
  lemma CompletedIsLast(requestedBy: Option<Id>, evs: seq<Event>)
    requires AllFit(Begin(requestedBy), evs) && WasCompleted in Run(Begin(requestedBy), evs).history
    ensures Run(Begin(requestedBy), evs).request.status == Completed
  {
    var after := Run(Begin(requestedBy), evs);
    InOrderThroughoutIff(Begin(requestedBy), evs);
    NothingFollowsCompleted(after.history);
    assert Last(after.history) == Some(WasCompleted);
  }

  lemma NothingFollowsCompleted(history: seq<Entry>)
    requires Orderly(history)
    ensures forall k :: 0 <= k < |history| && history[k] == WasCompleted ==> k == |history| - 1
  {
    forall k | 0 <= k < |history| - 1 ensures history[k] != WasCompleted {
      assert Last(history[..k + 1]) == Some(history[k]);
      assert FollowsAt(history, k + 1);
    }
  }

  // ---------------------------------------------------------------- handlers that are not overtaken

  // The request is still as the handler last saw it.
  predicate Fresh(sys: System, ev: Event) {
    !ev.Read? && ev.handler in sys.handlers ==> sys.handlers[ev.handler].seen == sys.request
  }

  predicate AllFresh(sys: System, evs: seq<Event>)
    decreases |evs|
  {
    evs == [] || (Fresh(sys, evs[0]) && AllFresh(Step(sys, evs[0]), evs[1..]))
  }

  ghost predicate VerifyingSeen(sys: System) {
    forall h {:trigger sys.handlers[h]} :: h in sys.handlers && sys.handlers[h].verifying ==>
      sys.handlers[h].seen.status == Verifying
  }

  lemma StepVerifyingSeen(sys: System, ev: Event)
    requires VerifyingSeen(sys)
    ensures VerifyingSeen(Step(sys, ev))
  {
  }

  // The writes of handlers that are not overtaken all fit.
  lemma {:induction false} FreshFits(sys: System, evs: seq<Event>)
    requires VerifyingSeen(sys) && AllFresh(sys, evs)
    ensures AllFit(sys, evs)
    decreases |evs|
  {
    if evs != [] {
      StepVerifyingSeen(sys, evs[0]);
      FreshFits(Step(sys, evs[0]), evs[1..]);
    }
  }

  // ---------------------------------------------------------------- handlers that are overtaken

  // A submission starts an execution by its own approver exactly when an approval that is not that
  // person's was read, and their own is there when the write comes.
  lemma SelfExecutesIff(sys: System, h: Id, x: Id)
    requires h in sys.handlers
    ensures var seen := sys.handlers[h].seen;
      Step(sys, Submit(h, x)).history == sys.history + [WasStarted(x, Some(x))] <==>
        && seen.status == Approved && Some(x) !in {seen.requestedBy, seen.approvedBy}
        && sys.request.status == Approved && sys.request.approvedBy == Some(x)
  {
    var next := Step(sys, Submit(h, x));
    if next.history == sys.history + [WasStarted(x, Some(x))] {
      assert next.history[|sys.history|] == WasStarted(x, Some(x));
      assert next.history != sys.history;
    }
  }

  // A verification takes a request out of its execution, or out of its completion, exactly when it is
  // still at work then.
  lemma ReopensIff(sys: System, h: Id, ok: bool)
    requires sys.request.status in {Executing, Completed}
    ensures Step(sys, EndVerify(h, ok)).request.status != sys.request.status <==>
      h in sys.handlers && sys.handlers[h].verifying
    ensures Step(sys, BeginVerify(h)).request.status != sys.request.status <==>
      h in sys.handlers && sys.handlers[h].seen.status !in {Verified, Approved, Executing, Completed}
  {
  }

  lemma {:induction false} RunSnoc(sys: System, evs: seq<Event>, ev: Event)
    ensures Run(sys, evs + [ev]) == Step(Run(sys, evs), ev)
    decreases |evs|
  {
    if evs == [] {
      assert (evs + [ev])[1..] == [];
      assert Run(Step(sys, ev), []) == Step(sys, ev);
    } else {
      assert (evs + [ev])[1..] == evs[1..] + [ev];
      RunSnoc(Step(sys, evs[0]), evs[1..], ev);
    }
  }

  ghost predicate Reachable(sys: System) {
    exists evs: seq<Event> :: Run(Begin(Some(9)), evs) == sys
  }

  lemma Onwards(sys: System, ev: Event) returns (next: System)
    requires Reachable(sys)
    ensures next == Step(sys, ev) && Reachable(next)
  {
    var evs: seq<Event> :| Run(Begin(Some(9)), evs) == sys;
    RunSnoc(Begin(Some(9)), evs, ev);
    next := Step(sys, ev);
  }

  lemma VerifiedNow(start: System, handler: Id) returns (sys: System)
    requires Reachable(start) && start.request.status in {PendingVerification, Verifying, Failed}
    ensures Reachable(sys) && sys.request == start.request.(status := Verified, verifiedAt := true)
    ensures sys.handlers == start.handlers - {handler} && sys.history == start.history + [WasVerified]
  {
    sys := Onwards(start, Read(handler));
    sys := Onwards(sys, BeginVerify(handler));
    sys := Onwards(sys, EndVerify(handler, true));
  }

  lemma ApprovedNow(start: System, handler: Id, actor: Id) returns (sys: System)
    requires Reachable(start) && start.request.status == Verified && start.request.requestedBy != Some(actor)
    ensures Reachable(sys) && sys.request == start.request.(status := Approved, approvedBy := Some(actor))
    ensures sys.handlers == start.handlers - {handler} && sys.history == start.history + [WasApproved(actor)]
  {
    sys := Onwards(start, Read(handler));
    sys := Onwards(sys, Approve(handler, actor));
  }

  lemma StartedNow(start: System, handler: Id, actor: Id) returns (sys: System)
    requires Reachable(start) && start.request.status == Approved
    requires Some(actor) !in {start.request.requestedBy, start.request.approvedBy}
    ensures Reachable(sys) && sys.request == start.request.(status := Executing)
    ensures sys.handlers == start.handlers - {handler}
    ensures sys.history == start.history + [WasStarted(actor, start.request.approvedBy)]
  {
    sys := Onwards(start, Read(handler));
    sys := Onwards(sys, Submit(handler, actor));
  }

  lemma FailedNow(start: System, handler: Id) returns (sys: System)
    requires Reachable(start) && start.request.status == Executing && start.request.approvedBy.Some?
    requires start.request.verifiedAt
    ensures Reachable(sys) && sys.request == start.request.(status := Failed)
    ensures sys.handlers == start.handlers - {handler} && sys.history == start.history + [WasFailed]
  {
    sys := Onwards(start, Read(handler));
    sys := Onwards(sys, EndExecute(handler, false));
  }

  // An executor whose submission read an older approval may start a run that they approved themselves.
  lemma StaleSubmissionSelfExecutes()
    ensures exists sys, x :: Reachable(sys) && WasStarted(x, Some(x)) in sys.history
  {
    assert Run(Begin(Some(9)), []) == Begin(Some(9));
    var sys := VerifiedNow(Begin(Some(9)), 1);
    sys := ApprovedNow(sys, 2, 10);
    var read := Onwards(sys, Read(3));
    assert read.request == sys.request && read.handlers[3].seen == sys.request;
    sys := StartedNow(read, 4, 12);
    sys := FailedNow(sys, 5);
    sys := VerifiedNow(sys, 6);
    sys := ApprovedNow(sys, 7, 11);
    assert sys.handlers[3].seen.approvedBy == Some(10);
    sys := Onwards(sys, Submit(3, 11));
    assert sys.history[|sys.history| - 1] == WasStarted(11, Some(11));
  }

  lemma VerifyingSlowly() returns (sys: System)
    ensures Reachable(sys) && sys.request == Request(Verifying, Some(9), false, None) && sys.history == []
    ensures 8 in sys.handlers && sys.handlers[8] == Handler(sys.request, true)
  {
    assert Run(Begin(Some(9)), []) == Begin(Some(9));
    sys := Onwards(Begin(Some(9)), Read(8));
    sys := Onwards(sys, BeginVerify(8));
  }

  // A verification that finishes late sets a running execution back to verified, so that it can be
  // approved and started again.
  lemma LateVerificationReopens()
    ensures exists sys, history ::
      && Reachable(sys) && sys.request.status == Verified
      && sys.history == history + [WasVerified] && Last(history) == Some(WasStarted(11, Some(10)))
  {
    var sys := VerifyingSlowly();
    var late := sys.handlers[8];
    sys := VerifiedNow(sys, 1);
    sys := ApprovedNow(sys, 2, 10);
    sys := StartedNow(sys, 3, 11);
    assert sys.handlers[8] == late;
    var reopened := Onwards(sys, EndVerify(8, true));
    assert reopened.history == sys.history + [WasVerified];
  }
}
