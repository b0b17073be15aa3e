// What each handler of a restore request does to it and when it does nothing, and the way of a request
// to its completion.
module ApprovalLaws {
  import opened Results
  import opened RestoreApproval

  // A read takes the request as it is.
  lemma ReadLaw(sys: System, h: Id)
    ensures Step(sys, Read(h)) ==
      System(sys.request, sys.handlers[h := Handler(sys.request, false)], sys.history)
  {
  }

  // Verification starts unless the request was already verified, approved, executing or completed when
  // it was read, and ends with VERIFIED or REJECTED; the requester and the approver stay.
  lemma VerifyLaw(sys: System, h: Id, ok: bool)
    requires h in sys.handlers
    ensures var r := sys.request;
      Step(sys, BeginVerify(h)) ==
        if sys.handlers[h].seen.status in {Verified, Approved, Executing, Completed} then sys
        else
          var now := Request(Verifying, r.requestedBy, r.verifiedAt, r.approvedBy);
          System(now, sys.handlers[h := Handler(now, true)], sys.history)
    ensures var r := sys.request;
      Step(sys, EndVerify(h, ok)) ==
        if !sys.handlers[h].verifying then sys
        else if ok
        then System(Request(Verified, r.requestedBy, true, r.approvedBy), sys.handlers - {h},
          sys.history + [WasVerified])
        else System(Request(Rejected, r.requestedBy, r.verifiedAt, r.approvedBy), sys.handlers - {h},
          sys.history + [WasRejected])
  {
  }

  // An approval takes a request that was verified when it was read and still is, of somebody else.
  lemma ApproveLaw(sys: System, h: Id, actor: Id)
    requires h in sys.handlers
    ensures var (seen, r) := (sys.handlers[h].seen, sys.request);
      Step(sys, Approve(h, actor)) ==
        if seen.status == Verified && r.status == Verified && seen.requestedBy != Some(actor)
        then System(Request(Approved, r.requestedBy, r.verifiedAt, Some(actor)), sys.handlers - {h},
          sys.history + [WasApproved(actor)])
        else sys
  {
  }

  // A submission takes one that was approved when it was read and still is, neither requested nor
  // approved, as it was read, by the executor.
  lemma SubmitLaw(sys: System, h: Id, actor: Id)
    requires h in sys.handlers
    ensures var (seen, r) := (sys.handlers[h].seen, sys.request);
      Step(sys, Submit(h, actor)) ==
        if seen.status == Approved && r.status == Approved && seen.requestedBy != Some(actor)
          && seen.approvedBy != Some(actor)
        then System(Request(Executing, r.requestedBy, r.verifiedAt, r.approvedBy), sys.handlers - {h},
          sys.history + [WasStarted(actor, r.approvedBy)])
        else sys
  {
  }

  // An execution ends one that was executing, verified and approved when it was read: completed whatever
  // it is by then, failed only if it is still executing.
  lemma EndLaw(sys: System, h: Id, ok: bool)
    requires h in sys.handlers
    ensures var (seen, r) := (sys.handlers[h].seen, sys.request);
      var may := seen.status == Executing && seen.approvedBy.Some? && seen.verifiedAt;
      Step(sys, EndExecute(h, ok)) ==
        if may && ok
        then System(Request(Completed, r.requestedBy, r.verifiedAt, r.approvedBy), sys.handlers - {h},
          sys.history + [WasCompleted])
        else if may && r.status == Executing
        then System(Request(Failed, r.requestedBy, r.verifiedAt, r.approvedBy), sys.handlers - {h},
          sys.history + [WasFailed])
        else sys
  {
  }

  // Who has read nothing does nothing.
  lemma UnreadLaw(sys: System, ev: Event)
    requires !ev.Read? && ev.handler !in sys.handlers
    ensures Step(sys, ev) == sys
  {
  }

  // ---------------------------------------------------------------- to completion

  function Verifies(sys: System, h: Id, ok: bool): System {
    Step(Step(Step(sys, Read(h)), BeginVerify(h)), EndVerify(h, ok))
  }

  function Approves(sys: System, h: Id, actor: Id): System {
    Step(Step(sys, Read(h)), Approve(h, actor))
  }

  function Starts(sys: System, h: Id, actor: Id): System {
    Step(Step(sys, Read(h)), Submit(h, actor))
  }

  function Ends(sys: System, h: Id, ok: bool): System {
    Step(Step(sys, Read(h)), EndExecute(h, ok))
  }

  // Three people take a request through, one handler after the other; it fails where the execution does.
  lemma CanComplete(requester: Id, approver: Id, executor: Id, h: Id, ok: bool)
    requires requester != approver && requester != executor && approver != executor
    ensures var verified := Verifies(Begin(Some(requester)), h, true);
      var approved := Approves(verified, h, approver);
      var started := Starts(approved, h, executor);
      var ended := Ends(started, h, ok);
      && verified.request == Request(Verified, Some(requester), true, None)
      && approved.request == Request(Approved, Some(requester), true, Some(approver))
      && started.request == Request(Executing, Some(requester), true, Some(approver))
      && ended.request == Request(if ok then Completed else Failed, Some(requester), true, Some(approver))
      && ended.history == [WasVerified, WasApproved(approver), WasStarted(executor, Some(approver)),
           if ok then WasCompleted else WasFailed]
  {
  }

  // One whose snapshot does not verify is rejected, and cannot be approved until it is verified again.
  lemma RejectedStays(requester: Id, approver: Id, h: Id)
    ensures var rejected := Verifies(Begin(Some(requester)), h, false);
      && rejected.request.status == Rejected
      && Approves(rejected, h, approver).request == rejected.request
      && Verifies(rejected, h, true).request.status == Verified
  {
  }
}
