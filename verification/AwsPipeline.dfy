/** Waiting for one execution of an AWS pipeline, over any sequence of poll observations. */
module AwsPipeline {
  import opened Approval
  import opened Versions

  datatype ExecutionStatus = Succeeded | Failed | Cancelled | Stopped | Stopping | Superseded | UnknownStatus

  datatype ActionStatus = ActionInProgress | ActionSucceeded | ActionOther

  /** `approval` tells whether this is the approval action of the approval stage. */
  datatype Action = Action(approval: bool, status: ActionStatus, updatedBy: string)

  /** What one poll sees. The plan is what reading the logs gives, `token` whether an approval token is there, and
      `putFails` whether putting the approval result fails. */
  datatype Poll = ContextDone | QueryFails | Ended(status: ExecutionStatus) | ListFails
                | InProgress(actions: seq<Action>, plan: Result<Option<Changes>>, token: bool, putFails: bool)

  datatype Event = Planned(changes: Changes) | ManualNotice(changes: Changes) | ApprovalNotice(who: string)
                 | ApprovalPut(done: bool) | StopSent

  datatype Status = Undecided | Waiting | Approve | Approved | StopStatus

  datatype Outcome = Succeeds | Fails(why: string)

  datatype Wait = Wait(status: Status, trace: seq<Event>, outcome: Option<Outcome>)

  /** The pipeline as the caller sets it up; `notify` tells whether there is a notification manager. */
  datatype Setup = Setup(policy: Policy, notify: bool)

  const BEGIN := Wait(Undecided, [], None)

  function GetExecutionResult(s: ExecutionStatus): Outcome {
    match s
    case Succeeded => Succeeds
    case Failed => Fails("pipeline execution failed")
    case Cancelled => Fails("pipeline execution cancelled")
    case Stopped => Fails("pipeline execution stopped")
    case Stopping => Fails("pipeline execution stopping")
    case Superseded => Fails("pipeline execution superseded")
    case UnknownStatus => Fails("unknown pipeline execution status")
  }

  /** Puts the approval result if there is a token. */
  function ApproveStage(w: Wait, token: bool, putFails: bool): Wait {
    if !token then w.(status := Approve)
    else if putFails then w.(status := Approve, trace := w.trace + [ApprovalPut(false)])
    else w.(status := Approved, trace := w.trace + [ApprovalPut(true)])
  }

  function StopPipeline(w: Wait, p: Policy): Wait {
    w.(status := StopStatus, trace := w.trace + [StopSent],
       outcome := Some(if Rejects(p) then Fails("stopped because step approve type is 'reject'") else Succeeds))
  }

  function ProcessChanges(w: Wait, plan: Result<Option<Changes>>, token: bool, putFails: bool, s: Setup): Wait {
    match plan
    case Err(why) => w.(status := StopStatus, outcome := Some(Fails(why)))
    case Ok(None) => w.(status := StopStatus, outcome := Some(Fails("couldn't get pipeline changes")))
    case Ok(Some(c)) =>
      var planned := w.(trace := w.trace + [Planned(c)]);
      if ShouldStop(c, s.policy) then StopPipeline(planned, s.policy)
      else if ShouldApprove(c, s.policy) then ApproveStage(planned, token, putFails)
      else planned.(status := Waiting, trace := planned.trace + if s.notify then [ManualNotice(c)] else [])
  }

  /** The first approval action. */
  function ApprovalAction(actions: seq<Action>): Option<Action> {
    if actions == [] then None else if actions[0].approval then Some(actions[0]) else ApprovalAction(actions[1..])
  }

  function ProcessStages(w: Wait, poll: Poll, s: Setup): Wait
    requires poll.InProgress?
  {
    match ApprovalAction(poll.actions)
    case None => w
    case Some(a) =>
      match a.status
      case ActionSucceeded =>
        w.(status := Approved,
           trace := w.trace + if w.status == Waiting && s.notify then [ApprovalNotice(a.updatedBy)] else [])
      case ActionOther => w
      case ActionInProgress =>
        match w.status
        case Waiting => w
        case Approve => ApproveStage(w, poll.token, poll.putFails)
        case _ => ProcessChanges(w, poll.plan, poll.token, poll.putFails, s)
  }

  function NextPoll(w: Wait, poll: Poll, s: Setup): Wait {
    match poll
    case ContextDone => w.(outcome := Some(Fails("context done")))
    case QueryFails => w.(outcome := Some(Fails("failed to get execution")))
    case Ended(status) => w.(outcome := Some(GetExecutionResult(status)))
    case ListFails => if w.status == Approved then w else w.(outcome := Some(Fails("failed to list actions")))
    case InProgress(_, _, _, _) => if w.status == Approved then w else ProcessStages(w, poll, s)
  }

  /** The wait after some polls; once it has an outcome it polls no more. */
  function Waited(polls: seq<Poll>, s: Setup): Wait {
    if polls == [] then BEGIN
    else
      var w := Waited(polls[..|polls| - 1], s);
      if w.outcome.Some? then w else NextPoll(w, polls[|polls| - 1], s)
  }

  /* ---------- the loops of the source ---------- */

  method ProcessStateStages(w: Wait, poll: Poll, s: Setup) returns (next: Wait)
    requires poll.InProgress?
    ensures next == ProcessStages(w, poll, s)
  {
    for i := 0 to |poll.actions|
      invariant ApprovalAction(poll.actions) == ApprovalAction(poll.actions[i..])
    {
      var action := poll.actions[i];
      assert poll.actions[i..][1..] == poll.actions[i + 1..];
      if !action.approval {
        continue;
      }
      if action.status == ActionSucceeded {
        var notice := if w.status == Waiting && s.notify then [ApprovalNotice(action.updatedBy)] else [];
        return w.(status := Approved, trace := w.trace + notice);
      }
      if action.status != ActionInProgress {
        return w;
      }
      match w.status {
        case Waiting => return w;
        case Approve => return ApproveStage(w, poll.token, poll.putFails);
        case _ => return ProcessChanges(w, poll.plan, poll.token, poll.putFails, s);
      }
    }
    return w;
  }

  method WaitPipelineExecution(polls: seq<Poll>, s: Setup) returns (w: Wait)
    ensures w == Waited(polls, s)
  {
    w := BEGIN;
    for i := 0 to |polls|
      invariant w == Waited(polls[..i], s) && w.outcome.None?
    {
      assert polls[..i + 1][..i] == polls[..i];
      match polls[i] {
        case ContextDone => w := w.(outcome := Some(Fails("context done")));
        case QueryFails => w := w.(outcome := Some(Fails("failed to get execution")));
        case Ended(status) => w := w.(outcome := Some(GetExecutionResult(status)));
        case ListFails =>
          if w.status != Approved {
            w := w.(outcome := Some(Fails("failed to list actions")));
          }
        case InProgress(_, _, _, _) =>
          if w.status != Approved {
            w := ProcessStateStages(w, polls[i], s);
          }
      }
      if w.outcome.Some? {
        NoMorePolls(polls, i + 1, s);
        return;
      }
    }
    assert polls[..|polls|] == polls;
  }

  lemma {:induction false} NoMorePolls(polls: seq<Poll>, n: nat, s: Setup)
    requires n <= |polls| && Waited(polls[..n], s).outcome.Some?
    ensures Waited(polls, s) == Waited(polls[..n], s)
    decreases |polls| - n
  {
    if n == |polls| {
      assert polls[..n] == polls;
    } else {
      assert polls[..n + 1][..n] == polls[..n];
      NoMorePolls(polls, n + 1, s);
    }
  }

  /* ---------- what every wait keeps ---------- */

  /** The plan was read and the policy left it to a person. */
  ghost predicate LeftToPerson(trace: seq<Event>, s: Setup, c: Changes) {
    && !ShouldStop(c, s.policy) && !ShouldApprove(c, s.policy)
    && trace == [Planned(c)] + (if s.notify then [ManualNotice(c)] else [])
  }

  /** The plan was read, the policy approved it, and putting the approval has only failed so far. */
  ghost predicate BeingApproved(trace: seq<Event>, s: Setup, c: Changes) {
    && !ShouldStop(c, s.policy) && ShouldApprove(c, s.policy)
    && |trace| > 0 && trace[0] == Planned(c) && forall i :: 0 < i < |trace| ==> trace[i] == ApprovalPut(false)
  }

  ghost predicate Asked(trace: seq<Event>, s: Setup) {
    exists c :: LeftToPerson(trace, s, c)
  }

  ghost predicate Approving(trace: seq<Event>, s: Setup) {
    exists c :: BeingApproved(trace, s, c)
  }

  /** All traces that are possible with a status. */
  ghost predicate Shape(w: Wait, s: Setup) {
    match w.status
    case Undecided => w.trace == []
    case Waiting => Asked(w.trace, s)
    case Approve => Approving(w.trace, s)
    case Approved =>
      || w.trace == []
      || Approving(w.trace, s)
      || (|w.trace| > 0 && w.trace[|w.trace| - 1] == ApprovalPut(true) && Approving(w.trace[..|w.trace| - 1], s))
      || (!s.notify && Asked(w.trace, s))
      || (s.notify && |w.trace| > 0 && w.trace[|w.trace| - 1].ApprovalNotice? && Asked(w.trace[..|w.trace| - 1], s))
    case StopStatus =>
      || (w.trace == [] && w.outcome.Some? && w.outcome.value.Fails?)
      || exists c :: ShouldStop(c, s.policy) && w.trace == [Planned(c), StopSent]
  }

  lemma ChangesShape(w: Wait, plan: Result<Option<Changes>>, token: bool, putFails: bool, s: Setup)
    requires w.status == Undecided && w.trace == [] && w.outcome == None
    ensures Shape(ProcessChanges(w, plan, token, putFails, s), s)
    ensures var next := ProcessChanges(w, plan, token, putFails, s);
            && (next.status == StopStatus <==> next.outcome.Some?)
            && (next.outcome == Some(Succeeds) <==>
                  plan.Ok? && plan.value.Some? && plan.value.value.noChanges && !Rejects(s.policy))
  {
    if plan.Ok? && plan.value.Some? {
      var c := plan.value.value;
      assert [] + [Planned(c)] == [Planned(c)];
      if ShouldStop(c, s.policy) {
        assert [Planned(c)] + [StopSent] == [Planned(c), StopSent];
      } else if ShouldApprove(c, s.policy) {
        assert BeingApproved([Planned(c)], s, c);
        assert ([Planned(c)] + [ApprovalPut(true)])[..1] == [Planned(c)];
        assert BeingApproved([Planned(c)] + [ApprovalPut(false)], s, c);
      } else {
        assert LeftToPerson([Planned(c)] + (if s.notify then [ManualNotice(c)] else []), s, c);
      }
    }
  }

  lemma ApproveShape(w: Wait, token: bool, putFails: bool, s: Setup)
    requires w.status == Approve && Shape(w, s)
    ensures Shape(ApproveStage(w, token, putFails), s)
  {
    var c :| BeingApproved(w.trace, s, c);
    assert (w.trace + [ApprovalPut(true)])[..|w.trace|] == w.trace;
    assert BeingApproved(w.trace + [ApprovalPut(false)], s, c);
  }

  lemma SeenApprovedShape(w: Wait, who: string, s: Setup)
    requires Shape(w, s) && w.status != StopStatus && w.status != Approved
    ensures Shape(w.(status := Approved,
                     trace := w.trace + if w.status == Waiting && s.notify then [ApprovalNotice(who)] else []), s)
  {
    assert w.trace + [] == w.trace && (w.trace + [ApprovalNotice(who)])[..|w.trace|] == w.trace;
  }

  ghost predicate Inv(w: Wait, s: Setup) {
    Shape(w, s) && (w.status == StopStatus ==> w.outcome.Some?)
  }

  /** A poll ends the wait without an error. */
  ghost predicate EndsWell(w: Wait, poll: Poll, s: Setup) {
    || poll == Ended(Succeeded)
    || (poll.InProgress? && w.status == Undecided
        && ApprovalAction(poll.actions).Some? && ApprovalAction(poll.actions).value.status == ActionInProgress
        && poll.plan.Ok? && poll.plan.value.Some? && poll.plan.value.value.noChanges && !Rejects(s.policy))
  }

  /** Every poll keeps the shape, and success means a succeeded execution or a plan without changes that is not
      rejected. */
  lemma OnePoll(w: Wait, poll: Poll, s: Setup)
    requires Inv(w, s) && w.outcome == None
    ensures Inv(NextPoll(w, poll, s), s)
    ensures NextPoll(w, poll, s).outcome == Some(Succeeds) <==> EndsWell(w, poll, s)
    ensures w.status == Approved ==> NextPoll(w, poll, s).status == Approved && NextPoll(w, poll, s).trace == w.trace
  {
    if poll.InProgress? && w.status != Approved {
      match ApprovalAction(poll.actions) {
        case Some(Action(_, ActionSucceeded, who)) => SeenApprovedShape(w, who, s);
        case Some(Action(_, ActionInProgress, _)) =>
          if w.status == Approve {
            ApproveShape(w, poll.token, poll.putFails, s);
          } else if w.status == Undecided {
            ChangesShape(w, poll.plan, poll.token, poll.putFails, s);
          }
        case _ =>
      }
    }
  }

  /** For any polls, the trace has one of the few possible shapes. */
  lemma {:induction false} AlwaysShaped(polls: seq<Poll>, s: Setup)
    ensures Inv(Waited(polls, s), s)
  {
    if polls != [] {
      AlwaysShaped(polls[..|polls| - 1], s);
      if Waited(polls[..|polls| - 1], s).outcome == None {
        OnePoll(Waited(polls[..|polls| - 1], s), polls[|polls| - 1], s);
      }
    }
  }

  /** The n-th poll is the one that ends the wait, and it ends it without an error. */
  ghost predicate EndsWellAt(polls: seq<Poll>, s: Setup, n: nat) {
    n < |polls| && Waited(polls[..n], s).outcome == None && EndsWell(Waited(polls[..n], s), polls[n], s)
  }

  lemma EndsWellOn(polls: seq<Poll>, poll: Poll, s: Setup, n: nat)
    requires n < |polls|
    ensures EndsWellAt(polls + [poll], s, n) <==> EndsWellAt(polls, s, n)
  {
    assert (polls + [poll])[..n] == polls[..n];
  }

  /** An ended wait stays ended. */
  lemma EndedEarlier(polls: seq<Poll>, s: Setup, n: nat)
    requires EndsWellAt(polls, s, n)
    ensures Waited(polls, s).outcome == Some(Succeeds)
  {
    AlwaysShaped(polls[..n], s);
    OnePoll(Waited(polls[..n], s), polls[n], s);
    assert polls[..n + 1][..n] == polls[..n];
    NoMorePolls(polls, n + 1, s);
  }

  /** The wait returns without an error exactly when the execution succeeded, or when it was stopped because an
      accepted plan changes nothing. */
  lemma {:induction false} SucceedsExactly(polls: seq<Poll>, s: Setup)
    ensures Waited(polls, s).outcome == Some(Succeeds) <==> exists n: nat :: EndsWellAt(polls, s, n)
  {
    if n: nat :| EndsWellAt(polls, s, n) {
      EndedEarlier(polls, s, n);
    } else if polls != [] {
      var front, last := polls[..|polls| - 1], polls[|polls| - 1];
      assert polls == front + [last];
      SucceedsExactly(front, s);
      forall n: nat ensures !EndsWellAt(front, s, n) {
        if n < |front| {
          EndsWellOn(front, last, s, n);
        }
      }
      AlwaysShaped(front, s);
      if Waited(front, s).outcome == None {
        OnePoll(Waited(front, s), last, s);
        assert !EndsWellAt(polls, s, |front|);
      }
    }
  }

  /** The approval action is waiting in the approval stage. */
  ghost predicate AsksForApproval(poll: Poll) {
    && poll.InProgress? && ApprovalAction(poll.actions).Some?
    && ApprovalAction(poll.actions).value.status == ActionInProgress
  }

  /** What a poll makes of a plan that the policy approves, at once or after attempts that failed: without a token the
      agent waits for one, with a token it puts the approval, and it is done when that succeeds. */
  lemma PutsApproval(w: Wait, poll: Poll, s: Setup, c: Changes)
    requires w.outcome == None && AsksForApproval(poll) && !ShouldStop(c, s.policy) && ShouldApprove(c, s.policy)
    requires w.status == Approve || (w.status == Undecided && poll.plan == Ok(Some(c)))
    ensures var next := NextPoll(w, poll, s);
            var before := if w.status == Undecided then w.trace + [Planned(c)] else w.trace;
            && next.outcome == None
            && (!poll.token ==> next.status == Approve && next.trace == before)
            && (poll.token && poll.putFails ==> next.status == Approve && next.trace == before + [ApprovalPut(false)])
            && (poll.token && !poll.putFails ==> next.status == Approved && next.trace == before + [ApprovalPut(true)])
  {
  }

  /** At poll `n` the policy approves, and putting the approval succeeds. */
  ghost predicate PutAt(polls: seq<Poll>, s: Setup, n: nat) {
    n < |polls| && PutBy(Waited(polls[..n], s), polls[n], s)
  }

  ghost predicate PutBy(w: Wait, poll: Poll, s: Setup) {
    && w.outcome == None && AsksForApproval(poll) && poll.token && !poll.putFails
    && (w.status == Approve || (w.status == Undecided && ApprovedPlan(poll.plan, s)))
  }

  ghost predicate ApprovedPlan(plan: Result<Option<Changes>>, s: Setup) {
    plan.Ok? && plan.value.Some? && !ShouldStop(plan.value.value, s.policy) && ShouldApprove(plan.value.value, s.policy)
  }

  lemma PutOnce(w: Wait, poll: Poll, s: Setup)
    requires Inv(w, s) && w.outcome == None
    ensures ApprovalPut(true) in NextPoll(w, poll, s).trace <==> ApprovalPut(true) in w.trace || PutBy(w, poll, s)
  {
    if PutBy(w, poll, s) {
      if w.status == Approve {
        var c :| BeingApproved(w.trace, s, c);
        PutsApproval(w, poll, s, c);
      } else {
        PutsApproval(w, poll, s, poll.plan.value.value);
      }
    }
  }

  /** The approval is put successfully exactly if some poll finds a plan that the policy approves, the approval action
      waiting, a token, and a put that succeeds. */
  lemma {:induction false} PutExactly(polls: seq<Poll>, s: Setup)
    ensures ApprovalPut(true) in Waited(polls, s).trace <==> exists n: nat :: PutAt(polls, s, n)
  {
    if polls != [] {
      var m := |polls| - 1;
      var front := polls[..m];
      PutExactly(front, s);
      AlwaysShaped(front, s);
      forall n: nat | n < m ensures PutAt(polls, s, n) <==> PutAt(front, s, n) {
        assert front[..n] == polls[..n];
      }
      if Waited(front, s).outcome == None {
        PutOnce(Waited(front, s), polls[m], s);
      }
      assert forall n: nat :: PutAt(polls, s, n) ==> n < m || n == m;
      if n: nat :| PutAt(front, s, n) {
        assert PutAt(polls, s, n);
      }
      assert PutBy(Waited(front, s), polls[m], s) <==> PutAt(polls, s, m);
    }
  }

  /** What ends a wait: the context, a failed query, an execution that is no longer in progress, whatever its status, a
      failed list unless the execution is approved, or a plan that cannot be read or that the policy stops. */
  ghost predicate Ends(w: Wait, poll: Poll, s: Setup) {
    || poll.ContextDone? || poll.QueryFails? || poll.Ended?
    || (poll.ListFails? && w.status != Approved)
    || (AsksForApproval(poll) && w.status == Undecided
        && (poll.plan.Err? || poll.plan.value.None? || ShouldStop(poll.plan.value.value, s.policy)))
  }

  ghost predicate EndsAt(polls: seq<Poll>, s: Setup, n: nat) {
    n < |polls| && Waited(polls[..n], s).outcome == None && Ends(Waited(polls[..n], s), polls[n], s)
  }

  /** A wait is over exactly when some poll has ended it. */
  lemma {:induction false} EndsExactly(polls: seq<Poll>, s: Setup)
    ensures Waited(polls, s).outcome.Some? <==> exists n: nat :: EndsAt(polls, s, n)
  {
    if polls != [] {
      var m := |polls| - 1;
      var front := polls[..m];
      EndsExactly(front, s);
      AlwaysShaped(front, s);
      forall n: nat | n < m ensures EndsAt(polls, s, n) <==> EndsAt(front, s, n) {
        assert front[..n] == polls[..n];
      }
      if Waited(front, s).outcome == None {
        assert NextPoll(Waited(front, s), polls[m], s).outcome.Some? <==> EndsAt(polls, s, m);
      } else {
        var n: nat :| EndsAt(front, s, n);
        assert EndsAt(polls, s, n);
      }
    }
  }

  lemma {:induction false} ApprovedIsFinal(polls: seq<Poll>, more: seq<Poll>, s: Setup)
    requires Waited(polls, s).status == Approved
    ensures Waited(polls + more, s).status == Approved && Waited(polls + more, s).trace == Waited(polls, s).trace
  {
    if more == [] {
      assert polls + more == polls;
    } else {
      var front := polls + more[..|more| - 1];
      assert (polls + more)[..|polls + more| - 1] == front;
      ApprovedIsFinal(polls, more[..|more| - 1], s);
      AlwaysShaped(front, s);
      if Waited(front, s).outcome == None {
        OnePoll(Waited(front, s), (polls + more)[|polls + more| - 1], s);
      }
    }
  }

  /** At most one manual notice, an approval notice at most once and after it, an approval put only for a plan that
      the policy approved and nothing after it, and a stop only for a plan that the policy stops. */
  ghost predicate SafeTrace(t: seq<Event>, s: Setup) {
    && (forall i, j :: 0 <= i < |t| && 0 <= j < |t| && t[i].ManualNotice? && t[j].ManualNotice? ==> i == j)
    && (forall i, j :: 0 <= i < |t| && 0 <= j < |t| && t[i].ApprovalNotice? && t[j].ApprovalNotice? ==> i == j)
    && (forall j :: 0 <= j < |t| && t[j].ApprovalNotice? ==> exists i :: 0 <= i < j && t[i].ManualNotice?)
    && (forall j :: 0 <= j < |t| && t[j].ApprovalPut? ==>
          t[0].Planned? && !ShouldStop(t[0].changes, s.policy) && ShouldApprove(t[0].changes, s.policy))
    && (forall i :: 0 <= i < |t| && t[i] == ApprovalPut(true) ==> i == |t| - 1)
    && (forall j :: 0 <= j < |t| && t[j].StopSent? ==> t[0].Planned? && ShouldStop(t[0].changes, s.policy))
  }

  lemma AskedIsSafe(t: seq<Event>, s: Setup, who: string)
    requires Asked(t, s)
    ensures SafeTrace(t, s) && (s.notify ==> SafeTrace(t + [ApprovalNotice(who)], s))
  {
    var c :| LeftToPerson(t, s, c);
    if s.notify {
      assert t == [Planned(c), ManualNotice(c)];
      var more := t + [ApprovalNotice(who)];
      assert more == [Planned(c), ManualNotice(c), ApprovalNotice(who)] && more[1].ManualNotice?;
    } else {
      assert t == [Planned(c)];
    }
  }

  lemma ApprovingIsSafe(t: seq<Event>, s: Setup)
    requires Approving(t, s)
    ensures SafeTrace(t, s) && SafeTrace(t + [ApprovalPut(true)], s)
  {
    var c :| BeingApproved(t, s, c);
    var more := t + [ApprovalPut(true)];
    assert forall i :: 0 < i < |more| ==> more[i].ApprovalPut? && (more[i] == ApprovalPut(true) ==> i == |t|);
    assert more[0] == Planned(c);
  }

  /** Whatever the polls see, the trace is safe. */
  lemma AlwaysSafe(polls: seq<Poll>, s: Setup)
    ensures SafeTrace(Waited(polls, s).trace, s)
  {
    AlwaysShaped(polls, s);
    var t := Waited(polls, s).trace;
    if t != [] {
      var front, last := t[..|t| - 1], t[|t| - 1];
      assert t == front + [last];
      if Asked(t, s) {
        AskedIsSafe(t, s, "");
      } else if Approving(t, s) {
        ApprovingIsSafe(t, s);
      } else if last.ApprovalNotice? {
        AskedIsSafe(front, s, last.who);
      } else if last == ApprovalPut(true) {
        ApprovingIsSafe(front, s);
      }
    }
  }
}
