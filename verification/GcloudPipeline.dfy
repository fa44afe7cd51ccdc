/** One release of a Google Cloud pipeline: plan, approval of the apply rollout over any sequence of polls, apply. */
module GcloudPipeline {
  import opened Approval
  import opened Versions

  datatype RolloutState = PendingApproval | Running | RolloutSucceeded | RolloutFailed

  /** What one poll of the apply rollout sees; `approveFails` is what approving it would do. */
  datatype Poll = TimedOut | QueryFails | Seen(state: RolloutState, approved: bool, approveFails: bool)

  datatype Event = ManualNotice | ApprovalNotice | RolloutApproved | ApproveFailed

  datatype Outcome = Succeeds | Fails(why: string)

  datatype Wait = Wait(approved: bool, notified: bool, trace: seq<Event>, outcome: Option<Outcome>)

  /** `named` tells whether the name of the plan's execution is known. */
  datatype Setup = Setup(policy: Policy, notify: bool, named: bool, changes: Changes)

  const BEGIN := Wait(false, false, [], None)

  function AwaitApproval(w: Wait, approveFails: bool, s: Setup): Wait {
    if w.approved || !s.named then w
    else if ShouldApprove(s.changes, s.policy) then
      if approveFails then w.(trace := w.trace + [ApproveFailed])
      else w.(approved := true, trace := w.trace + [RolloutApproved])
    else if !w.notified && s.notify then w.(notified := true, trace := w.trace + [ManualNotice])
    else w
  }

  function NextPoll(w: Wait, poll: Poll, s: Setup): Wait {
    match poll
    case TimedOut => w.(outcome := Some(Fails("timed out waiting for rollout to finish")))
    case QueryFails => w.(outcome := Some(Fails("failed to get rollout")))
    case Seen(PendingApproval, _, approveFails) => AwaitApproval(w, approveFails, s)
    case Seen(state, approved, _) =>
      var seen := if approved && w.notified then w.(notified := false, trace := w.trace + [ApprovalNotice]) else w;
      match state
      case Running => seen
      case RolloutSucceeded => seen.(outcome := Some(Succeeds))
      case _ => seen.(outcome := Some(Fails("rollout failed")))
  }

  function Waited(polls: seq<Poll>, s: Setup): Wait {
    if polls == [] then BEGIN
    else
      var w := Waited(polls[..|polls| - 1], s);
      if w.outcome.Some? then w else NextPoll(w, polls[|polls| - 1], s)
  }

  lemma {:induction false} NoMorePolls(polls: seq<Poll>, n: nat, s: Setup)
    requires n <= |polls| && Waited(polls[..n], s).outcome.Some?
    ensures Waited(polls, s) == Waited(polls[..n], s)
    decreases |polls| - n
  {
    if n == |polls| {
      assert polls[..n] == polls;
    } else {
      assert polls[..n + 1][..n] == polls[..n];
      NoMorePolls(polls, n + 1, s);
    }
  }

  method WaitForApplyRollout(polls: seq<Poll>, s: Setup) returns (w: Wait)
    ensures w == Waited(polls, s)
  {
    var approved, notified, trace := false, false, [];
    for i := 0 to |polls|
      invariant Waited(polls[..i], s) == Wait(approved, notified, trace, None)
    {
      assert polls[..i + 1][..i] == polls[..i];
      if polls[i].TimedOut? || polls[i].QueryFails? {
        NoMorePolls(polls, i + 1, s);
        return NextPoll(Wait(approved, notified, trace, None), polls[i], s);
      }
      if polls[i].state.PendingApproval? {
        if approved {
          continue;
        }
        if s.named {
          if ShouldApprove(s.changes, s.policy) {
            if polls[i].approveFails {
              trace := trace + [ApproveFailed];
            } else {
              approved, trace := true, trace + [RolloutApproved];
            }
          } else if !notified && s.notify {
            notified, trace := true, trace + [ManualNotice];
          }
        }
        continue;
      }
      if polls[i].approved && notified {
        notified, trace := false, trace + [ApprovalNotice];
      }
      if polls[i].state.Running? {
        continue;
      }
      NoMorePolls(polls, i + 1, s);
      return Wait(approved, notified, trace,
                  Some(if polls[i].state.RolloutSucceeded? then Succeeds else Fails("rollout failed")));
    }
    assert polls[..|polls|] == polls;
    return Wait(approved, notified, trace, None);
  }

  /* ---------- what every wait keeps ---------- */

  /** Manual and approval notices take turns, a manual notice first. */
  ghost predicate Alternates(t: seq<Event>) {
    forall i :: 0 <= i < |t| ==> t[i] == if i % 2 == 0 then ManualNotice else ApprovalNotice
  }

  /** Failed attempts, then at most one successful approval. */
  ghost predicate Attempts(t: seq<Event>, approved: bool) {
    && (approved ==> |t| > 0 && t[|t| - 1] == RolloutApproved)
    && (forall i :: 0 <= i < (if approved then |t| - 1 else |t|) ==> t[i] == ApproveFailed)
  }

  /** If the policy approves, the agent tries until it has approved once and tells nobody; if not, it only notifies,
      and an approval notice always answers a manual notice. */
  ghost predicate Inv(w: Wait, s: Setup) {
    && (!s.named ==> w == Wait(false, false, [], w.outcome))
    && (if ShouldApprove(s.changes, s.policy) then !w.notified && Attempts(w.trace, w.approved)
        else !w.approved && Alternates(w.trace) && (w.notified <==> |w.trace| % 2 == 1))
  }

  lemma OnePoll(w: Wait, poll: Poll, s: Setup)
    requires Inv(w, s) && w.outcome == None
    ensures Inv(NextPoll(w, poll, s), s)
    ensures NextPoll(w, poll, s).outcome == Some(Succeeds) <==> poll.Seen? && poll.state == RolloutSucceeded
  {
  }

  /** Poll `n` still has someone waiting, and sees that the rollout succeeded. */
  ghost predicate SeesSuccess(polls: seq<Poll>, s: Setup, n: nat) {
    && n < |polls| && Waited(polls[..n], s).outcome == None
    && polls[n].Seen? && polls[n].state == RolloutSucceeded
  }

  lemma SeenInFront(polls: seq<Poll>, s: Setup, n: nat)
    requires n < |polls| - 1
    ensures SeesSuccess(polls[..|polls| - 1], s, n) <==> SeesSuccess(polls, s, n)
  {
    assert polls[..|polls| - 1][..n] == polls[..n];
  }

  lemma {:induction false} AlwaysInv(polls: seq<Poll>, s: Setup)
    ensures Inv(Waited(polls, s), s)
  {
    if polls != [] {
      AlwaysInv(polls[..|polls| - 1], s);
      if Waited(polls[..|polls| - 1], s).outcome == None {
        OnePoll(Waited(polls[..|polls| - 1], s), polls[|polls| - 1], s);
      }
    }
  }

  lemma {:induction false} SucceedsIfSeen(polls: seq<Poll>, s: Setup)
    ensures Waited(polls, s).outcome == Some(Succeeds) <==> exists n: nat :: SeesSuccess(polls, s, n)
  {
    if polls != [] {
      var m := |polls| - 1;
      var front := polls[..m];
      SucceedsIfSeen(front, s);
      forall n: nat | n < m ensures SeesSuccess(front, s, n) <==> SeesSuccess(polls, s, n) {
        SeenInFront(polls, s, n);
      }
      assert forall n: nat :: SeesSuccess(front, s, n) ==> n < m && SeesSuccess(polls, s, n);
      assert forall n: nat :: SeesSuccess(polls, s, n) ==> n < m || n == m;
      if Waited(front, s).outcome == None {
        AlwaysInv(front, s);
        OnePoll(Waited(front, s), polls[m], s);
        assert SeesSuccess(polls, s, m) <==> polls[m].Seen? && polls[m].state == RolloutSucceeded;
      }
    }
  }

  /** For any polls; and success means that the rollout succeeded. */
  lemma AlwaysSafe(polls: seq<Poll>, s: Setup)
    ensures Inv(Waited(polls, s), s)
    ensures Waited(polls, s).outcome == Some(Succeeds) <==> exists n: nat :: SeesSuccess(polls, s, n)
  {
    AlwaysInv(polls, s);
    SucceedsIfSeen(polls, s);
  }

  ghost predicate Pending(w: Wait, poll: Poll) {
    w.outcome == None && poll.Seen? && poll.state.PendingApproval?
  }

  /** Poll `n` finds the rollout waiting for an approval that the policy gives, and giving it succeeds. */
  ghost predicate ApprovesAt(polls: seq<Poll>, s: Setup, n: nat) {
    && n < |polls| && Pending(Waited(polls[..n], s), polls[n])
    && s.named && ShouldApprove(s.changes, s.policy) && !polls[n].approveFails
  }

  /** Poll `n` finds it waiting for an approval that the policy leaves to a person. */
  ghost predicate WaitsAt(polls: seq<Poll>, s: Setup, n: nat) {
    && n < |polls| && Pending(Waited(polls[..n], s), polls[n])
    && s.named && s.notify && !ShouldApprove(s.changes, s.policy)
  }

  ghost predicate EndsAt(polls: seq<Poll>, s: Setup, n: nat) {
    && n < |polls| && Waited(polls[..n], s).outcome == None
    && (!polls[n].Seen? || polls[n].state.RolloutSucceeded? || polls[n].state.RolloutFailed?)
  }

  lemma InFront(polls: seq<Poll>, s: Setup, n: nat)
    requires n < |polls| - 1
    ensures ApprovesAt(polls[..|polls| - 1], s, n) <==> ApprovesAt(polls, s, n)
    ensures WaitsAt(polls[..|polls| - 1], s, n) <==> WaitsAt(polls, s, n)
    ensures EndsAt(polls[..|polls| - 1], s, n) <==> EndsAt(polls, s, n)
  {
    assert polls[..|polls| - 1][..n] == polls[..n];
  }

  /** The agent approves exactly if it can, a person is told exactly if one has to approve, and the wait is over exactly
      when the rollout is or a poll fails. */
  lemma {:induction false} ActsExactly(polls: seq<Poll>, s: Setup)
    ensures Waited(polls, s).approved <==> exists n: nat :: ApprovesAt(polls, s, n)
    ensures ManualNotice in Waited(polls, s).trace <==> exists n: nat :: WaitsAt(polls, s, n)
    ensures Waited(polls, s).outcome.Some? <==> exists n: nat :: EndsAt(polls, s, n)
  {
    if polls != [] {
      var m := |polls| - 1;
      var front := polls[..m];
      ActsExactly(front, s);
      AlwaysInv(front, s);
      forall n: nat | n < m
        ensures ApprovesAt(front, s, n) <==> ApprovesAt(polls, s, n)
        ensures WaitsAt(front, s, n) <==> WaitsAt(polls, s, n)
        ensures EndsAt(front, s, n) <==> EndsAt(polls, s, n)
      {
        InFront(polls, s, n);
      }
      LastPoll(polls, s);
      assert forall n: nat :: ApprovesAt(polls, s, n) ==> n < m || n == m;
      assert forall n: nat :: WaitsAt(polls, s, n) ==> n < m || n == m;
      assert forall n: nat :: EndsAt(polls, s, n) ==> n < m || n == m;
      assert forall n: nat :: ApprovesAt(front, s, n) ==> n < m;
      assert forall n: nat :: WaitsAt(front, s, n) ==> n < m;
      assert forall n: nat :: EndsAt(front, s, n) ==> n < m;
    }
  }

  lemma LastPoll(polls: seq<Poll>, s: Setup)
    requires polls != []
    ensures var m, w, was := |polls| - 1, Waited(polls, s), Waited(polls[..|polls| - 1], s);
            && (w.approved <==> was.approved || ApprovesAt(polls, s, m))
            && (w.outcome.Some? <==> was.outcome.Some? || EndsAt(polls, s, m))
            && (ManualNotice in w.trace <==> ManualNotice in was.trace || WaitsAt(polls, s, m))
  {
    var was, poll := Waited(polls[..|polls| - 1], s), polls[|polls| - 1];
    AlwaysInv(polls[..|polls| - 1], s);
    if was.outcome == None {
      if Pending(was, poll) {
        PendingActs(was, poll, s);
      } else {
        OtherActs(was, poll, s);
      }
    }
  }

  lemma InTrace(t: seq<Event>, x: Event, y: Event)
    ensures x in t + [y] <==> x in t || x == y
  {
  }

  lemma PendingActs(w: Wait, poll: Poll, s: Setup)
    requires Inv(w, s) && Pending(w, poll)
    ensures var next := NextPoll(w, poll, s);
            && next.outcome == None
            && (next.approved <==> w.approved || (s.named && ShouldApprove(s.changes, s.policy) && !poll.approveFails))
            && (ManualNotice in next.trace <==>
                ManualNotice in w.trace || (s.named && s.notify && !ShouldApprove(s.changes, s.policy)))
  {
    InTrace(w.trace, ManualNotice, ManualNotice);
    InTrace(w.trace, ManualNotice, ApproveFailed);
    InTrace(w.trace, ManualNotice, RolloutApproved);
    if w.notified {
      assert w.trace[|w.trace| - 1] == ManualNotice;
    }
  }

  lemma OtherActs(w: Wait, poll: Poll, s: Setup)
    requires w.outcome == None && !Pending(w, poll)
    ensures var next := NextPoll(w, poll, s);
            && (next.outcome == None <==> poll.Seen? && poll.state.Running?)
            && next.approved == w.approved
            && (ManualNotice in next.trace <==> ManualNotice in w.trace)
  {
    InTrace(w.trace, ManualNotice, ApprovalNotice);
  }

  /* ---------- the whole release ---------- */

  /** What the world does to one release: whether it renders, its plan rollout succeeds, the plan job runs and
      can be read, the apply rollout can be created, what its polls see, and whether the apply job succeeds. */
  datatype World = World(renders: bool, planRollout: bool, planJob: Option<bool>, changes: Result<Changes>,
                         createApply: bool, polls: seq<Poll>, applyJob: bool)

  datatype Run = Run(outcome: Option<Outcome>, planned: bool, abandoned: bool, applied: bool, wait: Option<Wait>)

  /** Returns None as outcome if the polls end before the wait does. */
  method WaitPipelineExecution(p: Policy, notify: bool, world: World) returns (r: Run)
    ensures r.planned <==> world.renders && world.planRollout && world.planJob.Some?
    ensures r.wait.Some? <==>
              r.planned && world.changes.Ok? && !ShouldStop(world.changes.value, p) && world.createApply
    ensures r.wait.Some? ==>
              r.wait.value == Waited(world.polls, Setup(p, notify, world.planJob.value, world.changes.value))
    ensures r.applied <==> r.wait.Some? && r.wait.value.outcome == Some(Succeeds)
    ensures r.outcome == None <==> r.wait.Some? && r.wait.value.outcome == None
    ensures r.abandoned <==> r.planned && world.changes.Ok? && ShouldStop(world.changes.value, p)
    ensures r.outcome == Some(Succeeds) <==>
              (r.applied && world.applyJob) || (r.abandoned && world.changes.value.noChanges && !Rejects(p))
  {
    r := Run(None, false, false, false, None);
    if !world.renders || !world.planRollout || world.planJob.None? {
      return r.(outcome := Some(Fails("plan failed")));
    }
    r := r.(planned := true);
    if world.changes.Err? {
      return r.(outcome := Some(Fails(world.changes.why)));
    }
    var changes := world.changes.value;
    if ShouldStop(changes, p) {
      r := r.(abandoned := true);
      if p.approve.ApproveReject? || p.manual.ManualReject? {
        return r.(outcome := Some(Fails("stopped because step approve type is 'reject'")));
      }
      return r.(outcome := Some(Succeeds));
    }
    if !world.createApply {
      return r.(outcome := Some(Fails("failed to create apply rollout")));
    }
    var w := WaitForApplyRollout(world.polls, Setup(p, notify, world.planJob.value, changes));
    r := r.(wait := Some(w));
    if w.outcome != Some(Succeeds) {
      return r.(outcome := w.outcome);
    }
    return r.(applied := true, outcome := Some(if world.applyJob then Succeeds else Fails("apply failed")));
  }
}
