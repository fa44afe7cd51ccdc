/** A plan and an apply on the local machine. */
module LocalPipeline {
  import opened Approval
  import opened Versions

  /** What the world does: the plan's output as parsed, a person's answer and the apply. */
  datatype World = World(planRuns: bool, changes: Result<Changes>, confirms: bool, applySucceeds: bool)

  datatype Event = ManualNotice(changes: Changes) | Applied

  method GetApproval(p: Policy, world: World) returns (approved: Result<bool>, trace: seq<Event>)
    ensures approved == Ok(true) <==>
              && world.changes.Ok? && !Rejects(p) && !world.changes.value.noChanges
              && (ShouldApprove(world.changes.value, p) || world.confirms)
    ensures approved == Ok(false) <==> world.changes.Ok? && !Rejects(p) && world.changes.value.noChanges
    ensures trace == if world.changes.Ok? && !ShouldStop(world.changes.value, p) && !ShouldApprove(world.changes.value, p)
                     then [ManualNotice(world.changes.value)] else []
  {
    trace := [];
    if world.changes.Err? {
      return Err(world.changes.why), [];
    }
    var changes := world.changes.value;
    if p.approve.ApproveReject? || p.manual.ManualReject? {
      return Err("stopped because step approve type is 'reject'"), [];
    }
    if changes.noChanges {
      return Ok(false), [];
    }
    if ShouldApprove(changes, p) {
      return Ok(true), [];
    }
    trace := [ManualNotice(changes)];
    if !world.confirms {
      return Err("manual approval failed"), trace;
    }
    return Ok(true), trace;
  }

  /** A rejected or unchanged plan is never applied, and without a person only what the policy approves is. */
  method ExecuteLocalPipeline(p: Policy, world: World) returns (ok: bool, trace: seq<Event>)
    ensures Applied in trace <==>
              && world.planRuns && world.changes.Ok? && !ShouldStop(world.changes.value, p)
              && (ShouldApprove(world.changes.value, p) || world.confirms)
    ensures Applied in trace && !ShouldApprove(world.changes.value, p) ==>
              trace == [ManualNotice(world.changes.value), Applied]
    ensures ok <==>
              && world.planRuns && world.changes.Ok? && !Rejects(p)
              && (world.changes.value.noChanges
                  || ((ShouldApprove(world.changes.value, p) || world.confirms) && world.applySucceeds))
  {
    trace := [];
    if !world.planRuns {
      return false, [];
    }
    var approved;
    approved, trace := GetApproval(p, world);
    if approved.Err? {
      return false, trace;
    }
    if !approved.value {
      return true, trace;
    }
    trace := trace + [Applied];
    return world.applySucceeds, trace;
  }
}
