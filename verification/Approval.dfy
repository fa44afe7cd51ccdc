/** The approval policy that all three executors share. */
module Approval {
  import opened Versions
  import opened Model
  import Stepping

  datatype Changes = Changes(imported: int, added: int, changed: int, destroyed: int, noChanges: bool)

  datatype ManualApprove = ManualUnset | ManualAlways | ManualChanges | ManualRemoves | ManualNever | ManualReject
                         | ManualOther(name: string)

  /** What decides over one plan: the step's legacy policy, whether all its modules may be approved, and the manual
      policy. */
  datatype Policy = Policy(approve: Approve, autoApprove: bool, manual: ManualApprove)

  predicate Rejects(p: Policy) {
    p.approve.ApproveReject? || p.manual.ManualReject?
  }

  predicate ShouldStop(c: Changes, p: Policy) {
    p.approve.ApproveReject? || p.manual.ManualReject? || c.noChanges
  }

  predicate ShouldApprove(c: Changes, p: Policy) {
    if p.approve.ApproveForce? || p.manual.ManualNever? then true
    else if c.imported != 0 then false
    else if c.added == 0 && c.changed == 0 && c.destroyed == 0 then true
    else
      match p.manual
      case ManualAlways => false
      case ManualChanges => c.changed == 0 && c.destroyed == 0
      case ManualRemoves => c.destroyed == 0
      case _ => c.destroyed == 0 && (c.changed == 0 || p.autoApprove)
  }

  /** The manual policy of a step for a run or an update. */
  function GetManualApproval(approve: Approve, runApprove: ManualApprove, updateApprove: ManualApprove, run: bool)
    : ManualApprove
  {
    if !approve.ApproveUnset? || (runApprove.ManualUnset? && updateApprove.ManualUnset?) then ManualUnset
    else if run then (if runApprove.ManualUnset? then ManualChanges else runApprove)
    else if updateApprove.ManualUnset? then ManualRemoves
    else updateApprove
  }

  /** The agent approves alone only what destroys nothing, unless it is told to insist. */
  lemma NothingDestroyedAlone(c: Changes, p: Policy)
    requires ShouldApprove(c, p) && !p.approve.ApproveForce? && !p.manual.ManualNever?
    ensures c.destroyed == 0 && c.imported == 0
    ensures c.changed != 0 ==> p.autoApprove || p.manual.ManualRemoves?
    ensures c.changed != 0 || c.added != 0 ==> !p.manual.ManualAlways?
  {
  }

  ghost predicate AtMostCount(a: int, b: int) {
    0 <= a <= b
  }

  ghost predicate Fewer(a: Changes, b: Changes) {
    && AtMostCount(a.imported, b.imported) && AtMostCount(a.added, b.added)
    && AtMostCount(a.changed, b.changed) && AtMostCount(a.destroyed, b.destroyed)
  }

  /** From lenient to strict. */
  ghost function Strictness(m: ManualApprove): Option<nat> {
    match m
    case ManualNever => Some(0)
    case ManualRemoves => Some(1)
    case ManualChanges => Some(2)
    case ManualAlways => Some(3)
    case _ => None
  }

  /** A plan that changes less, under a policy that is at most as strict, is approved if the other one is. */
  lemma ApprovalIsAntitone(c: Changes, p: Policy, d: Changes, q: Policy)
    requires Fewer(c, d) && ShouldApprove(d, q) && p.approve == q.approve
    requires p.autoApprove || !q.autoApprove
    requires p.manual == q.manual
             || (Strictness(p.manual).Some? && Strictness(q.manual).Some?
                 && Strictness(p.manual).value <= Strictness(q.manual).value)
    ensures ShouldApprove(c, p)
  {
  }

  /** The strictness levels really differ: each decides some plan differently from the next. */
  lemma StrictnessIsStrict(approve: Approve, autoApprove: bool, level: nat) returns (c: Changes)
    requires level < 3 && !approve.ApproveForce?
    ensures forall m, n :: Strictness(m) == Some(level) && Strictness(n) == Some(level + 1) ==>
              ShouldApprove(c, Policy(approve, autoApprove, m)) && !ShouldApprove(c, Policy(approve, autoApprove, n))
  {
    c := if level == 0 then Changes(0, 0, 0, 1, false)
         else if level == 1 then Changes(0, 0, 1, 0, false)
         else Changes(0, 1, 0, 0, false);
  }

  /** All modules of a step may be approved. */
  function GetAutoApprove(modules: seq<ModuleState>): (r: bool)
    ensures r <==> forall m :: m in modules ==> m.autoApprove
  {
    if modules == [] then true
    else
      assert modules == [modules[0]] + modules[1..];
      modules[0].autoApprove && GetAutoApprove(modules[1..])
  }

  /** A legacy policy leaves no room for a manual one, and only lets changes through if all modules agree. */
  lemma LegacyPolicy(c: Changes, approve: Approve, modules: seq<ModuleState>, runApprove: ManualApprove,
                     updateApprove: ManualApprove, run: bool)
    requires !approve.ApproveUnset? && !approve.ApproveForce? && c.changed != 0
    ensures var p := Policy(approve, GetAutoApprove(modules), GetManualApproval(approve, runApprove, updateApprove, run));
            ShouldApprove(c, p) <==> c.imported == 0 && c.destroyed == 0 && forall m :: m in modules ==> m.autoApprove
  {
  }

  /** With one manual policy set, the other command gets its default: a run asks about changed or destroyed
      resources, an update about destroyed ones. */
  lemma ManualDefaults(c: Changes, autoApprove: bool, other: ManualApprove)
    requires !other.ManualUnset?
    requires c.imported >= 0 && c.added >= 0 && c.changed >= 0 && c.destroyed >= 0
    ensures ShouldApprove(c, Policy(ApproveUnset, autoApprove, GetManualApproval(ApproveUnset, ManualUnset, other, true)))
            <==> c.imported == 0 && c.changed == 0 && c.destroyed == 0
    ensures ShouldApprove(c, Policy(ApproveUnset, autoApprove, GetManualApproval(ApproveUnset, other, ManualUnset, false)))
            <==> c.imported == 0 && c.destroyed == 0
  {
  }

  /** With both manual policies set, a run is decided by the run's and an update by the update's: `reject` stops
      every plan; `always` leaves those that add, change or destroy to a person, `changes` those that change or destroy,
      `removes` those that destroy, and `never` none. */
  lemma ManualOwn(c: Changes, autoApprove: bool, runApprove: ManualApprove, updateApprove: ManualApprove, run: bool)
    requires !runApprove.ManualUnset? && !updateApprove.ManualUnset?
    requires c.imported == 0 && c.added >= 0 && c.changed >= 0 && c.destroyed >= 0
    ensures var own := if run then runApprove else updateApprove;
            var p := Policy(ApproveUnset, autoApprove, GetManualApproval(ApproveUnset, runApprove, updateApprove, run));
            && (own.ManualNever? ==> ShouldApprove(c, p))
            && (own.ManualRemoves? ==> (ShouldApprove(c, p) <==> c.destroyed == 0))
            && (own.ManualChanges? ==> (ShouldApprove(c, p) <==> c.changed == 0 && c.destroyed == 0))
            && (own.ManualAlways? ==> (ShouldApprove(c, p) <==> c.added == 0 && c.changed == 0 && c.destroyed == 0))
            && (own.ManualReject? ==> ShouldStop(c, p))
            && (!own.ManualReject? ==> (ShouldStop(c, p) <==> c.noChanges))
  {
  }

  /** The entries of a step's modules after their choice, if all of them have a source of their own. */
  ghost function ChosenClients(modules: seq<Module>, states: seq<ModuleState>, approve: Approve): seq<ModuleState>
    requires |states| == |modules|
  {
    seq(|modules|, i requires 0 <= i < |modules| => Stepping.ClientVersion(modules[i], states[i], approve).state)
  }

  /** Exactly when the agent alone approves changed resources of a step whose modules all have an external source:
      under every legacy policy but a missing one, `always` and `reject`. */
  lemma ExternalSourcesApproved(c: Changes, modules: seq<Module>, states: seq<ModuleState>, approve: Approve, run: bool)
    requires modules != [] && |states| == |modules| && forall m :: m in modules ==> m.client
    requires c.changed != 0 && c.imported == 0 && c.destroyed == 0
    ensures var p := Policy(approve, GetAutoApprove(ChosenClients(modules, states, approve)),
                            GetManualApproval(approve, ManualUnset, ManualUnset, run));
            ShouldApprove(c, p) <==> !approve.ApproveUnset? && !approve.ApproveAlways? && !approve.ApproveReject?
  {
    var after := ChosenClients(modules, states, approve);
    forall i | 0 <= i < |modules| ensures after[i].autoApprove == Stepping.StepAutoApprove(approve) {
      Stepping.ClientApproval(modules[i], states[i], approve);
    }
    assert after[0] in after;
  }

  /** With `minor` the agent approves a changed resource of a module with an external source, whose version it never
      compares; the documentation of the policy asks for a manual approval. */
  lemma MinorApprovesExternalSource(run: bool)
    ensures var m := Module("network", "https://example.org/network.git", Ref("main"), true);
            var p := Policy(ApproveMinor, GetAutoApprove(ChosenClients([m], [FRESH_MODULE], ApproveMinor)),
                            GetManualApproval(ApproveMinor, ManualUnset, ManualUnset, run));
            ShouldApprove(Changes(0, 0, 1, 0, false), p) && !ShouldStop(Changes(0, 0, 1, 0, false), p)
  {
    var m := Module("network", "https://example.org/network.git", Ref("main"), true);
    ExternalSourcesApproved(Changes(0, 0, 1, 0, false), [m], [FRESH_MODULE], ApproveMinor, run);
  }

  /** The entries of a step's modules after their choice at one release. */
  ghost function ChosenStates(modules: seq<Module>, states: seq<ModuleState>, sources: seq<Stepping.Source>, index: nat,
                        approve: Approve): seq<ModuleState>
    requires |states| == |modules| == |sources|
    requires forall i :: 0 <= i < |modules| ==> CanChoose(modules[i], states[i], sources[i], index, approve)
  {
    seq(|modules|, i requires 0 <= i < |modules| =>
      assert CanChoose(modules[i], states[i], sources[i], index, approve);
      if modules[i].client then Stepping.ClientVersion(modules[i], states[i], approve).state
      else Stepping.ModuleVersion(modules[i], states[i], sources[i], index, approve).value.state)
  }

  ghost predicate CanChoose(m: Module, ms: ModuleState, src: Stepping.Source, index: nat, approve: Approve) {
    !m.client ==> Stepping.ModuleVersion(m, ms, src, index, approve).Ok?
  }

  /** The legacy policy lets this module through: no versions of it are compared, or they share the segments that the
      policy names. */
  ghost predicate LetsThrough(m: Module, ms: ModuleState, src: Stepping.Source, index: nat, approve: Approve) {
    !m.client && Stepping.Compares(m, ms, src, index) ==>
      Stepping.KeepsSegments(approve, ms.applied.value.v, src.releases[index])
  }

  /** The mark of a module that the policy lets through, or not. */
  ghost predicate Marked(approve: Approve, through: bool) {
    || approve.ApproveNever? || approve.ApproveForce?
    || (!approve.ApproveUnset? && !approve.ApproveAlways? && !approve.ApproveReject? && through)
  }

  lemma ModuleMarked(m: Module, ms: ModuleState, src: Stepping.Source, index: nat, approve: Approve)
    requires CanChoose(m, ms, src, index, approve)
    ensures (if m.client then Stepping.ClientVersion(m, ms, approve).state
             else Stepping.ModuleVersion(m, ms, src, index, approve).value.state).autoApprove
            <==> Marked(approve, LetsThrough(m, ms, src, index, approve))
  {
    if m.client {
      Stepping.ClientApproval(m, ms, approve);
    } else {
      Stepping.LegacyApproval(m, ms, src, index, approve);
    }
  }

  lemma AllMarked(states: seq<ModuleState>)
    ensures GetAutoApprove(states) <==> forall i :: 0 <= i < |states| ==> states[i].autoApprove
  {
    assert forall i :: 0 <= i < |states| ==> states[i] in states;
  }

  /** Exactly when the agent alone approves changed resources of a step under its legacy policy: under `never` and
      `force`, and, unless the policy is missing, `always` or `reject`, if it lets every module through. */
  lemma ChangesApproved(c: Changes, modules: seq<Module>, states: seq<ModuleState>, sources: seq<Stepping.Source>,
                        index: nat, approve: Approve, run: bool)
    requires modules != [] && |states| == |modules| == |sources|
    requires forall i :: 0 <= i < |modules| ==> CanChoose(modules[i], states[i], sources[i], index, approve)
    requires c.changed != 0 && c.imported == 0 && c.destroyed == 0
    ensures var p := Policy(approve, GetAutoApprove(ChosenStates(modules, states, sources, index, approve)),
                            GetManualApproval(approve, ManualUnset, ManualUnset, run));
            ShouldApprove(c, p) <==>
            || approve.ApproveNever? || approve.ApproveForce?
            || (!approve.ApproveUnset? && !approve.ApproveAlways? && !approve.ApproveReject?
                && forall i :: 0 <= i < |modules| ==> LetsThrough(modules[i], states[i], sources[i], index, approve))
  {
    var after := ChosenStates(modules, states, sources, index, approve);
    forall i | 0 <= i < |modules| ensures after[i].autoApprove <==> Marked(approve, LetsThrough(modules[i], states[i], sources[i], index, approve)) {
      ModuleMarked(modules[i], states[i], sources[i], index, approve);
    }
    AllMarked(after);
  }

  /** With `minor` the agent approves a changed resource of a module that moves to another source, and by two major
      versions: nothing is compared. */
  lemma MinorApprovesNewSource(run: bool)
    ensures var low, high := Version(1, 0, 0), Version(3, 0, 0);
            var src := Stepping.Source("new", Blank, high, high, [low, high], (_: VersionText) => map[]);
            var m, ms := Module("m", "a/b", Blank, false), ModuleState(Tag(low), Some(Tag(low)), "old", false);
            && CanChoose(m, ms, src, 1, ApproveMinor)
            && Stepping.ModuleVersion(m, ms, src, 1, ApproveMinor).value.version == Tag(high)
            && ShouldApprove(Changes(0, 0, 1, 0, false),
                             Policy(ApproveMinor, GetAutoApprove(ChosenStates([m], [ms], [src], 1, ApproveMinor)),
                                    GetManualApproval(ApproveMinor, ManualUnset, ManualUnset, run)))
  {
    var low, high := Version(1, 0, 0), Version(3, 0, 0);
    var src := Stepping.Source("new", Blank, high, high, [low, high], (_: VersionText) => map[]);
    var m, ms := Module("m", "a/b", Blank, false), ModuleState(Tag(low), Some(Tag(low)), "old", false);
    ChangesApproved(Changes(0, 0, 1, 0, false), [m], [ms], [src], 1, ApproveMinor, run);
  }
}
