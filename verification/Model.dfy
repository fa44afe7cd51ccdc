/** The entities that the updater reads from the configuration and writes to the state file. */
module Model {
  import opened Versions

  /** The deprecated `approve` property of a step. */
  datatype Approve = ApproveUnset | ApproveMinor | ApproveMajor | ApproveAlways | ApproveNever
                   | ApproveForce | ApproveReject | ApproveOther(name: string)

  datatype StepType = Terraform | ArgoCD | OtherType

  /** `client` tells whether the source is a direct git reference rather than a module of a source. */
  datatype Module = Module(name: string, source: string, version: VersionText, client: bool)

  datatype Step = Step(name: string, kind: StepType, modules: seq<Module>, hasFiles: bool, approve: Approve)

  /** State entries are addressed by step and module name. */
  datatype ModuleId = ModuleId(step: string, name: string)

  datatype ModuleState = ModuleState(version: VersionText, applied: Option<VersionText>, source: string,
                                     autoApprove: bool)

  type State = map<ModuleId, ModuleState>

  const FRESH_MODULE := ModuleState(Blank, None, "", false)

  ghost predicate UniqueModules(step: Step) {
    forall i, j :: 0 <= i < j < |step.modules| ==> step.modules[i].name != step.modules[j].name
  }

  ghost predicate UniqueSteps(steps: seq<Step>) {
    && (forall i, j :: 0 <= i < j < |steps| ==> steps[i].name != steps[j].name)
    && (forall s :: s in steps ==> UniqueModules(s))
  }
}
