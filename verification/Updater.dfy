/** The updater: it walks the releases, and per release the steps, and decides for each step whether its
    pipeline has to run. */
module UpdaterModule {
  import opened Versions
  import opened Model
  import opened Stepping

  datatype Preparation = Prepared | MissingParameter | Broken

  /** Everything the updater cannot decide: whether a module's folder exists in its source at a version, whether a
      step's files can be prepared, whether other steps are still counted as running, whether providers, inputs or
      included files differ, whether checksums can be computed and whether the pipeline succeeds. `attempt` is 1
      when a step is retried. */
  datatype Environment = Environment(
    hasFolder: (nat, string, string, VersionText) -> bool,
    prepare: (nat, nat, string) -> Preparation,
    busy: (nat, nat, string) -> bool,
    otherChange: (nat, nat, string) -> bool,
    checksumsFail: nat -> bool,
    pipeline: (nat, nat, string) -> bool)

  /** A retried step misses a parameter while another step is still counted: it is deferred again, and forgotten. */
  ghost predicate DefersAgain(env: Environment, index: nat, name: string) {
    env.prepare(index, 1, name) == MissingParameter && env.busy(index, 1, name)
  }

  ghost predicate LosesAt(env: Environment, index: nat) {
    exists name :: DefersAgain(env, index, name)
  }

  ghost predicate Loses(env: Environment) {
    exists index :: LosesAt(env, index)
  }

  /** Nothing outside the updater goes wrong. */
  ghost predicate Smooth(env: Environment) {
    && (forall index, name, m, v :: env.hasFolder(index, name, m, v))
    && (forall index, attempt, name ::
          env.prepare(index, attempt, name) == Prepared && env.pipeline(index, attempt, name))
    && (forall index :: !env.checksumsFail(index))
  }

  datatype Effect = Skipped | Vouched | Executed

  datatype Outcome = Done(effect: Effect) | Deferred | Failed

  ghost predicate Runnable(step: Step) {
    !step.kind.OtherType? && (step.kind.Terraform? ==> step.modules != [])
  }

  function ModuleKey(step: Step, m: Module): string {
    if step.kind.ArgoCD? then "modules/k8s/" + m.source else "modules/" + m.source
  }

  const NO_SOURCE := Source("", Ref(""), Version(0, 0, 0), Version(0, 0, 0), [], (_: VersionText) => map[])

  /** What the updater holds between two releases; `runs` are the versions of the last successful pipelines. */
  datatype Standing = Standing(state: State, previous: map<SourceKey, Checksums>, current: map<SourceKey, Checksums>,
                               firstRuns: set<string>, runs: map<ModuleId, VersionText>)

  class Updater {
    const config: seq<Step>
    const steps: seq<Step>
    const home: map<string, SourceKey>
    const sources: map<SourceKey, Source>

    var state: State
    var previous: map<SourceKey, Checksums>
    var current: map<SourceKey, Checksums>
    var firstRunDone: set<string>
    /** The version each module had when the pipeline of its step last succeeded. */
    ghost var executed: map<ModuleId, VersionText>

    ghost function Now(): Standing
      reads this
    {
      Standing(state, previous, current, firstRunDone, executed)
    }

    ghost predicate Valid() {
      && UniqueSteps(steps)
      && (forall s :: s in steps ==> s in config)
      && (forall key :: key in sources ==> ValidSource(sources[key]))
      && (forall s, m :: s in steps && m in s.modules && !m.client ==> m.source in home && home[m.source] in sources)
    }

    /** The source that provides a module; a client module has none. */
    function SourceOf(m: Module): Source {
      if m.source in home && home[m.source] in sources then sources[home[m.source]] else NO_SOURCE
    }

    constructor (config: seq<Step>, steps: seq<Step>, home: map<string, SourceKey>, sources: map<SourceKey, Source>,
                 state: State)
      ensures this.config == config && this.steps == steps && this.home == home && this.sources == sources
      ensures this.state == state
      ensures previous == map[] && current == map[] && firstRunDone == {} && executed == map[]
    {
      this.config, this.steps, this.home, this.sources := config, steps, home, sources;
      this.state := state;
      previous, current, firstRunDone, executed := map[], map[], {}, map[];
    }

    function Choice(m: Module, ms: ModuleState, index: nat, approve: Approve): Result<Chosen> {
      if m.client then Ok(ClientVersion(m, ms, approve)) else ModuleVersion(m, ms, SourceOf(m), index, approve)
    }

    ghost predicate Untouched<T>(step: Step, before: map<ModuleId, T>, after: map<ModuleId, T>) {
      forall id: ModuleId :: id.step != step.name ==>
        (id in after <==> id in before) && (id in after ==> after[id] == before[id])
    }

    ghost predicate IsChosen(step: Step, m: Module, index: nat, before: State, after: State,
                                versions: map<string, VersionText>)
    {
      var id := ModuleId(step.name, m.name);
      && id in before && id in after && m.name in versions
      && Choice(m, before[id], index, step.approve).Ok?
      && after[id] == Choice(m, before[id], index, step.approve).value.state
      && versions[m.name] == Choice(m, before[id], index, step.approve).value.version
    }

    ghost predicate ChangedModule(step: Step, m: Module, index: nat, before: State) {
      var id := ModuleId(step.name, m.name);
      id in before && Choice(m, before[id], index, step.approve).Ok? && Choice(m, before[id], index, step.approve).value.changed
    }

    ghost predicate CannotChoose(step: Step, index: nat, before: State) {
      exists m :: m in step.modules && ModuleId(step.name, m.name) in before
                  && Choice(m, before[ModuleId(step.name, m.name)], index, step.approve).Err?
    }

    ghost predicate SomeCannotChoose(index: nat, before: State) {
      exists s :: s in steps && CannotChoose(s, index, before)
    }

    ghost predicate AllRunnable() {
      forall s :: s in steps ==> Runnable(s)
    }

    /** `after` is `before` with the choice made for each module of the step. */
    ghost predicate Chose(step: Step, index: nat, before: State, after: State, versions: map<string, VersionText>) {
      && after.Keys == before.Keys
      && (forall m :: m in step.modules ==> IsChosen(step, m, index, before, after, versions))
      && (forall id :: id in before && id.step != step.name ==> after[id] == before[id])
    }

    function Reconciled(st: State): State {
      var configured := set s, m | s in config && m in s.modules :: ModuleId(s.name, m.name);
      map id | id in configured :: if id in st then st[id] else FRESH_MODULE
    }

    /** One entry per configured module: a known entry is kept, a new one is fresh, and the others are dropped. */
    method UpdateState()
      modifies this`state
      ensures forall id :: id in state <==> exists s, m :: s in config && m in s.modules && id == ModuleId(s.name, m.name)
      ensures forall id :: id in state && id in old(state) ==> state[id] == old(state)[id]
      ensures forall id :: id in state && id !in old(state) ==> state[id] == ModuleState(Blank, None, "", false)
      ensures state == Reconciled(old(state))
    {
      state := Reconciled(state);
    }

    ghost predicate SourceChecksumsAt(sums: map<SourceKey, Checksums>, key: SourceKey, index: nat)
      requires Valid() && key in sources
    {
      key in sums && sums[key] == sources[key].sums(ReleaseAt(sources[key], index))
    }

    ghost predicate ChecksumsAt(sums: map<SourceKey, Checksums>, index: nat)
      requires Valid()
    {
      forall key {:trigger SourceChecksumsAt(sums, key, index)} :: key in sources ==> SourceChecksumsAt(sums, key, index)
    }

    method UpdateChecksums(index: nat, env: Environment) returns (ok: bool)
      requires Valid()
      modifies this`current
      ensures ok == !env.checksumsFail(index)
      ensures ok ==> current.Keys <= old(current).Keys + sources.Keys
      ensures ok ==> forall key :: key in sources ==>
                if index != 1 && |sources[key].releases| - 1 < index
                then (key in current <==> key in old(current)) && (key in current ==> current[key] == old(current)[key])
                else key in current && current[key] == sources[key].sums(ReleaseAt(sources[key], index))
      ensures ok && (index == 1 || (index > 1 && ChecksumsAt(old(current), index - 1))) ==> ChecksumsAt(current, index)
    {
      if env.checksumsFail(index) {
        return false;
      }
      var todo := sources.Keys;
      while todo != {}
        invariant todo <= sources.Keys
        invariant current.Keys <= old(current).Keys + sources.Keys
        invariant forall key :: key in sources && key in todo ==>
                    (key in current <==> key in old(current)) && (key in current ==> current[key] == old(current)[key])
        invariant forall key :: key in sources && key !in todo ==>
                    if index != 1 && |sources[key].releases| - 1 < index
                    then (key in current <==> key in old(current)) && (key in current ==> current[key] == old(current)[key])
                    else key in current && current[key] == sources[key].sums(ReleaseAt(sources[key], index))
      {
        var key :| key in todo;
        var src := sources[key];
        if !(index != 1 && |src.releases| - 1 < index) {
          current := current[key := src.sums(ReleaseAt(src, index))];
        }
        todo := todo - {key};
      }
      if index == 1 || (index > 1 && ChecksumsAt(old(current), index - 1)) {
        forall key | key in sources ensures SourceChecksumsAt(current, key, index) {
          assert index > 1 ==> SourceChecksumsAt(old(current), key, index - 1);
        }
      }
      return true;
    }

    /** A module changes to a version at which its source has no such folder. */
    ghost predicate NotProvided(step: Step, m: Module, index: nat, before: State, env: Environment) {
      var id := ModuleId(step.name, m.name);
      && id in before && !m.client && Choice(m, before[id], index, step.approve).Ok?
      && var c := Choice(m, before[id], index, step.approve).value;
         c.changed && !env.hasFolder(index, step.name, m.name, c.version)
    }

    ghost predicate MissesModule(step: Step, index: nat, before: State, env: Environment) {
      exists m :: m in step.modules && NotProvided(step, m, index, before, env)
    }

    method ChooseModule(step: Step, m: Module, index: nat, env: Environment, ghost before: State,
                        versions: map<string, VersionText>)
      returns (r: Result<map<string, VersionText>>, changed: bool)
      requires ModuleId(step.name, m.name) in state && ModuleId(step.name, m.name) in before
      requires state[ModuleId(step.name, m.name)] == before[ModuleId(step.name, m.name)]
      modifies this`state
      ensures r.Ok? ==> IsChosen(step, m, index, before, state, r.value)
      ensures r.Ok? ==> r.value == versions[m.name := r.value[m.name]]
      ensures r.Ok? ==> (changed <==> ChangedModule(step, m, index, before))
      ensures ModuleId(step.name, m.name) in state
              && state == old(state)[ModuleId(step.name, m.name) := state[ModuleId(step.name, m.name)]]
      ensures r.Err? <==> Choice(m, before[ModuleId(step.name, m.name)], index, step.approve).Err?
                          || NotProvided(step, m, index, before, env)
    {
      var id := ModuleId(step.name, m.name);
      var chosen := Choice(m, state[id], index, step.approve);
      if chosen.Err? {
        assert state == state[id := state[id]];
        return Err(chosen.why), false;
      }
      state := state[id := chosen.value.state];
      if chosen.value.changed && !m.client && !env.hasFolder(index, step.name, m.name, chosen.value.version) {
        return Err("module path not found"), false;
      }
      return Ok(versions[m.name := chosen.value.version]), chosen.value.changed;
    }

    /** The choices made so far stay when another module of the step is chosen. */
    lemma ChosenStays(step: Step, m: Module, other: Module, index: nat, before: State, now: State, next: State,
                      versions: map<string, VersionText>, more: map<string, VersionText>)
      requires m.name != other.name && IsChosen(step, m, index, before, now, versions)
      requires ModuleId(step.name, other.name) in next && other.name in more
      requires next == now[ModuleId(step.name, other.name) := next[ModuleId(step.name, other.name)]]
      requires more == versions[other.name := more[other.name]]
      ensures IsChosen(step, m, index, before, next, more)
    {
    }

    /** The first `i` modules of the step are chosen, the others are as they were. */
    ghost predicate ChosenUpTo(step: Step, i: nat, index: nat, before: State, now: State, versions: map<string, VersionText>)
      requires i <= |step.modules|
    {
      && now.Keys == before.Keys
      && (forall k :: 0 <= k < i ==> IsChosen(step, step.modules[k], index, before, now, versions))
      && (forall k :: i <= k < |step.modules| ==>
            var id := ModuleId(step.name, step.modules[k].name);
            id in before && now[id] == before[id])
      && (forall id :: id in before && id.step != step.name ==> now[id] == before[id])
    }

    lemma ChosenNext(step: Step, i: nat, index: nat, before: State, now: State, next: State,
                     versions: map<string, VersionText>, more: map<string, VersionText>)
      requires UniqueModules(step) && i < |step.modules| && ChosenUpTo(step, i, index, before, now, versions)
      requires IsChosen(step, step.modules[i], index, before, next, more)
      requires next == now[ModuleId(step.name, step.modules[i].name) := next[ModuleId(step.name, step.modules[i].name)]]
      requires more == versions[step.modules[i].name := more[step.modules[i].name]]
      ensures ChosenUpTo(step, i + 1, index, before, next, more)
    {
      forall k | 0 <= k < i ensures IsChosen(step, step.modules[k], index, before, next, more) {
        ChosenStays(step, step.modules[k], step.modules[i], index, before, now, next, versions, more);
      }
    }

    /** Chooses a version for each module of the step and writes it to the state; a changed module must exist at
        its new version. */
    method UpdateModuleVersions(step: Step, index: nat, env: Environment)
      returns (r: Result<map<string, VersionText>>, changed: bool)
      requires UniqueModules(step)
      requires forall m :: m in step.modules ==> ModuleId(step.name, m.name) in state
      modifies this`state
      ensures state.Keys == old(state).Keys && Untouched(step, old(state), state)
      ensures r.Ok? ==> Chose(step, index, old(state), state, r.value)
      ensures r.Ok? ==> (changed <==> exists m :: m in step.modules && ChangedModule(step, m, index, old(state)))
      ensures r.Err? <==> CannotChoose(step, index, old(state)) || MissesModule(step, index, old(state), env)
    {
      var versions: map<string, VersionText> := map[];
      changed := false;
      for i := 0 to |step.modules|
        invariant ChosenUpTo(step, i, index, old(state), state, versions)
        invariant ReportedUpTo(step, i, index, old(state), env, changed)
      {
        var m := step.modules[i];
        label before:
        var chosen, moved := ChooseModule(step, m, index, env, old(state), versions);
        if chosen.Err? {
          CannotGoOn(step, i, index, old(state), old@before(state), state, env);
          return chosen, false;
        }
        ChosenNext(step, i, index, old(state), old@before(state), state, versions, chosen.value);
        ReportedNext(step, i, index, old(state), env, changed, moved);
        versions := chosen.value;
        changed := changed || moved;
      }
      ChosenAll(step, index, old(state), state, env, versions, changed);
      return Ok(versions), changed;
    }

    /** Whether one of the first `i` modules changed; none of them is missing in its source. */
    ghost predicate ReportedUpTo(step: Step, i: nat, index: nat, before: State, env: Environment, changed: bool)
      requires i <= |step.modules|
    {
      && (changed <==> exists k :: 0 <= k < i && ChangedModule(step, step.modules[k], index, before))
      && (forall k :: 0 <= k < i ==> !NotProvided(step, step.modules[k], index, before, env))
    }

    lemma ReportedNext(step: Step, i: nat, index: nat, before: State, env: Environment, changed: bool, moved: bool)
      requires i < |step.modules| && ReportedUpTo(step, i, index, before, env, changed)
      requires moved <==> ChangedModule(step, step.modules[i], index, before)
      requires !NotProvided(step, step.modules[i], index, before, env)
      ensures ReportedUpTo(step, i + 1, index, before, env, changed || moved)
    {
    }

    lemma CannotGoOn(step: Step, i: nat, index: nat, before: State, now: State, next: State, env: Environment)
      requires i < |step.modules| && now.Keys == before.Keys && ModuleId(step.name, step.modules[i].name) in before
      requires forall id :: id in before && id.step != step.name ==> now[id] == before[id]
      requires ModuleId(step.name, step.modules[i].name) in next
      requires next == now[ModuleId(step.name, step.modules[i].name) := next[ModuleId(step.name, step.modules[i].name)]]
      requires Choice(step.modules[i], before[ModuleId(step.name, step.modules[i].name)], index, step.approve).Err?
               || NotProvided(step, step.modules[i], index, before, env)
      ensures CannotChoose(step, index, before) || MissesModule(step, index, before, env)
      ensures next.Keys == before.Keys && Untouched(step, before, next)
    {
    }

    lemma ChosenAll(step: Step, index: nat, before: State, now: State, env: Environment,
                    versions: map<string, VersionText>, changed: bool)
      requires ChosenUpTo(step, |step.modules|, index, before, now, versions)
      requires ReportedUpTo(step, |step.modules|, index, before, env, changed)
      ensures Chose(step, index, before, now, versions) && Untouched(step, before, now)
      ensures changed <==> exists m :: m in step.modules && ChangedModule(step, m, index, before)
      ensures !CannotChoose(step, index, before) && !MissesModule(step, index, before, env)
    {
    }

    /** The checksum of a folder in the source of a module is known at both releases and equal. */
    ghost predicate SameEntry(m: Module, folder: string, previous: map<SourceKey, Checksums>, current: map<SourceKey, Checksums>) {
      m.source in home &&
      var key := home[m.source];
      && key in previous && key in current && folder in previous[key] && folder in current[key]
      && previous[key][folder] == current[key][folder]
    }

    /** The folder of a module is the one below modules/k8s in an ArgoCD step, and the one below modules in others. */
    ghost predicate FolderUnchanged(step: Step, m: Module, previous: map<SourceKey, Checksums>,
                                    current: map<SourceKey, Checksums>)
    {
      && (step.kind.ArgoCD? ==> SameEntry(m, "modules/k8s/" + m.source, previous, current))
      && (!step.kind.ArgoCD? ==> SameEntry(m, "modules/" + m.source, previous, current))
    }

    /** No other entry of the checksums has an influence. */
    lemma OnlyTheFolderCounts(step: Step, m: Module, previous: map<SourceKey, Checksums>, current: map<SourceKey, Checksums>,
                              was: map<SourceKey, Checksums>, now: map<SourceKey, Checksums>)
      requires m.source in home && home[m.source] in previous && home[m.source] in current
      requires home[m.source] in was && home[m.source] in now
      requires var key, folder := home[m.source], if step.kind.ArgoCD? then "modules/k8s/" + m.source else "modules/" + m.source;
               SameFolder(folder, previous[key], was[key]) && SameFolder(folder, current[key], now[key])
      ensures FolderUnchanged(step, m, previous, current) <==> FolderUnchanged(step, m, was, now)
    {
    }

    method ChangedModules(step: Step) returns (changed: seq<string>)
      ensures changed == [] <==> forall m :: m in step.modules && !m.client ==> FolderUnchanged(step, m, previous, current)
      ensures forall m :: m in step.modules && !m.client && !FolderUnchanged(step, m, previous, current) ==> m.name in changed
    {
      changed := [];
      for i := 0 to |step.modules|
        invariant changed == [] <==> forall m :: m in step.modules[..i] && !m.client ==> FolderUnchanged(step, m, previous, current)
        invariant forall m :: m in step.modules[..i] && !m.client && !FolderUnchanged(step, m, previous, current) ==> m.name in changed
      {
        var m := step.modules[i];
        assert step.modules[..i + 1] == step.modules[..i] + [m];
        if !m.client {
          var same := SameChecksum(m, ModuleKey(step, m));
          if !same {
            changed := changed + [m.name];
          }
        }
      }
    }

    method SameChecksum(m: Module, folder: string) returns (same: bool)
      ensures same <==> SameEntry(m, folder, previous, current)
    {
      if m.source !in home || home[m.source] !in previous || home[m.source] !in current {
        return false;
      }
      var before, now := previous[home[m.source]], current[home[m.source]];
      if folder !in before || folder !in now {
        return false;
      }
      return before[folder] == now[folder];
    }

    method HasChanged(step: Step, otherChange: bool) returns (changed: bool)
      ensures !changed <==> !otherChange && forall m :: m in step.modules ==> !m.client && FolderUnchanged(step, m, previous, current)
    {
      var folders := ChangedModules(step);
      var client := exists m :: m in step.modules && m.client;
      return otherChange || folders != [] || client;
    }

    /** Copies the chosen version of every module of the step to its applied version. */
    method PutApplied(step: Step)
      modifies this`state
      ensures state.Keys == old(state).Keys
      ensures forall id :: id in state ==>
                state[id] == if id.step == step.name then Recorded(old(state)[id]) else old(state)[id]
    {
      state := map id | id in state :: if id.step == step.name then Recorded(state[id]) else state[id];
    }

    /** Nothing that the pipeline of the step depends on differs from the release before. */
    ghost predicate Unchanged(step: Step, index: nat, attempt: nat, env: Environment)
      reads this`previous, this`current
    {
      && !env.otherChange(index, attempt, step.name)
      && forall m :: m in step.modules ==> !m.client && FolderUnchanged(step, m, previous, current)
    }

    /** The step has something to run: a module that changes its version, or files of its own. */
    ghost predicate HasWork(step: Step, index: nat, before: State) {
      if step.kind.ArgoCD? then step.modules != []
      else step.hasFiles || exists m :: m in step.modules && ChangedModule(step, m, index, before)
    }

    /** Skips the step, records it without running it, or runs its pipeline and records it. */
    method ApplyRelease(step: Step, index: nat, attempt: nat, execute: bool, versions: map<string, VersionText>,
                        env: Environment)
      returns (r: Option<Effect>)
      modifies this`state, this`executed
      ensures r == None || r == Some(Skipped) ==> state == old(state) && executed == old(executed)
      ensures r == Some(Skipped) <==> step.name in firstRunDone && !execute
      ensures r == Some(Vouched) <==> step.name in firstRunDone && execute && Unchanged(step, index, attempt, env)
      ensures r == Some(Vouched) ==> executed == old(executed)
      ensures r == Some(Vouched) || r == Some(Executed) ==>
                && state.Keys == old(state).Keys
                && forall id :: id in state ==>
                     state[id] == if id.step == step.name then Recorded(old(state)[id]) else old(state)[id]
      ensures r == Some(Executed) ==>
                && Untouched(step, old(executed), executed)
                && forall name :: name in versions ==>
                     ModuleId(step.name, name) in executed && executed[ModuleId(step.name, name)] == versions[name]
      ensures r == None || r == Some(Executed) ==> (r == None <==> !env.pipeline(index, attempt, step.name))
    {
      var firstRun := step.name !in firstRunDone;
      if !execute && !firstRun {
        return Some(Skipped);
      }
      if !firstRun {
        var changed := HasChanged(step, env.otherChange(index, attempt, step.name));
        if !changed {
          PutApplied(step);
          return Some(Vouched);
        }
      }
      if !env.pipeline(index, attempt, step.name) {
        return None;
      }
      PutExecuted(step, versions);
      PutApplied(step);
      return Some(Executed);
    }

    /** Remembers the versions that the pipeline of the step ran. */
    ghost method PutExecuted(step: Step, versions: map<string, VersionText>)
      modifies this`executed
      ensures Untouched(step, old(executed), executed)
      ensures forall name :: name in versions ==>
                ModuleId(step.name, name) in executed && executed[ModuleId(step.name, name)] == versions[name]
    {
      executed := (map id | id in executed && id.step != step.name :: executed[id])
      + (map name | name in versions :: ModuleId(step.name, name) := versions[name]);
    }

    /** What processing a step did to one of its modules, from the state and the last pipeline before it. */
    ghost predicate ModuleProcessed(step: Step, m: Module, index: nat, effect: Effect, before: State, after: State,
                                    ran: map<ModuleId, VersionText>, runs: map<ModuleId, VersionText>)
    {
      var id := ModuleId(step.name, m.name);
      && id in before && id in after && Choice(m, before[id], index, step.approve).Ok?
      && var c := Choice(m, before[id], index, step.approve).value;
         && after[id] == (if effect == Skipped then c.state else Recorded(c.state))
         && (effect == Skipped ==> !c.changed)
         && (effect == Executed ==> id in runs && runs[id] == c.version)
         && (effect != Executed ==> (id in runs <==> id in ran) && (id in runs ==> runs[id] == ran[id]))
    }

    ghost predicate StepProcessed(step: Step, index: nat, effect: Effect, before: State, after: State,
                                  ran: map<ModuleId, VersionText>, runs: map<ModuleId, VersionText>)
    {
      forall m :: m in step.modules ==> ModuleProcessed(step, m, index, effect, before, after, ran, runs)
    }

    /** The versions of the step are chosen but nothing is applied. */
    ghost predicate StepPending(step: Step, index: nat, before: State, after: State,
                                ran: map<ModuleId, VersionText>, runs: map<ModuleId, VersionText>)
    {
      forall m :: m in step.modules ==>
        var id := ModuleId(step.name, m.name);
        && id in before && id in after && Choice(m, before[id], index, step.approve).Ok?
        && after[id] == Choice(m, before[id], index, step.approve).value.state
        && (id in runs <==> id in ran) && (id in runs ==> runs[id] == ran[id])
    }

    /** What may leave a step without running its pipeline. */
    ghost predicate SkipAllowed(step: Step, effect: Effect, firstRuns: set<string>,
                                previous: map<SourceKey, Checksums>, current: map<SourceKey, Checksums>)
    {
      && (effect != Executed ==> step.name in firstRuns)
      && (effect == Vouched ==> forall m :: m in step.modules ==> !m.client && FolderUnchanged(step, m, previous, current))
    }

    /** What applying the chosen versions makes of the state and of the last pipelines. */
    ghost predicate EffectTaken(step: Step, effect: Effect, versions: map<string, VersionText>, chosen: State, after: State,
                                ran: map<ModuleId, VersionText>, runs: map<ModuleId, VersionText>)
    {
      && (effect == Skipped ==> after == chosen)
      && (effect != Skipped ==>
            && after.Keys == chosen.Keys
            && forall id :: id in after ==> after[id] == if id.step == step.name then Recorded(chosen[id]) else chosen[id])
      && (effect != Executed ==> runs == ran)
      && (effect == Executed ==> forall name :: name in versions ==>
            ModuleId(step.name, name) in runs && runs[ModuleId(step.name, name)] == versions[name])
    }

    lemma StepIsProcessed(step: Step, index: nat, effect: Effect, versions: map<string, VersionText>, before: State,
                          chosen: State, after: State, ran: map<ModuleId, VersionText>, runs: map<ModuleId, VersionText>)
      requires Chose(step, index, before, chosen, versions)
      requires EffectTaken(step, effect, versions, chosen, after, ran, runs)
      requires effect == Skipped ==> forall m :: m in step.modules ==> !ChangedModule(step, m, index, before)
      ensures StepProcessed(step, index, effect, before, after, ran, runs)
    {
      forall m | m in step.modules ensures ModuleProcessed(step, m, index, effect, before, after, ran, runs) {
        assert IsChosen(step, m, index, before, chosen, versions) && !(effect == Skipped && ChangedModule(step, m, index, before));
      }
    }

    method ProcessStep(index: nat, attempt: nat, step: Step, env: Environment) returns (outcome: Outcome)
      requires UniqueModules(step)
      requires forall m :: m in step.modules ==> ModuleId(step.name, m.name) in state
      modifies this`state, this`executed, this`firstRunDone
      ensures state.Keys == old(state).Keys
      ensures Untouched(step, old(state), state) && Untouched(step, old(executed), executed)
      ensures firstRunDone == old(firstRunDone) + (if outcome.Done? then {step.name} else {})
      ensures outcome.Done? ==>
                && StepProcessed(step, index, outcome.effect, old(state), state, old(executed), executed)
                && SkipAllowed(step, outcome.effect, old(firstRunDone), previous, current)
      ensures outcome.Done? ==>
                var first, work := step.name !in old(firstRunDone), HasWork(step, index, old(state));
                && (outcome.effect == Skipped <==> !first && !work)
                && (outcome.effect == Vouched <==> !first && work && Unchanged(step, index, attempt, env))
      ensures outcome.Deferred? ==>
                && StepPending(step, index, old(state), state, old(executed), executed)
                && env.prepare(index, attempt, step.name) == MissingParameter && env.busy(index, attempt, step.name)
      ensures outcome.Failed? && Smooth(env) && Runnable(step) ==> CannotChoose(step, index, old(state))
      ensures CannotChoose(step, index, old(state)) || MissesModule(step, index, old(state), env) ==> outcome.Failed?
      ensures outcome.Done? ==> Runnable(step)
    {
      var versions, changed := UpdateModuleVersions(step, index, env);
      label chosen:
      if versions.Err? {
        return Failed;
      }
      var preparation := env.prepare(index, attempt, step.name);
      if preparation == MissingParameter && env.busy(index, attempt, step.name) {
        return Deferred;
      }
      if preparation != Prepared {
        return Failed;
      }
      if step.kind.OtherType? || (step.kind.Terraform? && step.modules == []) {
        return Failed;
      }
      var execute := if step.kind.ArgoCD? then step.modules != [] else changed || step.hasFiles;
      var effect := ApplyRelease(step, index, attempt, execute, versions.value, env);
      if effect == None {
        return Failed;
      }
      StepIsProcessed(step, index, effect.value, versions.value, old(state), old@chosen(state), state, old(executed), executed);
      firstRunDone := firstRunDone + {step.name};
      return Done(effect.value);
    }

    /** A step whose versions were chosen and that was processed later has been processed as if at once. */
    lemma RetriedStep(step: Step, index: nat, effect: Effect, s0: State, s1: State, s2: State,
                      r0: map<ModuleId, VersionText>, r1: map<ModuleId, VersionText>, r2: map<ModuleId, VersionText>)
      requires StepPending(step, index, s0, s1, r0, r1)
      requires StepProcessed(step, index, effect, s1, s2, r1, r2)
      ensures StepProcessed(step, index, effect, s0, s2, r0, r2)
    {
      forall m | m in step.modules ensures ModuleProcessed(step, m, index, effect, s0, s2, r0, r2) {
        var id := ModuleId(step.name, m.name);
        assert ModuleProcessed(step, m, index, effect, s1, s2, r1, r2);
        if !m.client {
          ChoosingAgain(m, s0[id], SourceOf(m), index, step.approve);
        }
      }
    }

    ghost predicate StepSame(step: Step, before: State, after: State,
                             ran: map<ModuleId, VersionText>, runs: map<ModuleId, VersionText>)
    {
      forall m :: m in step.modules ==>
        var id := ModuleId(step.name, m.name);
        && id in before && id in after && after[id] == before[id]
        && (id in runs <==> id in ran) && (id in runs ==> runs[id] == ran[id])
    }

    /** How far a step has come: None is waiting for its retry. */
    ghost predicate Progress(step: Step, index: nat, effect: Option<Effect>, before: State, after: State,
                             ran: map<ModuleId, VersionText>, runs: map<ModuleId, VersionText>)
    {
      match effect
      case Some(e) => StepProcessed(step, index, e, before, after, ran, runs)
      case None => StepPending(step, index, before, after, ran, runs)
    }

    lemma OtherStep(other: Step, step: Step, index: nat, effect: Option<Effect>, s0: State, s1: State, s2: State,
                    r0: map<ModuleId, VersionText>, r1: map<ModuleId, VersionText>, r2: map<ModuleId, VersionText>)
      requires other.name != step.name && Untouched(step, s1, s2) && Untouched(step, r1, r2)
      ensures Progress(other, index, effect, s0, s1, r0, r1) ==> Progress(other, index, effect, s0, s2, r0, r2)
      ensures StepSame(other, s0, s1, r0, r1) ==> StepSame(other, s0, s2, r0, r2)
    {
      if effect.Some? && StepProcessed(other, index, effect.value, s0, s1, r0, r1) {
        forall m | m in other.modules ensures ModuleProcessed(other, m, index, effect.value, s0, s2, r0, r2) {
          assert ModuleProcessed(other, m, index, effect.value, s0, s1, r0, r1);
        }
      }
    }

    /** A step processed from an unchanged entry has been processed from the entry itself. */
    lemma FirstAttempt(step: Step, index: nat, effect: Option<Effect>, s0: State, s1: State, s2: State,
                       r0: map<ModuleId, VersionText>, r1: map<ModuleId, VersionText>, r2: map<ModuleId, VersionText>)
      requires StepSame(step, s0, s1, r0, r1)
      requires Progress(step, index, effect, s1, s2, r1, r2)
      ensures Progress(step, index, effect, s0, s2, r0, r2)
    {
      if effect.Some? {
        forall m | m in step.modules ensures ModuleProcessed(step, m, index, effect.value, s0, s2, r0, r2) {
          assert ModuleProcessed(step, m, index, effect.value, s1, s2, r1, r2);
        }
      }
    }

    /** The first `upto` steps have come as far as `done` says and the others are as they were. */
    ghost predicate Walked(index: nat, done: seq<Option<Effect>>, upto: nat, s0: State, s1: State,
                           r0: map<ModuleId, VersionText>, r1: map<ModuleId, VersionText>)
    {
      && |done| == upto <= |steps|
      && (forall j :: 0 <= j < upto ==> Progress(steps[j], index, done[j], s0, s1, r0, r1))
      && (forall j :: upto <= j < |steps| ==> StepSame(steps[j], s0, s1, r0, r1))
    }

    /** Which steps have had their first run, and why the others could do without one. */
    ghost predicate FirstRuns(done: seq<Option<Effect>>, before: set<string>, after: set<string>,
                              previous: map<SourceKey, Checksums>, current: map<SourceKey, Checksums>)
    {
      forall j :: 0 <= j < |steps| ==>
        if j < |done| && done[j].Some? then steps[j].name in after && SkipAllowed(steps[j], done[j].value, before, previous, current)
        else (steps[j].name in after <==> steps[j].name in before)
    }

    lemma StepWalked(index: nat, done: seq<Option<Effect>>, i: nat, here: Option<Effect>,
                     s0: State, s1: State, s2: State,
                     r0: map<ModuleId, VersionText>, r1: map<ModuleId, VersionText>, r2: map<ModuleId, VersionText>)
      requires UniqueSteps(steps) && i < |steps| && Walked(index, done, |done|, s0, s1, r0, r1)
      requires Untouched(steps[i], s1, s2) && Untouched(steps[i], r1, r2)
      requires Progress(steps[i], index, here, s1, s2, r1, r2)
      requires i == |done| || (i < |done| && done[i] == None && here.Some?)
      ensures i == |done| ==> Walked(index, done + [here], i + 1, s0, s2, r0, r2)
      ensures i < |done| ==> Walked(index, done[i := here], |done|, s0, s2, r0, r2)
    {
      if i == |done| {
        FirstAttempt(steps[i], index, here, s0, s1, s2, r0, r1, r2);
      } else {
        assert Progress(steps[i], index, done[i], s0, s1, r0, r1);
        RetriedStep(steps[i], index, here.value, s0, s1, s2, r0, r1, r2);
      }
      forall j | 0 <= j < |steps| && j != i {
        OtherStep(steps[j], steps[i], index, if j < |done| then done[j] else None, s0, s1, s2, r0, r1, r2);
      }
    }

    lemma StepRun(done: seq<Option<Effect>>, i: nat, here: Option<Effect>,
                  s0: set<string>, s1: set<string>, s2: set<string>,
                  previous: map<SourceKey, Checksums>, current: map<SourceKey, Checksums>)
      requires UniqueSteps(steps) && i < |steps| && FirstRuns(done, s0, s1, previous, current)
      requires s2 == s1 + (if here.Some? then {steps[i].name} else {})
      requires here.Some? ==> SkipAllowed(steps[i], here.value, s1, previous, current)
      requires i == |done| || (i < |done| && done[i] == None && here.Some?)
      ensures i == |done| ==> FirstRuns(done + [here], s0, s2, previous, current)
      ensures i < |done| ==> FirstRuns(done[i := here], s0, s2, previous, current)
    {
      assert steps[i].name in s1 <==> steps[i].name in s0;
      forall j | 0 <= j < |steps| && j != i
        ensures steps[j].name != steps[i].name
      {
        assert if i < j then steps[i].name != steps[j].name else steps[j].name != steps[i].name;
      }
    }

    lemma StillCannotChoose(step: Step, index: nat, s0: State, s1: State,
                            r0: map<ModuleId, VersionText>, r1: map<ModuleId, VersionText>)
      requires StepSame(step, s0, s1, r0, r1) && CannotChoose(step, index, s1)
      ensures CannotChoose(step, index, s0)
    {
    }

    /** Every step once, in order; the deferred ones are left to their retry. */
    method ProcessSteps(index: nat, env: Environment)
      returns (ok: bool, retry: seq<nat>, ghost done: seq<Option<Effect>>)
      requires Valid()
      requires forall k, m :: 0 <= k < |steps| && m in steps[k].modules ==> ModuleId(steps[k].name, m.name) in state
      modifies this`state, this`executed, this`firstRunDone
      ensures state.Keys == old(state).Keys
      ensures ok ==> Walked(index, done, |steps|, old(state), state, old(executed), executed)
      ensures ok ==> FirstRuns(done, old(firstRunDone), firstRunDone, previous, current)
      ensures Smooth(env) ==> retry == []
      ensures !ok && Smooth(env) && AllRunnable() ==> SomeCannotChoose(index, old(state))
      ensures ok ==> forall j: nat :: j in retry <==> j < |steps| && done[j].None?
      ensures forall j, k :: 0 <= j < k < |retry| ==> retry[j] < retry[k]
    {
      retry, done := [], [];
      for i := 0 to |steps|
        invariant state.Keys == old(state).Keys
        invariant Walked(index, done, i, old(state), state, old(executed), executed)
        invariant FirstRuns(done, old(firstRunDone), firstRunDone, previous, current)
        invariant Smooth(env) ==> retry == []
        invariant forall j: nat :: j in retry <==> j < i && done[j].None?
        invariant forall k :: 0 <= k < |retry| ==> retry[k] < i
        invariant forall j, k :: 0 <= j < k < |retry| ==> retry[j] < retry[k]
      {
        label before:
        var outcome := ProcessStep(index, 0, steps[i], env);
        if outcome.Failed? {
          if Smooth(env) && Runnable(steps[i]) {
            StillCannotChoose(steps[i], index, old(state), old@before(state), old(executed), old@before(executed));
          }
          return false, [], [];
        }
        ghost var here := if outcome.Done? then Some(outcome.effect) else None;
        StepWalked(index, done, i, here, old(state), old@before(state), state,
                   old(executed), old@before(executed), executed);
        StepRun(done, i, here, old(firstRunDone), old@before(firstRunDone), firstRunDone, previous, current);
        done := done + [here];
        if outcome.Deferred? {
          retry := retry + [i];
        }
      }
      ok := true;
    }

    ghost predicate AllProcessed(index: nat, effects: seq<Effect>, before: State, after: State,
                                 ran: map<ModuleId, VersionText>, runs: map<ModuleId, VersionText>)
    {
      && |effects| == |steps|
      && forall k :: 0 <= k < |steps| ==> StepProcessed(steps[k], index, effects[k], before, after, ran, runs)
    }

    ghost predicate AllAllowed(effects: seq<Effect>, firstRuns: set<string>,
                               previous: map<SourceKey, Checksums>, current: map<SourceKey, Checksums>)
    {
      && |effects| == |steps|
      && forall k :: 0 <= k < |steps| ==> SkipAllowed(steps[k], effects[k], firstRuns, previous, current)
    }

    lemma RestOfRetries(retry: seq<nat>, r: nat)
      requires r < |retry| && forall j, k :: 0 <= j < k < |retry| ==> retry[j] < retry[k]
      ensures forall j: nat :: j in retry[r + 1..] <==> j in retry[r..] && j != retry[r]
    {
      forall j: nat | j in retry[r..] && j != retry[r] ensures j in retry[r + 1..] {
        var k :| 0 <= k < |retry| - r && retry[r..][k] == j;
        assert retry[r + 1..][k - 1] == j;
      }
      forall j: nat | j in retry[r + 1..] ensures j in retry[r..] && j != retry[r] {
        var k :| 0 <= k < |retry| - r - 1 && retry[r + 1..][k] == j;
        assert retry[r..][k + 1] == j;
      }
    }

    /** The deferred steps, once all others have been applied. A step that is deferred again is forgotten. */
    method RetrySteps(index: nat, retry: seq<nat>, env: Environment, ghost done: seq<Option<Effect>>,
                      ghost s0: State, ghost r0: map<ModuleId, VersionText>, ghost firstRuns: set<string>)
      returns (ok: bool, ghost lost: bool, ghost effects: seq<Effect>)
      requires Valid()
      requires forall k, m :: 0 <= k < |steps| && m in steps[k].modules ==> ModuleId(steps[k].name, m.name) in state
      requires Walked(index, done, |steps|, s0, state, r0, executed) && FirstRuns(done, firstRuns, firstRunDone, previous, current)
      requires forall j: nat :: j in retry <==> j < |steps| && done[j].None?
      requires forall j, k :: 0 <= j < k < |retry| ==> retry[j] < retry[k]
      modifies this`state, this`executed, this`firstRunDone
      ensures state.Keys == old(state).Keys
      ensures retry == [] ==> ok && !lost
      ensures lost ==> LosesAt(env, index)
      ensures ok && !lost ==> AllProcessed(index, effects, s0, state, r0, executed)
      ensures ok && !lost ==> AllAllowed(effects, firstRuns, previous, current)
      ensures ok && !lost ==> forall s :: s in steps ==> s.name in firstRunDone
    {
      ghost var soFar := done;
      lost, effects := false, [];
      for r := 0 to |retry|
        invariant state.Keys == old(state).Keys
        invariant retry == [] ==> !lost
        invariant lost ==> LosesAt(env, index)
        invariant !lost ==> Walked(index, soFar, |steps|, s0, state, r0, executed)
        invariant !lost ==> FirstRuns(soFar, firstRuns, firstRunDone, previous, current)
        invariant !lost ==> forall j: nat :: j in retry[r..] <==> j < |steps| && soFar[j].None?
      {
        var i := retry[r];
        assert i in retry;
        label again:
        var outcome := ProcessStep(index, 1, steps[i], env);
        if outcome.Failed? {
          return false, lost, [];
        }
        if outcome.Deferred? {
          assert DefersAgain(env, index, steps[i].name);
          lost := true;
        } else if !lost {
          RestOfRetries(retry, r);
          assert i in retry[r..];
          StepWalked(index, soFar, i, Some(outcome.effect), s0, old@again(state), state,
                     r0, old@again(executed), executed);
          StepRun(soFar, i, Some(outcome.effect), firstRuns, old@again(firstRunDone), firstRunDone, previous, current);
          ghost var was := soFar;
          soFar := soFar[i := Some(outcome.effect)];
          forall j: nat ensures j in retry[r + 1..] <==> j < |steps| && soFar[j].None? {
            assert j in retry[r..] <==> j < |steps| && was[j].None?;
          }
        }
      }
      ok := true;
      if !lost {
        effects := AllEffects(index, retry, soFar, s0, state, r0, executed);
        EffectsAllowed(soFar, effects, firstRuns, firstRunDone, previous, current);
      }
    }

    lemma AllEffects(index: nat, retry: seq<nat>, soFar: seq<Option<Effect>>, s0: State, s1: State,
                     r0: map<ModuleId, VersionText>, r1: map<ModuleId, VersionText>)
      returns (effects: seq<Effect>)
      requires Walked(index, soFar, |steps|, s0, s1, r0, r1)
      requires forall j: nat :: j in retry[|retry|..] <==> j < |steps| && soFar[j].None?
      ensures AllProcessed(index, effects, s0, s1, r0, r1)
      ensures forall j :: 0 <= j < |steps| ==> soFar[j] == Some(effects[j])
    {
      forall j: nat | j < |steps| ensures soFar[j].Some? {
        assert j !in retry[|retry|..];
      }
      effects := seq(|steps|, j requires 0 <= j < |steps| => soFar[j].value);
      forall k | 0 <= k < |steps| ensures StepProcessed(steps[k], index, effects[k], s0, s1, r0, r1) {
        assert Progress(steps[k], index, soFar[k], s0, s1, r0, r1);
      }
    }

    lemma EffectsAllowed(soFar: seq<Option<Effect>>, effects: seq<Effect>, before: set<string>, after: set<string>,
                         previous: map<SourceKey, Checksums>, current: map<SourceKey, Checksums>)
      requires |soFar| == |effects| == |steps| && forall j :: 0 <= j < |steps| ==> soFar[j] == Some(effects[j])
      requires FirstRuns(soFar, before, after, previous, current)
      ensures AllAllowed(effects, before, previous, current) && forall s :: s in steps ==> s.name in after
    {
    }

    ghost function Entry(st: State, step: Step, m: Module): ModuleState {
      var id := ModuleId(step.name, m.name);
      if id in st then st[id] else FRESH_MODULE
    }

    /** The folder of a module has the same content at its applied version as at the version it had when the
        pipeline of its step last succeeded. */
    ghost predicate ModuleSound(step: Step, m: Module, st: State, ran: map<ModuleId, VersionText>) {
      var id := ModuleId(step.name, m.name);
      var src := SourceOf(m);
      && id in ran && id in st && st[id].applied.Some? && st[id].source == src.url
      && (src.forced != Blank ==> st[id].applied == Some(src.forced))
      && (step.kind.ArgoCD? ==> SameContent(src, "modules/k8s/" + m.source, ran[id], st[id].applied.value))
      && (!step.kind.ArgoCD? ==> SameContent(src, "modules/" + m.source, ran[id], st[id].applied.value))
    }

    /** The lower of two versions. */
    ghost predicate LowerOf(v: Version, a: Version, b: Version) {
      (v == a || v == b) && AtMost(v, a) && AtMost(v, b)
    }

    /** The files of a module are made from this version, and it is recorded as applied. */
    ghost predicate RunAt(id: ModuleId, v: VersionText, after: State, runs: map<ModuleId, VersionText>) {
      id in runs && runs[id] == v && id in after && after[id].applied == Some(v)
    }

    ghost predicate AllStart(st: State) {
      forall s, m :: s in steps && m in s.modules && !m.client ==> Starts(m, Entry(st, s, m), SourceOf(m))
    }

    /** No source has more releases to walk. */
    ghost predicate Longest(src: Source) {
      forall key :: key in sources ==> |sources[key].releases| <= |src.releases|
    }

    /** One module of an update that began at `s0`, before the release at `index`: if it could start it is on its path,
        and if the checksums can be trusted for it, its last pipeline ran on the content that is now applied. */
    ghost predicate EntryTracked(s: Step, m: Module, index: nat, s0: State, st: State, runs: map<ModuleId, VersionText>)
      requires Valid() && s in steps && m in s.modules && !m.client
    {
      var src, start, ms := SourceOf(m), Entry(s0, s, m), Entry(st, s, m);
      && (Starts(m, start, src) ==> OnPath(EndOf(m, start, src), m, ms, src, index))
      && (Tracked(m, start, src, Longest(src)) ==>
            OnTrack(EndOf(m, start, src), m, ms, src, index) && (index > 1 ==> ModuleSound(s, m, st, runs)))
    }

    ghost predicate StepTracked(s: Step, index: nat, s0: State, st: State, runs: map<ModuleId, VersionText>)
      requires Valid() && s in steps
    {
      && (forall m {:trigger EntryTracked(s, m, index, s0, st, runs)} :: m in s.modules && !m.client ==>
            EntryTracked(s, m, index, s0, st, runs))
      && (forall m {:trigger ClientTracked(s, m, index, st, runs)} :: m in s.modules && m.client ==>
            ClientTracked(s, m, index, st, runs))
    }

    /** A module with a source of its own is run at its own version at every release. */
    ghost predicate ClientTracked(s: Step, m: Module, index: nat, st: State, runs: map<ModuleId, VersionText>) {
      index > 1 ==> RunAt(ModuleId(s.name, m.name), m.version, st, runs)
    }

    ghost predicate AllTracked(index: nat, s0: State, st: State, runs: map<ModuleId, VersionText>)
      requires Valid()
    {
      forall s {:trigger StepTracked(s, index, s0, st, runs)} :: s in steps ==> StepTracked(s, index, s0, st, runs)
    }

    lemma TracksBegin(s0: State, runs: map<ModuleId, VersionText>)
      requires Valid()
      ensures AllTracked(1, s0, s0, runs)
    {
      forall s, m | s in steps && m in s.modules && !m.client ensures EntryTracked(s, m, 1, s0, s0, runs) {
        if Starts(m, Entry(s0, s, m), SourceOf(m)) {
          PathBegins(m, Entry(s0, s, m), SourceOf(m));
        }
        if Tracked(m, Entry(s0, s, m), SourceOf(m), Longest(SourceOf(m))) {
          TrackBegins(m, Entry(s0, s, m), SourceOf(m), Longest(SourceOf(m)));
        }
      }
    }

    /** The release at `index` is walked for some source. */
    ghost predicate Reaches(index: nat) {
      exists key :: key in sources && index < |sources[key].releases|
    }

    lemma PathAdvances(s: Step, m: Module, index: nat, effect: Effect, s0: State, before: State, after: State,
                       ran: map<ModuleId, VersionText>, runs: map<ModuleId, VersionText>)
      requires Valid() && s in steps && m in s.modules && !m.client && index > 0
      requires ModuleProcessed(s, m, index, effect, before, after, ran, runs)
      requires var src, start := SourceOf(m), Entry(s0, s, m);
               Starts(m, start, src) && OnPath(EndOf(m, start, src), m, Entry(before, s, m), src, index)
      ensures OnPath(EndOf(m, Entry(s0, s, m), SourceOf(m)), m, Entry(after, s, m), SourceOf(m), index + 1)
    {
      OneRelease(EndOf(m, Entry(s0, s, m), SourceOf(m)), m, Entry(before, s, m), SourceOf(m), index, s.approve);
    }

    lemma SoundAdvances(s: Step, m: Module, index: nat, effect: Effect, s0: State, before: State, after: State,
                        ran: map<ModuleId, VersionText>, runs: map<ModuleId, VersionText>)
      requires Valid() && s in steps && m in s.modules && !m.client && Reaches(index)
      requires ModuleProcessed(s, m, index, effect, before, after, ran, runs)
      requires var src, start, ms := SourceOf(m), Entry(s0, s, m), Entry(before, s, m);
               Tracked(m, start, src, Longest(src)) && OnTrack(EndOf(m, start, src), m, ms, src, index)
      requires effect != Executed ==> index > 1 && ModuleSound(s, m, before, ran)
      requires effect == Vouched ==>
                 SameContent(SourceOf(m), ModuleKey(s, m), ReleaseAt(SourceOf(m), index - 1), ReleaseAt(SourceOf(m), index))
      ensures OnTrack(EndOf(m, Entry(s0, s, m), SourceOf(m)), m, Entry(after, s, m), SourceOf(m), index + 1)
      ensures ModuleSound(s, m, after, runs)
    {
      var src, start, ms := SourceOf(m), Entry(s0, s, m), Entry(before, s, m);
      var end := EndOf(m, start, src);
      TrackBegins(m, start, src, Longest(src));
      TrackGoesOn(end, m, ms, src, index, s.approve);
      if effect == Vouched {
        NeighboursSuffice(end, m, ms, src, index, s.approve, ModuleKey(s, m));
      }
    }

    /** One step at one release keeps every module of it on its path, and its last pipeline good for its content. */
    lemma StepAdvances(step: Step, index: nat, effect: Effect, s0: State, before: State, after: State,
                       ran: map<ModuleId, VersionText>, runs: map<ModuleId, VersionText>)
      requires Valid() && step in steps && index > 0 && Reaches(index)
      requires StepTracked(step, index, s0, before, ran)
      requires StepProcessed(step, index, effect, before, after, ran, runs)
      requires effect != Executed ==> index > 1
      requires effect == Vouched ==> forall m :: m in step.modules ==>
                 && !m.client
                 && SameContent(SourceOf(m), ModuleKey(step, m), ReleaseAt(SourceOf(m), index - 1), ReleaseAt(SourceOf(m), index))
      ensures StepTracked(step, index + 1, s0, after, runs)
    {
      forall m | m in step.modules && m.client ensures ClientTracked(step, m, index + 1, after, runs) {
        assert ModuleProcessed(step, m, index, effect, before, after, ran, runs);
      }
      forall m | m in step.modules && !m.client ensures EntryTracked(step, m, index + 1, s0, after, runs) {
        var src, start := SourceOf(m), Entry(s0, step, m);
        assert EntryTracked(step, m, index, s0, before, ran);
        assert ModuleProcessed(step, m, index, effect, before, after, ran, runs);
        if Starts(m, start, src) {
          PathAdvances(step, m, index, effect, s0, before, after, ran, runs);
        }
        if Tracked(m, start, src, Longest(src)) {
          SoundAdvances(step, m, index, effect, s0, before, after, ran, runs);
        }
      }
    }

    /** Reconciling leaves the entries of configured modules alone. */
    lemma ReconciledTracked(step: Step, index: nat, s0: State, st: State, runs: map<ModuleId, VersionText>)
      requires Valid() && step in steps && StepTracked(step, index, s0, st, runs)
      ensures StepTracked(step, index, s0, Reconciled(st), runs)
    {
      assert step in config;
      forall m | m in step.modules && !m.client ensures EntryTracked(step, m, index, s0, Reconciled(st), runs) {
        assert EntryTracked(step, m, index, s0, st, runs);
        assert ModuleId(step.name, m.name) in Reconciled(st) && Entry(Reconciled(st), step, m) == Entry(st, step, m);
      }
      forall m | m in step.modules && m.client ensures ClientTracked(step, m, index, Reconciled(st), runs) {
        assert ClientTracked(step, m, index, st, runs);
      }
    }

    lemma UnchangedIsSame(step: Step, m: Module, index: nat, previous: map<SourceKey, Checksums>,
                          current: map<SourceKey, Checksums>)
      requires Valid() && step in steps && m in step.modules && !m.client && index > 0
      requires ChecksumsAt(previous, index - 1) && ChecksumsAt(current, index) && FolderUnchanged(step, m, previous, current)
      ensures SameContent(SourceOf(m), ModuleKey(step, m), ReleaseAt(SourceOf(m), index - 1), ReleaseAt(SourceOf(m), index))
    {
      assert SourceChecksumsAt(previous, home[m.source], index - 1) && SourceChecksumsAt(current, home[m.source], index);
    }

    lemma ReleaseWalked(index: nat, effects: seq<Effect>, s0: State, before: State, after: State,
                        ran: map<ModuleId, VersionText>, runs: map<ModuleId, VersionText>, firstRuns: set<string>,
                        previous: map<SourceKey, Checksums>, current: map<SourceKey, Checksums>)
      requires Valid() && index > 0 && Reaches(index) && AllTracked(index, s0, before, ran)
      requires AllProcessed(index, effects, Reconciled(before), after, ran, runs)
      requires AllAllowed(effects, firstRuns, previous, current)
      requires if index == 1 then firstRuns == {} else ChecksumsAt(previous, index - 1)
      requires ChecksumsAt(current, index)
      ensures AllTracked(index + 1, s0, after, runs)
    {
      forall k | 0 <= k < |steps| ensures StepTracked(steps[k], index + 1, s0, after, runs) {
        assert steps[k] in steps;
        ReconciledTracked(steps[k], index, s0, before, ran);
        assert SkipAllowed(steps[k], effects[k], firstRuns, previous, current);
        if effects[k] == Vouched {
          forall m | m in steps[k].modules
            ensures SameContent(SourceOf(m), ModuleKey(steps[k], m), ReleaseAt(SourceOf(m), index - 1), ReleaseAt(SourceOf(m), index))
          {
            UnchangedIsSame(steps[k], m, index, previous, current);
          }
        }
        StepAdvances(steps[k], index, effects[k], s0, Reconciled(before), after, ran, runs);
      }
    }

    /** Both passes over the steps. */
    method ApplySteps(index: nat, env: Environment) returns (ok: bool, ghost lost: bool, ghost effects: seq<Effect>)
      requires Valid() && state.Keys == Reconciled(state).Keys
      modifies this`state, this`executed, this`firstRunDone
      ensures lost ==> LosesAt(env, index)
      ensures ok && !lost ==> AllProcessed(index, effects, old(state), state, old(executed), executed)
      ensures ok && !lost ==> AllAllowed(effects, old(firstRunDone), previous, current)
      ensures Smooth(env) ==> !lost
      ensures !ok && Smooth(env) && AllRunnable() ==> SomeCannotChoose(index, old(state))
      ensures ok && !lost ==> forall s :: s in steps ==> s.name in firstRunDone
    {
      ghost var before, ran, firstRuns := state, executed, firstRunDone;
      forall k, m | 0 <= k < |steps| && m in steps[k].modules ensures ModuleId(steps[k].name, m.name) in state {
        assert steps[k] in config;
      }
      var first, retry, done := ProcessSteps(index, env);
      if !first {
        return false, false, [];
      }
      ok, lost, effects := RetrySteps(index, retry, env, done, before, ran, firstRuns);
    }

    /** What a run promises of a module. A client module is run at its own version and a module of a forced source at the
        forced version. One that is not applied from its source is run at the lower of the first release and its target.
        If it was applied at or above the first release of the window, its files are made from the applied version; the
        state keeps that version if and only if the window starts there or the state already names it. */
    ghost predicate RunDone(step: Step, m: Module, before: State, after: State, runs: map<ModuleId, VersionText>) {
      var id, src, ms := ModuleId(step.name, m.name), SourceOf(m), Entry(before, step, m);
      if m.client then RunAt(id, m.version, after, runs)
      else if src.forced != Blank then RunAt(id, src.forced, after, runs) && after[id].source == src.url
      else if ms.applied.None? || ms.source != src.url then
        src.releases != [] ==>
          && (exists v :: LowerOf(v, src.releases[0], Goal(m, src)) && RunAt(id, Tag(v), after, runs))
          && after[id].source == src.url
      else
        src.releases != [] && ms.applied.value.Tag? && AtMost(src.releases[0], ms.applied.value.v) ==>
          && id in runs && runs[id] == ms.applied.value
          && id in after
          && (after[id].applied == ms.applied <==> ms.applied.value.v == src.releases[0] || ms.version == ms.applied.value)
    }

    ghost predicate AllRunDone(before: State, after: State, runs: map<ModuleId, VersionText>) {
      forall s, m :: s in steps && m in s.modules ==> RunDone(s, m, before, after, runs)
    }

    lemma ModuleRuns(s: Step, m: Module, effect: Effect, before: State, after: State,
                     ran: map<ModuleId, VersionText>, runs: map<ModuleId, VersionText>)
      requires Valid() && s in steps && m in s.modules && effect == Executed
      requires ModuleProcessed(s, m, 0, effect, Reconciled(before), after, ran, runs)
      ensures RunDone(s, m, before, after, runs)
    {
      var id, src, ms := ModuleId(s.name, m.name), SourceOf(m), Entry(before, s, m);
      assert s in config && Reconciled(before)[id] == ms;
      if !m.client && src.forced == Blank && src.releases != [] {
        if ms.applied.None? || ms.source != src.url {
          var v := runs[id].v;
          assert LowerOf(v, src.releases[0], Goal(m, src)) && RunAt(id, Tag(v), after, runs);
        } else if ms.applied.value.Tag? && AtMost(src.releases[0], ms.applied.value.v) {
          RunKeepsApplied(m, ms, src, s.approve);
        }
      }
    }

    lemma AllRun(effects: seq<Effect>, before: State, after: State,
                 ran: map<ModuleId, VersionText>, runs: map<ModuleId, VersionText>)
      requires Valid() && AllProcessed(0, effects, Reconciled(before), after, ran, runs)
      requires forall k :: 0 <= k < |steps| ==> effects[k] == Executed
      ensures AllRunDone(before, after, runs)
    {
      forall s, m | s in steps && m in s.modules ensures RunDone(s, m, before, after, runs) {
        var k :| 0 <= k < |steps| && steps[k] == s;
        assert StepProcessed(steps[k], 0, effects[k], Reconciled(before), after, ran, runs);
        ModuleRuns(s, m, effects[k], before, after, ran, runs);
      }
    }

    /** Every module is where its walk ends. */
    ghost predicate AllEnd(s0: State, st: State, processed: bool) {
      && (forall s, m :: s in steps && m in s.modules && !m.client ==>
            Ended(m, Entry(s0, s, m), Entry(st, s, m), SourceOf(m), processed))
      && (forall s, m :: s in steps && m in s.modules && m.client ==> processed ==> Entry(st, s, m).applied == Some(m.version))
    }

    /** The last pipeline of every module that the checksums can be trusted for ran on the content that is applied. */
    ghost predicate AllSound(s0: State, st: State, runs: map<ModuleId, VersionText>)
      requires Valid()
    {
      && (forall s, m :: s in steps && m in s.modules && !m.client && Tracked(m, Entry(s0, s, m), SourceOf(m), Longest(SourceOf(m))) ==>
            ModuleSound(s, m, st, runs))
      && (forall s, m :: s in steps && m in s.modules && m.client ==> RunAt(ModuleId(s.name, m.name), m.version, st, runs))
    }

    lemma TracksEnd(index: nat, s0: State, st: State, runs: map<ModuleId, VersionText>)
      requires Valid() && index > 0 && AllTracked(index, s0, st, runs)
      requires forall key :: key in sources ==> |sources[key].releases| <= index
      ensures AllEnd(s0, st, index > 1) && (index > 1 ==> AllSound(s0, st, runs))
    {
      forall s, m | s in steps && m in s.modules && !m.client
        ensures Ended(m, Entry(s0, s, m), Entry(st, s, m), SourceOf(m), index > 1)
        ensures index > 1 && Tracked(m, Entry(s0, s, m), SourceOf(m), Longest(SourceOf(m))) ==> ModuleSound(s, m, st, runs)
      {
        assert StepTracked(s, index, s0, st, runs);
        assert EntryTracked(s, m, index, s0, st, runs);
        PathsAreEnded(m, Entry(s0, s, m), Entry(st, s, m), SourceOf(m), index, index > 1);
      }
      forall s, m | s in steps && m in s.modules && m.client
        ensures index > 1 ==> RunAt(ModuleId(s.name, m.name), m.version, st, runs)
      {
        assert StepTracked(s, index, s0, st, runs);
        assert ClientTracked(s, m, index, st, runs);
      }
    }

    /** A run or an update that began at `s0` stands before the release at `index`. */
    ghost predicate Milestone(update: bool, index: nat, s0: State, now: Standing)
      requires Valid()
    {
      if update then
        && index > 0 && AllTracked(index, s0, now.state, now.runs)
        && (if index == 1 then now.firstRuns == {} else ChecksumsAt(now.previous, index - 1) && ChecksumsAt(now.current, index - 1))
      else if index == 0 then now.firstRuns == {} && now.state == s0
      else AllRunDone(s0, now.state, now.runs)
    }

    /** All standings that a run or an update from `s0` can have before the release at `index`. */
    ghost function Milestones(update: bool, index: nat, s0: State): iset<Standing>
      requires Valid()
    {
      iset now: Standing | Milestone(update, index, s0, now)
    }

    lemma ReleasePassed(update: bool, index: nat, effects: seq<Effect>, s0: State, was: Standing, now: Standing)
      requires Valid() && was in Milestones(update, index, s0) && (if update then Reaches(index) else index == 0)
      requires AllProcessed(index, effects, Reconciled(was.state), now.state, was.runs, now.runs)
      requires AllAllowed(effects, was.firstRuns, was.previous, now.current)
      requires update ==> now.previous == now.current
                          && (index == 1 || ChecksumsAt(was.current, index - 1) ==> ChecksumsAt(now.current, index))
      ensures now in Milestones(update, index + 1, s0)
    {
      if update {
        ReleaseWalked(index, effects, s0, was.state, now.state, was.runs, now.runs, was.firstRuns, was.previous, now.current);
      } else {
        AllRun(effects, s0, now.state, was.runs, now.runs);
      }
    }

    /** Reconciles the state and takes the checksums of the release. */
    method BeginRelease(update: bool, index: nat, env: Environment) returns (ok: bool)
      requires Valid()
      modifies this`state, this`current
      ensures state == Reconciled(old(state))
      ensures !ok ==> env.checksumsFail(index)
      ensures ok && update && (index == 1 || (index > 1 && ChecksumsAt(old(current), index - 1))) ==>
                ChecksumsAt(current, index)
    {
      UpdateState();
      ok := true;
      if update {
        ok := UpdateChecksums(index, env);
      }
    }

    lemma CanChooseAll(index: nat, s0: State, st: State, runs: map<ModuleId, VersionText>)
      requires Valid() && index > 0 && AllStart(s0) && AllTracked(index, s0, st, runs)
      ensures !SomeCannotChoose(index, Reconciled(st))
    {
      forall s, m | s in steps && m in s.modules && ModuleId(s.name, m.name) in Reconciled(st)
        ensures Choice(m, Reconciled(st)[ModuleId(s.name, m.name)], index, s.approve).Ok?
      {
        if !m.client {
          assert StepTracked(s, index, s0, st, runs);
          assert EntryTracked(s, m, index, s0, st, runs);
          OneRelease(EndOf(m, Entry(s0, s, m), SourceOf(m)), m, Entry(st, s, m), SourceOf(m), index, s.approve);
        }
      }
    }

    /** One release: reconcile the state, take the checksums, process all steps. */
    method TakeRelease(update: bool, index: nat, env: Environment)
      returns (ok: bool, ghost lost: bool, ghost effects: seq<Effect>)
      requires Valid() && (update ==> index > 0)
      modifies this
      ensures lost ==> LosesAt(env, index)
      ensures ok && !lost ==> AllProcessed(index, effects, Reconciled(old(state)), state, old(executed), executed)
      ensures ok && !lost ==> AllAllowed(effects, old(firstRunDone), old(previous), current)
      ensures ok && update ==>
                && previous == current
                && (index == 1 || ChecksumsAt(old(current), index - 1) ==> ChecksumsAt(current, index))
      ensures Smooth(env) ==> !lost
      ensures !ok && Smooth(env) && AllRunnable() ==> SomeCannotChoose(index, Reconciled(old(state)))
    {
      lost, effects := false, [];
      ok := BeginRelease(update, index, env);
      if !ok {
        return;
      }
      ok, lost, effects := ApplySteps(index, env);
      if !ok {
        return;
      }
      if update {
        previous := current;
      }
    }

    /** The states from which an update cannot fail. */
    ghost function Untroubled(update: bool, env: Environment): iset<State>
      requires Valid()
    {
      iset st: State | update && AllStart(st) && Smooth(env) && AllRunnable()
    }

    lemma ReachesBelow(index: nat, last: nat)
      requires index <= last && Reaches(last)
      ensures Reaches(index)
    {
    }

    /** One release of a run or an update that began at `s0`. */
    method ProcessRelease(update: bool, index: nat, env: Environment, ghost s0: State, ghost last: nat)
      returns (ok: bool, ghost lost: bool)
      requires Valid() && index <= last && (if update then index > 0 && Reaches(last) else index == 0)
      modifies this
      ensures lost ==> Loses(env)
      ensures ok && !lost && old(Now()) in Milestones(update, index, s0) ==> Now() in Milestones(update, index + 1, s0)
      ensures s0 in Untroubled(update, env) && old(Now()) in Milestones(update, index, s0) ==> ok && !lost
    {
      ghost var effects;
      ghost var was := Now();
      if update && AllStart(s0) && was in Milestones(update, index, s0) {
        CanChooseAll(index, s0, state, executed);
      }
      ok, lost, effects := TakeRelease(update, index, env);
      if ok && !lost && was in Milestones(update, index, s0) {
        if update {
          ReachesBelow(index, last);
        }
        ReleasePassed(update, index, effects, s0, was, Now());
      }
    }

    lemma Setting(update: bool, index: nat)
      requires Valid() && firstRunDone == {} && index == (if update then 1 else 0)
      ensures Now() in Milestones(update, index, state)
    {
      TracksBegin(state, executed);
    }

    method MostReleases() returns (most: nat)
      ensures forall key :: key in sources ==> |sources[key].releases| <= most
      ensures most > 0 ==> exists key :: key in sources && |sources[key].releases| == most
    {
      most := 0;
      var todo := sources.Keys;
      while todo != {}
        invariant todo <= sources.Keys
        invariant forall key :: key in sources && key !in todo ==> |sources[key].releases| <= most
        invariant most > 0 ==> exists key :: key in sources && |sources[key].releases| == most
      {
        var key :| key in todo;
        if |sources[key].releases| > most {
          most := |sources[key].releases|;
        }
        todo := todo - {key};
      }
    }

    /** The loop over the releases. */
    method WalkReleases(update: bool, first: nat, most: nat, env: Environment, ghost s0: State)
      returns (ok: bool, ghost lost: bool)
      requires Valid() && Now() in Milestones(update, first, s0)
      requires first <= most && (if update then first > 0 && Reaches(most - 1) else first == 0 && most == 1)
      modifies this
      ensures lost ==> Loses(env)
      ensures ok && !lost ==> Now() in Milestones(update, most, s0)
      ensures s0 in Untroubled(update, env) ==> ok && !lost
    {
      lost := false;
      for index := first to most
        invariant lost ==> Loses(env)
        invariant !lost ==> Now() in Milestones(update, index, s0)
        invariant s0 in Untroubled(update, env) ==> !lost
      {
        ghost var lostHere;
        ok, lostHere := ProcessRelease(update, index, env, s0, most - 1);
        lost := lost || lostHere;
        if !ok {
          return;
        }
      }
      ok := true;
    }

    /** A whole run or update. `lost` tells whether a retried step was deferred again and forgotten. An update that
        succeeds and forgets nothing leaves every module that could start where its walk ends, and the last pipeline of
        every module whose versions follow the releases ran on the content that is now applied, so nothing was wrongly
        skipped. It succeeds if all modules can start and nothing goes wrong. */
    method Process(update: bool, env: Environment) returns (processed: bool, ok: bool, ghost lost: bool)
      requires Valid() && firstRunDone == {}
      modifies this
      ensures processed <==> !update || Reaches(1)
      ensures !processed ==> ok && !lost && state == old(state)
      ensures lost ==> Loses(env)
      ensures update && AllStart(old(state)) && Smooth(env) && AllRunnable() ==> ok && !lost
      ensures ok && !lost && update ==> AllEnd(old(state), state, processed)
      ensures ok && !lost && update && processed ==> AllSound(old(state), state, executed)
      ensures ok && !lost && !update ==> AllRunDone(old(state), state, executed)
    {
      var index, most := 0, 1;
      if update {
        index := 1;
        most := MostReleases();
        if most < 2 {
          TracksBegin(state, executed);
          TracksEnd(1, state, state, executed);
          return false, true, false;
        }
        assert Reaches(most - 1) && Reaches(1);
      }
      Setting(update, index);
      ok, lost := WalkReleases(update, index, most, env, old(state));
      if ok && !lost && update {
        TracksEnd(most, old(state), state, executed);
      }
      return true, ok, lost;
    }
  }
}
