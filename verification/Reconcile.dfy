/** Bringing the state file in line with the configuration before a release. */
module Reconcile {
  import opened Versions
  import opened Model
  import opened UpdaterModule

  datatype ModuleEntry = ModuleEntry(name: string, state: ModuleState, custom: bool)

  datatype StepEntry = StepEntry(name: string, modules: seq<ModuleEntry>)

  /* ---------- searching ---------- */

  /** The index of the first module entry with the name; the length if there is none. */
  function EntryIndex(es: seq<ModuleEntry>, name: string): (i: nat)
    ensures i <= |es| && (i < |es| ==> es[i].name == name) && forall j :: 0 <= j < i ==> es[j].name != name
  {
    if es == [] || es[0].name == name then 0 else EntryIndex(es[1..], name) + 1
  }

  function StepIndex(ss: seq<StepEntry>, name: string): (i: nat)
    ensures i <= |ss| && (i < |ss| ==> ss[i].name == name) && forall j :: 0 <= j < i ==> ss[j].name != name
  {
    if ss == [] || ss[0].name == name then 0 else StepIndex(ss[1..], name) + 1
  }

  function ConfigIndex(config: seq<Step>, name: string): (i: nat)
    ensures i <= |config| && (i < |config| ==> config[i].name == name) && forall j :: 0 <= j < i ==> config[j].name != name
  {
    if config == [] || config[0].name == name then 0 else ConfigIndex(config[1..], name) + 1
  }

  predicate HasModule(ms: seq<Module>, name: string) {
    exists i :: 0 <= i < |ms| && ms[i].name == name
  }

  predicate HasEntry(es: seq<ModuleEntry>, name: string) {
    EntryIndex(es, name) < |es|
  }

  /** The entry that the updater reads for a step and module name. */
  function Lookup(ss: seq<StepEntry>, id: ModuleId): Option<ModuleEntry> {
    var i := StepIndex(ss, id.step);
    if i == |ss| then None
    else
      var j := EntryIndex(ss[i].modules, id.name);
      if j == |ss[i].modules| then None else Some(ss[i].modules[j])
  }

  function CreateStateModule(m: Module): ModuleEntry {
    ModuleEntry(m.name, FRESH_MODULE, m.client)
  }

  /* ---------- what the loops compute ---------- */

  function KeptModules(es: seq<ModuleEntry>, ms: seq<Module>): seq<ModuleEntry> {
    if es == [] then []
    else (if HasModule(ms, es[0].name) then [es[0]] else []) + KeptModules(es[1..], ms)
  }

  /** The entry of a kept step. */
  function KeptStep(s: StepEntry, c: Step): StepEntry {
    s.(modules := KeptModules(s.modules, c.modules))
  }

  function KeptSteps(ss: seq<StepEntry>, config: seq<Step>): seq<StepEntry> {
    if ss == [] then []
    else
      var c := ConfigIndex(config, ss[0].name);
      (if c < |config| then [KeptStep(ss[0], config[c])] else [])
      + KeptSteps(ss[1..], config)
  }

  lemma KeptNext(ss: seq<StepEntry>, n: nat, config: seq<Step>)
    requires n < |ss|
    ensures var c, rest := ConfigIndex(config, ss[n].name), KeptSteps(ss[n + 1..], config);
            KeptSteps(ss[n..], config) == if c < |config| then [KeptStep(ss[n], config[c])] + rest else rest
  {
    assert ss[n..][1..] == ss[n + 1..];
    assert [] + KeptSteps(ss[n + 1..], config) == KeptSteps(ss[n + 1..], config);
  }

  /** One turn of the backward loop over a step's modules. */
  lemma DeletedModuleNext(all: seq<ModuleEntry>, n: nat, ms: seq<Module>, now: seq<ModuleEntry>)
    requires n < |all| && now == all[..n + 1] + KeptModules(all[n + 1..], ms)
    ensures now[n] == all[n]
    ensures all[..n] + KeptModules(all[n..], ms) == if HasModule(ms, all[n].name) then now else now[..n] + now[n + 1..]
  {
    var rest := KeptModules(all[n + 1..], ms);
    assert all[n..][1..] == all[n + 1..] && [] + rest == rest;
    LastOfFront(all, n);
    CutAround(all[..n], all[n], rest);
    assert all[..n] + [all[n]] + rest == all[..n] + ([all[n]] + rest);
  }

  /** One turn of the backward loop: the step is kept with its used modules, or cut out. */
  lemma DeletedNext(ss: seq<StepEntry>, n: nat, config: seq<Step>, now: seq<StepEntry>)
    requires n < |ss| && now == ss[..n + 1] + KeptSteps(ss[n + 1..], config)
    ensures now[n] == ss[n] && now == ss[..n] + [ss[n]] + KeptSteps(ss[n + 1..], config)
    ensures var c := ConfigIndex(config, ss[n].name);
            ss[..n] + KeptSteps(ss[n..], config)
            == if c < |config| then now[n := KeptStep(ss[n], config[c])] else now[..n] + now[n + 1..]
  {
    var c := ConfigIndex(config, ss[n].name);
    KeptNext(ss, n, config);
    LastOfFront(ss, n);
    if c < |config| {
      ReplacedAround(ss[..n], ss[n], KeptSteps(ss[n + 1..], config), KeptStep(ss[n], config[c]));
    } else {
      CutAround(ss[..n], ss[n], KeptSteps(ss[n + 1..], config));
    }
  }

  lemma LastOfFront<T>(s: seq<T>, n: nat)
    requires n < |s|
    ensures s[..n + 1] == s[..n] + [s[n]]
  {
  }

  lemma ReplacedAround<T>(a: seq<T>, x: T, rest: seq<T>, y: T)
    ensures (a + [x] + rest)[|a|] == x && (a + [x] + rest)[|a| := y] == a + ([y] + rest)
  {
  }

  lemma CutAround<T>(a: seq<T>, x: T, rest: seq<T>)
    ensures var now := a + [x] + rest; now[|a|] == x && now[..|a|] + now[|a| + 1..] == a + rest
  {
    var now := a + [x] + rest;
    assert now[..|a|] == a && now[|a| + 1..] == rest;
  }

  function AddModules(es: seq<ModuleEntry>, ms: seq<Module>): seq<ModuleEntry> {
    if ms == [] then es
    else
      var before := AddModules(es, ms[..|ms| - 1]);
      if HasEntry(before, ms[|ms| - 1].name) then before else before + [CreateStateModule(ms[|ms| - 1])]
  }

  function AddStep(ss: seq<StepEntry>, c: Step): seq<StepEntry> {
    var i := StepIndex(ss, c.name);
    if i < |ss| then ss[i := ss[i].(modules := AddModules(ss[i].modules, c.modules))]
    else ss + [StepEntry(c.name, AddModules([], c.modules))]
  }

  function AddSteps(ss: seq<StepEntry>, config: seq<Step>): seq<StepEntry> {
    if config == [] then ss else AddStep(AddSteps(ss, config[..|config| - 1]), config[|config| - 1])
  }

  function CreatedModules(ms: seq<Module>): seq<ModuleEntry> {
    seq(|ms|, i requires 0 <= i < |ms| => CreateStateModule(ms[i]))
  }

  function Created(config: seq<Step>): seq<StepEntry> {
    seq(|config|, i requires 0 <= i < |config| => StepEntry(config[i].name, CreatedModules(config[i].modules)))
  }

  function Reconciled(config: seq<Step>, ss: seq<StepEntry>): seq<StepEntry> {
    if ss == [] then Created(config) else AddSteps(KeptSteps(ss, config), config)
  }

  /* ---------- the state file ---------- */

  class StateFile {
    var steps: seq<StepEntry>

    constructor (steps: seq<StepEntry>)
      ensures this.steps == steps
    {
      this.steps := steps;
    }

    method GetStepState(name: string) returns (i: nat)
      ensures i == StepIndex(steps, name)
    {
      i := 0;
      while i < |steps|
        invariant i <= |steps| && StepIndex(steps, name) == i + StepIndex(steps[i..], name)
      {
        if steps[i].name == name {
          return;
        }
        assert steps[i..][1..] == steps[i + 1..];
        i := i + 1;
      }
    }

    method CreateState(config: seq<Step>)
      modifies this
      ensures steps == Created(config)
    {
      var created := [];
      for i := 0 to |config|
        invariant created == Created(config)[..i]
      {
        var modules := [];
        for j := 0 to |config[i].modules|
          invariant modules == CreatedModules(config[i].modules)[..j]
        {
          modules := modules + [CreateStateModule(config[i].modules[j])];
        }
        assert CreatedModules(config[i].modules)[..|config[i].modules|] == CreatedModules(config[i].modules);
        created := created + [StepEntry(config[i].name, modules)];
      }
      steps := created;
    }

    /** The backward loop over the modules of one step, deleting in place. */
    method RemoveUnusedModules(c: Step, i: nat)
      requires i < |steps|
      modifies this
      ensures steps == old(steps)[i := old(steps)[i].(modules := KeptModules(old(steps)[i].modules, c.modules))]
    {
      var all := steps[i].modules;
      var n := |all|;
      assert all[..n] + KeptModules(all[n..], c.modules) == all;
      while n > 0
        invariant 0 <= n <= |all|
        invariant steps == old(steps)[i := old(steps)[i].(modules := all[..n] + KeptModules(all[n..], c.modules))]
      {
        n := n - 1;
        var name := steps[i].modules[n].name;
        var found := false;
        for j := 0 to |c.modules|
          invariant !found && forall k :: 0 <= k < j ==> c.modules[k].name != name
        {
          if c.modules[j].name == name {
            found := true;
            break;
          }
        }
        DeletedModuleNext(all, n, c.modules, steps[i].modules);
        assert found <==> HasModule(c.modules, name);
        if !found {
          steps := steps[i := steps[i].(modules := steps[i].modules[..n] + steps[i].modules[n + 1..])];
        }
      }
      assert all[..0] + KeptModules(all[0..], c.modules) == KeptModules(all, c.modules) by {
        assert all[..0] == [] && all[0..] == all;
      }
    }

    /** Keeps the used modules of the i-th step; `found` tells whether the step itself is used. */
    method KeepStep(config: seq<Step>, i: nat) returns (found: bool)
      requires i < |steps|
      modifies this
      ensures found <==> ConfigIndex(config, old(steps)[i].name) < |config|
      ensures steps == if found then old(steps)[i := KeptStep(old(steps)[i], config[ConfigIndex(config, old(steps)[i].name)])]
                       else old(steps)
    {
      for c := 0 to |config|
        invariant steps == old(steps) && forall k :: 0 <= k < c ==> config[k].name != steps[i].name
      {
        if config[c].name == steps[i].name {
          RemoveUnusedModules(config[c], i);
          return true;
        }
      }
      return false;
    }

    /** The backward loop over the steps, deleting in place. */
    method RemoveUnusedSteps(config: seq<Step>)
      modifies this
      ensures steps == KeptSteps(old(steps), config)
    {
      ghost var all := steps;
      var n := |steps|;
      assert all[..n] == all && all[n..] == [];
      while n > 0
        invariant 0 <= n <= |all| && steps == all[..n] + KeptSteps(all[n..], config)
      {
        n := n - 1;
        DeletedNext(all, n, config, steps);
        var found := KeepStep(config, n);
        if !found {
          steps := steps[..n] + steps[n + 1..];
        }
      }
      assert all[..0] == [] && all[0..] == all;
    }

    /** The modules that the i-th step lacks are appended to it. */
    method AddNewModules(i: nat, ms: seq<Module>)
      requires i < |steps|
      modifies this
      ensures steps == old(steps)[i := old(steps)[i].(modules := AddModules(old(steps)[i].modules, ms))]
    {
      for j := 0 to |ms|
        invariant steps == old(steps)[i := old(steps)[i].(modules := AddModules(old(steps)[i].modules, ms[..j]))]
      {
        assert ms[..j + 1][..j] == ms[..j];
        if EntryIndex(steps[i].modules, ms[j].name) == |steps[i].modules| {
          steps := steps[i := steps[i].(modules := steps[i].modules + [CreateStateModule(ms[j])])];
        }
      }
      assert ms[..|ms|] == ms;
    }

    method AddNewSteps(config: seq<Step>)
      modifies this
      ensures steps == AddSteps(old(steps), config)
    {
      for k := 0 to |config|
        invariant steps == AddSteps(old(steps), config[..k])
      {
        assert config[..k + 1][..k] == config[..k];
        var i := GetStepState(config[k].name);
        if i == |steps| {
          steps := steps + [StepEntry(config[k].name, [])];
        }
        AddNewModules(i, config[k].modules);
      }
      assert config[..|config|] == config;
    }

    method UpdateState(config: seq<Step>)
      modifies this
      ensures steps == Reconciled(config, old(steps))
    {
      if |steps| == 0 {
        CreateState(config);
        return;
      }
      RemoveUnusedSteps(config);
      AddNewSteps(config);
    }
  }

  /* ---------- what reconciling means ---------- */

  function StepOf(config: seq<Step>, name: string): Option<Step> {
    var i := ConfigIndex(config, name);
    if i < |config| then Some(config[i]) else None
  }

  function EntryOf(es: seq<ModuleEntry>, name: string): Option<ModuleEntry> {
    var i := EntryIndex(es, name);
    if i < |es| then Some(es[i]) else None
  }

  function StepEntryOf(ss: seq<StepEntry>, name: string): Option<StepEntry> {
    var i := StepIndex(ss, name);
    if i < |ss| then Some(ss[i]) else None
  }

  ghost predicate UniqueEntries(ss: seq<StepEntry>) {
    && (forall i, j :: 0 <= i < j < |ss| ==> ss[i].name != ss[j].name)
    && (forall i :: 0 <= i < |ss| ==> UniqueNames(ss[i].modules))
  }

  ghost predicate UniqueNames(es: seq<ModuleEntry>) {
    forall i, j :: 0 <= i < j < |es| ==> es[i].name != es[j].name
  }

  lemma {:induction false} IndexJoined(a: seq<ModuleEntry>, b: seq<ModuleEntry>, name: string)
    ensures EntryIndex(a + b, name) == if EntryIndex(a, name) < |a| then EntryIndex(a, name) else |a| + EntryIndex(b, name)
  {
    if a == [] {
      assert a + b == b;
    } else if a[0].name != name {
      assert (a + b)[1..] == a[1..] + b;
      IndexJoined(a[1..], b, name);
    }
  }

  lemma {:induction false} StepIndexJoined(a: seq<StepEntry>, b: seq<StepEntry>, name: string)
    ensures StepIndex(a + b, name) == if StepIndex(a, name) < |a| then StepIndex(a, name) else |a| + StepIndex(b, name)
  {
    if a == [] {
      assert a + b == b;
    } else if a[0].name != name {
      assert (a + b)[1..] == a[1..] + b;
      StepIndexJoined(a[1..], b, name);
    }
  }

  lemma {:induction false} KeptModulesFrom(es: seq<ModuleEntry>, ms: seq<Module>)
    ensures forall e :: e in KeptModules(es, ms) ==> e in es && HasModule(ms, e.name)
  {
    if es != [] {
      KeptModulesFrom(es[1..], ms);
    }
  }

  lemma {:induction false} KeptModulesUnique(es: seq<ModuleEntry>, ms: seq<Module>)
    requires UniqueNames(es)
    ensures UniqueNames(KeptModules(es, ms))
  {
    if es != [] {
      KeptModulesUnique(es[1..], ms);
      KeptModulesFrom(es[1..], ms);
      forall e | e in es[1..] ensures e.name != es[0].name {
        var k :| 0 <= k < |es[1..]| && es[1..][k] == e;
        assert es[k + 1] == e;
      }
    }
  }

  lemma EntryJoined(a: seq<ModuleEntry>, b: seq<ModuleEntry>, name: string)
    ensures EntryOf(a + b, name) == if EntryOf(a, name).Some? then EntryOf(a, name) else EntryOf(b, name)
  {
    IndexJoined(a, b, name);
  }

  lemma {:induction false} KeptModulesHave(es: seq<ModuleEntry>, ms: seq<Module>, name: string)
    ensures EntryOf(KeptModules(es, ms), name) == if HasModule(ms, name) then EntryOf(es, name) else None
  {
    if es != [] {
      var here := if HasModule(ms, es[0].name) then [es[0]] else [];
      KeptModulesHave(es[1..], ms, name);
      EntryJoined(here, KeptModules(es[1..], ms), name);
      EntryJoined([es[0]], es[1..], name);
      assert es == [es[0]] + es[1..];
    }
  }

  lemma OneMoreModule(ms: seq<Module>, m: Module, name: string)
    ensures HasModule(ms + [m], name) <==> HasModule(ms, name) || m.name == name
  {
    if HasModule(ms, name) {
      var i :| 0 <= i < |ms| && ms[i].name == name;
      assert (ms + [m])[i].name == name;
    }
    if m.name == name {
      assert (ms + [m])[|ms|].name == name;
    }
  }

  lemma {:induction false} AddModulesHave(es: seq<ModuleEntry>, ms: seq<Module>, name: string)
    ensures var r := EntryOf(AddModules(es, ms), name);
            && (EntryOf(es, name).Some? ==> r == EntryOf(es, name))
            && (EntryOf(es, name).None? ==> (r.Some? <==> HasModule(ms, name)))
            && (EntryOf(es, name).None? && r.Some? ==> exists m :: m in ms && m.name == name && r.value == CreateStateModule(m))
  {
    if ms != [] {
      var front, m := ms[..|ms| - 1], ms[|ms| - 1];
      assert ms == front + [m];
      AddModulesHave(es, front, name);
      OneMoreModule(front, m, name);
      EntryJoined(AddModules(es, front), [CreateStateModule(m)], name);
    }
  }

  lemma {:induction false} AddModulesUnique(es: seq<ModuleEntry>, ms: seq<Module>)
    requires UniqueNames(es)
    ensures UniqueNames(AddModules(es, ms))
  {
    if ms != [] {
      AddModulesUnique(es, ms[..|ms| - 1]);
    }
  }

  lemma StepEntryJoined(a: seq<StepEntry>, b: seq<StepEntry>, name: string)
    ensures StepEntryOf(a + b, name) == if StepEntryOf(a, name).Some? then StepEntryOf(a, name) else StepEntryOf(b, name)
  {
    StepIndexJoined(a, b, name);
  }

  lemma {:induction false} KeptStepsHave(ss: seq<StepEntry>, config: seq<Step>, name: string)
    ensures StepEntryOf(KeptSteps(ss, config), name) ==
            if StepOf(config, name).Some? && StepEntryOf(ss, name).Some?
            then Some(KeptStep(StepEntryOf(ss, name).value, StepOf(config, name).value)) else None
  {
    if ss != [] {
      KeptStepsHave(ss[1..], config, name);
      var c := ConfigIndex(config, ss[0].name);
      StepEntryJoined(if c < |config| then [KeptStep(ss[0], config[c])] else [], KeptSteps(ss[1..], config), name);
      StepEntryJoined([ss[0]], ss[1..], name);
      assert ss == [ss[0]] + ss[1..];
    }
  }

  lemma {:induction false} KeptStepsUnique(ss: seq<StepEntry>, config: seq<Step>)
    requires UniqueEntries(ss)
    ensures UniqueEntries(KeptSteps(ss, config))
    ensures forall s :: s in KeptSteps(ss, config) ==> exists t :: t in ss && t.name == s.name
  {
    if ss != [] {
      KeptStepsUnique(ss[1..], config);
      var c := ConfigIndex(config, ss[0].name);
      if c < |config| {
        KeptModulesUnique(ss[0].modules, config[c].modules);
      }
      forall s | s in KeptSteps(ss[1..], config) ensures s.name != ss[0].name {
        var t :| t in ss[1..] && t.name == s.name;
        var k :| 0 <= k < |ss[1..]| && ss[1..][k] == t;
        assert ss[k + 1] == t;
      }
    }
  }

  function ModulesOf(ss: seq<StepEntry>, name: string): seq<ModuleEntry> {
    match StepEntryOf(ss, name)
    case Some(s) => s.modules
    case None => []
  }

  lemma {:induction false} IndexReplaced(ss: seq<StepEntry>, i: nat, s: StepEntry, name: string)
    requires i < |ss| && s.name == ss[i].name
    ensures StepIndex(ss[i := s], name) == StepIndex(ss, name)
  {
    if i > 0 {
      assert ss[i := s][1..] == ss[1..][i - 1 := s];
      IndexReplaced(ss[1..], i - 1, s, name);
    } else {
      assert ss[i := s][1..] == ss[1..];
    }
  }

  lemma AddStepHas(ss: seq<StepEntry>, c: Step, name: string)
    ensures StepEntryOf(AddStep(ss, c), name) ==
            if name == c.name then Some(StepEntry(name, AddModules(ModulesOf(ss, name), c.modules))) else StepEntryOf(ss, name)
  {
    var i := StepIndex(ss, c.name);
    if i < |ss| {
      IndexReplaced(ss, i, ss[i].(modules := AddModules(ss[i].modules, c.modules)), name);
    } else {
      StepIndexJoined(ss, [StepEntry(c.name, AddModules([], c.modules))], name);
    }
  }

  lemma AddStepUnique(ss: seq<StepEntry>, c: Step)
    requires UniqueEntries(ss)
    ensures UniqueEntries(AddStep(ss, c))
  {
    AddModulesUnique(ModulesOf(ss, c.name), c.modules);
  }

  lemma {:induction false} FrontUnique(config: seq<Step>, name: string)
    requires UniqueSteps(config) && config != []
    ensures var front, last := config[..|config| - 1], config[|config| - 1];
            && UniqueSteps(front) && UniqueModules(last)
            && StepOf(config, name) == (if name == last.name then Some(last) else StepOf(front, name))
            && (name == last.name ==> StepOf(front, name) == None)
  {
    var front, last := config[..|config| - 1], config[|config| - 1];
    var i := ConfigIndex(config, name);
    var j := ConfigIndex(front, name);
    if i < |front| {
      assert front[i] == config[i] && j == i;
    } else {
      assert forall k :: 0 <= k < |front| ==> front[k] == config[k];
      assert j == |front|;
    }
  }

  lemma {:induction false} AddStepsHave(ss: seq<StepEntry>, config: seq<Step>, name: string)
    requires UniqueSteps(config)
    ensures StepEntryOf(AddSteps(ss, config), name) ==
            match StepOf(config, name)
            case Some(c) => Some(StepEntry(name, AddModules(ModulesOf(ss, name), c.modules)))
            case None => StepEntryOf(ss, name)
  {
    if config != [] {
      var front, last := config[..|config| - 1], config[|config| - 1];
      FrontUnique(config, name);
      AddStepsHave(ss, front, name);
      AddStepHas(AddSteps(ss, front), last, name);
    }
  }

  lemma {:induction false} AddStepsUnique(ss: seq<StepEntry>, config: seq<Step>)
    requires UniqueEntries(ss)
    ensures UniqueEntries(AddSteps(ss, config))
  {
    if config != [] {
      AddStepsUnique(ss, config[..|config| - 1]);
      AddStepUnique(AddSteps(ss, config[..|config| - 1]), config[|config| - 1]);
    }
  }

  lemma {:induction false} CreatedModulesAreAdded(ms: seq<Module>)
    requires forall i, j :: 0 <= i < j < |ms| ==> ms[i].name != ms[j].name
    ensures AddModules([], ms) == CreatedModules(ms)
  {
    if ms != [] {
      var front := ms[..|ms| - 1];
      CreatedModulesAreAdded(front);
      assert forall k :: 0 <= k < |front| ==> CreatedModules(front)[k].name == ms[k].name;
      assert CreatedModules(ms) == CreatedModules(front) + [CreateStateModule(ms[|ms| - 1])];
    } else {
      assert CreatedModules(ms) == [];
    }
  }

  lemma CreatedNext(config: seq<Step>)
    requires UniqueSteps(config) && config != []
    ensures var front, last := config[..|config| - 1], config[|config| - 1];
            && Created(config) == Created(front) + [StepEntry(last.name, CreatedModules(last.modules))]
            && StepIndex(Created(front), last.name) == |front|
  {
    var front, last := config[..|config| - 1], config[|config| - 1];
    assert forall k :: 0 <= k < |front| ==> Created(front)[k].name == config[k].name && config[k].name != last.name;
  }

  /** A new state file is what adding all steps to an empty one gives. */
  lemma {:induction false} CreatedIsAdded(config: seq<Step>)
    requires UniqueSteps(config)
    ensures AddSteps([], config) == Created(config)
  {
    if config != [] {
      var front, last := config[..|config| - 1], config[|config| - 1];
      FrontUnique(config, last.name);
      CreatedIsAdded(front);
      CreatedModulesAreAdded(last.modules);
      CreatedNext(config);
    } else {
      assert Created(config) == [];
    }
  }

  lemma ReconciledIsAdded(config: seq<Step>, ss: seq<StepEntry>)
    requires UniqueSteps(config)
    ensures Reconciled(config, ss) == AddSteps(KeptSteps(ss, config), config)
  {
    if ss == [] {
      CreatedIsAdded(config);
    }
  }

  /** Exactly one entry per configured step and module, if the state had no name twice. */
  lemma OneEntryEach(config: seq<Step>, ss: seq<StepEntry>)
    requires UniqueSteps(config) && UniqueEntries(ss)
    ensures UniqueEntries(Reconciled(config, ss))
    ensures forall name :: StepEntryOf(Reconciled(config, ss), name).Some? <==> StepOf(config, name).Some?
  {
    ReconciledIsAdded(config, ss);
    KeptStepsUnique(ss, config);
    AddStepsUnique(KeptSteps(ss, config), config);
    forall name ensures StepEntryOf(Reconciled(config, ss), name).Some? <==> StepOf(config, name).Some? {
      AddStepsHave(KeptSteps(ss, config), config, name);
      KeptStepsHave(ss, config, name);
    }
  }

  ghost predicate Configured(config: seq<Step>, id: ModuleId) {
    StepOf(config, id.step).Some? && HasModule(StepOf(config, id.step).value.modules, id.name)
  }

  /** Nothing is known of a new module but its name, and whether it has a source of its own. */
  ghost predicate IsNewEntry(e: ModuleEntry, ms: seq<Module>, name: string) {
    exists m :: m in ms && m.name == name && e == ModuleEntry(name, ModuleState(Blank, None, "", false), m.client)
  }

  /** A configured module keeps its entry unchanged or gets a fresh one; nothing else has an entry. */
  lemma EntriesSurvive(config: seq<Step>, ss: seq<StepEntry>, id: ModuleId)
    requires UniqueSteps(config)
    ensures var after := Lookup(Reconciled(config, ss), id);
            && (after.Some? <==> Configured(config, id))
            && (after.Some? && Lookup(ss, id).Some? ==> after == Lookup(ss, id))
            && (after.Some? && Lookup(ss, id).None? ==> IsNewEntry(after.value, StepOf(config, id.step).value.modules, id.name))
  {
    ReconciledIsAdded(config, ss);
    AddStepsHave(KeptSteps(ss, config), config, id.step);
    KeptStepsHave(ss, config, id.step);
    if StepOf(config, id.step).Some? {
      var ms := StepOf(config, id.step).value.modules;
      KeptModulesHave(ModulesOf(ss, id.step), ms, id.name);
      AddModulesHave(ModulesOf(KeptSteps(ss, config), id.step), ms, id.name);
    }
  }

  /* ---------- reconciling twice ---------- */

  ghost predicate AllUsed(ss: seq<StepEntry>, config: seq<Step>) {
    forall s :: s in ss ==> StepOf(config, s.name).Some?
                            && forall e :: e in s.modules ==> HasModule(StepOf(config, s.name).value.modules, e.name)
  }

  lemma {:induction false} UsedModulesKept(es: seq<ModuleEntry>, ms: seq<Module>)
    requires forall e :: e in es ==> HasModule(ms, e.name)
    ensures KeptModules(es, ms) == es
  {
    if es != [] {
      UsedModulesKept(es[1..], ms);
      assert es == [es[0]] + es[1..];
    }
  }

  lemma {:induction false} UsedStepsKept(ss: seq<StepEntry>, config: seq<Step>)
    requires AllUsed(ss, config)
    ensures KeptSteps(ss, config) == ss
  {
    if ss != [] {
      assert ss == [ss[0]] + ss[1..];
      UsedStepsKept(ss[1..], config);
      UsedModulesKept(ss[0].modules, StepOf(config, ss[0].name).value.modules);
    }
  }

  lemma {:induction false} KeptAreUsed(ss: seq<StepEntry>, config: seq<Step>)
    ensures AllUsed(KeptSteps(ss, config), config)
  {
    if ss != [] {
      KeptAreUsed(ss[1..], config);
      if StepOf(config, ss[0].name).Some? {
        KeptModulesFrom(ss[0].modules, StepOf(config, ss[0].name).value.modules);
      }
    }
  }

  lemma {:induction false} AddedModulesFrom(es: seq<ModuleEntry>, ms: seq<Module>)
    ensures forall e :: e in AddModules(es, ms) ==> e in es || HasModule(ms, e.name)
  {
    if ms != [] {
      var front := ms[..|ms| - 1];
      AddedModulesFrom(es, front);
      forall e | e in AddModules(es, ms) ensures e in es || HasModule(ms, e.name) {
        if HasModule(front, e.name) {
          var i :| 0 <= i < |front| && front[i].name == e.name;
          assert ms[i].name == e.name;
        } else if e !in AddModules(es, front) {
          assert ms[|ms| - 1].name == e.name;
        }
      }
    }
  }

  lemma AddStepUsed(ss: seq<StepEntry>, config: seq<Step>, c: Step)
    requires AllUsed(ss, config) && StepOf(config, c.name) == Some(c)
    ensures AllUsed(AddStep(ss, c), config)
  {
    var i := StepIndex(ss, c.name);
    AddedModulesFrom(ModulesOf(ss, c.name), c.modules);
    forall s | s in AddStep(ss, c)
      ensures StepOf(config, s.name).Some?
      ensures forall e :: e in s.modules ==> HasModule(StepOf(config, s.name).value.modules, e.name)
    {
      if i < |ss| {
        assert ss[i] in ss;
      }
    }
  }

  lemma {:induction false} AddStepsUsed(ss: seq<StepEntry>, config: seq<Step>, k: nat)
    requires AllUsed(ss, config) && UniqueSteps(config) && k <= |config|
    ensures AllUsed(AddSteps(ss, config[..k]), config)
  {
    if k > 0 {
      AddStepsUsed(ss, config, k - 1);
      assert config[..k][..k - 1] == config[..k - 1];
      var i := ConfigIndex(config, config[k - 1].name);
      assert i == k - 1;
      AddStepUsed(AddSteps(ss, config[..k - 1]), config, config[k - 1]);
    } else {
      assert config[..0] == [];
    }
  }

  lemma {:induction false} PresentModulesStay(es: seq<ModuleEntry>, ms: seq<Module>)
    requires forall i :: 0 <= i < |ms| ==> HasEntry(es, ms[i].name)
    ensures AddModules(es, ms) == es
  {
    if ms != [] {
      PresentModulesStay(es, ms[..|ms| - 1]);
    }
  }

  ghost predicate HasAll(ss: seq<StepEntry>, c: Step) {
    && StepEntryOf(ss, c.name).Some?
    && forall j :: 0 <= j < |c.modules| ==> HasEntry(ModulesOf(ss, c.name), c.modules[j].name)
  }

  lemma {:induction false} PresentStepsStay(ss: seq<StepEntry>, config: seq<Step>)
    requires forall i :: 0 <= i < |config| ==> HasAll(ss, config[i])
    ensures AddSteps(ss, config) == ss
  {
    if config != [] {
      var last := config[|config| - 1];
      assert HasAll(ss, last);
      PresentStepsStay(ss, config[..|config| - 1]);
      PresentModulesStay(ModulesOf(ss, last.name), last.modules);
    }
  }

  /** Reconciling again changes nothing. */
  lemma ReconciledTwice(config: seq<Step>, ss: seq<StepEntry>)
    requires UniqueSteps(config)
    ensures Reconciled(config, Reconciled(config, ss)) == Reconciled(config, ss)
  {
    var kept := KeptSteps(ss, config);
    var after := Reconciled(config, ss);
    ReconciledIsAdded(config, ss);
    ReconciledIsAdded(config, after);
    KeptAreUsed(ss, config);
    AddStepsUsed(kept, config, |config|);
    assert config[..|config|] == config;
    UsedStepsKept(after, config);
    forall i | 0 <= i < |config| ensures HasAll(after, config[i]) {
      AddStepsHave(kept, config, config[i].name);
      var k := ConfigIndex(config, config[i].name);
      assert k == i;
      forall j | 0 <= j < |config[i].modules| ensures HasEntry(ModulesOf(after, config[i].name), config[i].modules[j].name) {
        AddModulesHave(ModulesOf(kept, config[i].name), config[i].modules, config[i].modules[j].name);
      }
    }
    PresentStepsStay(after, config);
  }

  /* ---------- the updater's view ---------- */

  /** The state map of the updater holds what a lookup in the state file finds. */
  ghost predicate Represents(ss: seq<StepEntry>, st: State) {
    forall id :: (id in st <==> Lookup(ss, id).Some?) && (id in st ==> st[id] == Lookup(ss, id).value.state)
  }

  lemma UpdaterKnows(config: seq<Step>, st: State, u: Updater, id: ModuleId)
    requires UniqueSteps(config) && u.config == config
    ensures id in u.Reconciled(st) <==> Configured(config, id)
    ensures id in u.Reconciled(st) ==> u.Reconciled(st)[id] == if id in st then st[id] else FRESH_MODULE
  {
    if Configured(config, id) {
      var c := StepOf(config, id.step).value;
      var j :| 0 <= j < |c.modules| && c.modules[j].name == id.name;
      assert c in config && c.modules[j] in c.modules;
    }
    if id in u.Reconciled(st) {
      var s, m :| s in config && m in s.modules && id == ModuleId(s.name, m.name);
      var i :| 0 <= i < |config| && config[i] == s;
      assert ConfigIndex(config, s.name) == i;
      var j :| 0 <= j < |s.modules| && s.modules[j] == m;
    }
  }

  /** Reconciling the file is what the updater does to its map. */
  lemma UpdaterReconciles(config: seq<Step>, ss: seq<StepEntry>, st: State, u: Updater)
    requires UniqueSteps(config) && u.config == config && Represents(ss, st)
    ensures Represents(Reconciled(config, ss), u.Reconciled(st))
  {
    forall id
      ensures id in u.Reconciled(st) <==> Lookup(Reconciled(config, ss), id).Some?
      ensures id in u.Reconciled(st) ==> u.Reconciled(st)[id] == Lookup(Reconciled(config, ss), id).value.state
    {
      EntriesSurvive(config, ss, id);
      UpdaterKnows(config, st, u, id);
    }
  }
}
