/** Choosing the releases gives the stepping what it needs; a whole update, from configuration and state. */
module Start {
  import opened Versions
  import opened Model
  import opened Window
  import opened Stepping
  import opened UpdaterModule

  function SourceFrom(repo: Repository, cut: Cut, sums: VersionText -> Checksums): Source {
    Source(repo.url, Blank, repo.version, cut.newest, cut.releases, sums)
  }

  /** A source with a forced version has no releases to walk. */
  function ForcedSource(repo: Repository, forced: VersionText, sums: VersionText -> Checksums): Source {
    Source(repo.url, forced, repo.version, repo.version, [], sums)
  }

  ghost function EntryIn(state: State, s: Step, m: Module): ModuleState {
    var id := ModuleId(s.name, m.name);
    if id in state then state[id] else FRESH_MODULE
  }

  /* ---------- one module over one cut, in terms of configuration, state and tags ---------- */

  /** The version a module is to be updated to: its own, that of its source, or the newest of the window. */
  ghost function Aim(m: Module, repo: Repository, cut: Cut): Version {
    match m.version
    case Blank => repo.version
    case Tag(v) => v
    case _ => cut.newest
  }

  /** The module is not applied from this source. */
  ghost predicate IsNew(ms: ModuleState, repo: Repository) {
    ms.applied.None? || ms.source != repo.url
  }

  /** An update can start for a module that is new, or is recorded at the version it is applied at, or moves to the
      first walked release. */
  ghost predicate CanStart(m: Module, ms: ModuleState, repo: Repository, cut: Cut) {
    if IsNew(ms, repo) then |cut.releases| >= 2
    else
      && ms.applied.value.Tag?
      && (ms.version == ms.applied.value
          || (|cut.releases| >= 2 && AtMost(ms.applied.value.v, cut.releases[1])
              && (Aim(m, repo, cut) == ms.applied.value.v ==> Aim(m, repo, cut) == cut.releases[1])))
  }

  /** Whether an update brings a module to its target: it is there, or the target is a release of the source and above
      it; a module that is applied for the first time may also begin with its target. */
  ghost predicate ReachesTarget(m: Module, ms: ModuleState, repo: Repository, cut: Cut) {
    var aim := Aim(m, repo, cut);
    if IsNew(ms, repo) then |cut.releases| >= 2 && (aim in repo.tags || AtMost(aim, cut.releases[1]))
    else
      && ms.applied.value.Tag?
      && (ms.applied.value.v == aim || (aim in repo.tags && Less(ms.applied.value.v, aim)))
  }

  /** Where an update leaves a module that can start: at its target, or else at the end of the window, unless it is
      beyond it. */
  ghost function WalksTo(m: Module, ms: ModuleState, repo: Repository, cut: Cut): Version
    requires CanStart(m, ms, repo, cut)
  {
    if ReachesTarget(m, ms, repo, cut) then Aim(m, repo, cut)
    else if !IsNew(ms, repo) && Less(cut.newest, ms.applied.value.v) then ms.applied.value.v
    else cut.newest
  }

  /** The checksums need of a module that can start that it is new, at its target, beyond the window or at a release of
      its source, and that it reaches its target or its window is the longest. */
  ghost predicate Trusted(m: Module, ms: ModuleState, repo: Repository, cut: Cut, longest: bool) {
    && CanStart(m, ms, repo, cut)
    && (IsNew(ms, repo) || ms.applied.value.v == Aim(m, repo, cut) || Less(cut.newest, ms.applied.value.v)
        || ms.applied.value.v in repo.tags)
    && (ReachesTarget(m, ms, repo, cut) || longest)
  }

  lemma CutHolds(steps: seq<Step>, repo: Repository, state: State, cut: Cut, sums: VersionText -> Checksums,
                 s: Step, m: Module)
    requires IsCut(steps, repo, state, cut) && s in steps && m in s.modules && Considered(m, repo)
    ensures var src := SourceFrom(repo, cut, sums);
            var ms := EntryIn(state, s, m);
            && ValidSource(src)
            && Goal(m, src) == Aim(m, repo, cut) && (Starts(m, ms, src) <==> CanStart(m, ms, repo, cut))
            && (Goal(m, src) in repo.tags <==> Goal(m, src) in cut.releases)
            && (!Fresh(ms, src) && ms.applied.value.Tag? ==> AtMost(cut.releases[0], ms.applied.value.v))
            && (forall v :: v in cut.releases ==> v in repo.tags)
  {
    FirstRelease(steps, repo, state, cut);
    var a, b :| 0 <= a <= b <= |repo.tags| && cut.releases == repo.tags[a..b];
    forall v | v in cut.releases ensures v in repo.tags {
      assert v in repo.tags[a..b];
    }
  }

  /** Over a cut, a module that can start arrives exactly if its target is reached in this sense, and where it ends
      otherwise. */
  lemma CutArrives(steps: seq<Step>, repo: Repository, state: State, cut: Cut, sums: VersionText -> Checksums,
                   s: Step, m: Module)
    requires IsCut(steps, repo, state, cut) && s in steps && m in s.modules && Considered(m, repo)
    requires CanStart(m, EntryIn(state, s, m), repo, cut)
    ensures var src, ms := SourceFrom(repo, cut, sums), EntryIn(state, s, m);
            && Starts(m, ms, src) && (Arriving(m, ms, src) <==> ReachesTarget(m, ms, repo, cut))
            && EndVersion(m, ms, src) == WalksTo(m, ms, repo, cut)
  {
    var src, ms := SourceFrom(repo, cut, sums), EntryIn(state, s, m);
    CutHolds(steps, repo, state, cut, sums, s, m);
    EndIs(m, ms, src);
    if |src.releases| >= 2 && !Fresh(ms, src) {
      LaterReleases(src, Goal(m, src), 0);
      assert src.releases[0..] == src.releases;
    } else if |src.releases| == 1 {
      assert src.newest == src.releases[0];
      assert Goal(m, src) in src.releases ==> Goal(m, src) == src.releases[0];
    }
  }

  /** Over a cut, exactly when the checksums can be trusted for a module. */
  lemma CutTracks(steps: seq<Step>, repo: Repository, state: State, cut: Cut, sums: VersionText -> Checksums,
                  s: Step, m: Module, longest: bool)
    requires IsCut(steps, repo, state, cut) && s in steps && m in s.modules && Considered(m, repo)
    ensures ValidSource(SourceFrom(repo, cut, sums))
    ensures var ms := EntryIn(state, s, m);
            Tracked(m, ms, SourceFrom(repo, cut, sums), longest) <==> Trusted(m, ms, repo, cut, longest)
  {
    CutHolds(steps, repo, state, cut, sums, s, m);
    if CanStart(m, EntryIn(state, s, m), repo, cut) {
      CutArrives(steps, repo, state, cut, sums, s, m);
    }
  }

  /** A run over a cut leaves every module that is applied from this source where it is. */
  lemma CutKeepsApplied(steps: seq<Step>, repo: Repository, state: State, cut: Cut, sums: VersionText -> Checksums,
                        s: Step, m: Module)
    requires IsCut(steps, repo, state, cut)
    requires s in steps && m in s.modules && Considered(m, repo) && ModuleId(s.name, m.name) in state
    requires var ms := state[ModuleId(s.name, m.name)]; !IsNew(ms, repo) && ms.applied.value.Tag?
    ensures var ms := state[ModuleId(s.name, m.name)];
            var chosen := ModuleVersion(m, ms, SourceFrom(repo, cut, sums), 0, s.approve);
            && chosen.Ok? && chosen.value.version == ms.applied.value
            && (ms.version == ms.applied.value ==> Recorded(chosen.value.state).applied == ms.applied)
  {
    FirstRelease(steps, repo, state, cut);
    RunKeepsApplied(m, state[ModuleId(s.name, m.name)], SourceFrom(repo, cut, sums), s.approve);
  }

  /* ---------- all sources ---------- */

  /** The sources whose windows are cut: those without a forced version. */
  ghost predicate ValidRepositories(repos: map<SourceKey, Repository>) {
    forall key :: key in repos && key.forced == Blank ==> ValidRepository(repos[key])
  }

  ghost predicate AllCut(steps: seq<Step>, repos: map<SourceKey, Repository>, state: State, cuts: map<SourceKey, Cut>) {
    && (forall key :: key in cuts <==> key in repos && key.forced == Blank)
    && (forall key :: key in cuts ==> IsCut(steps, repos[key], state, cuts[key]))
  }

  ghost predicate AllCanCut(steps: seq<Step>, repos: map<SourceKey, Repository>, state: State) {
    forall key :: key in repos && key.forced == Blank ==> CanCut(steps, repos[key], state)
  }

  /** Cuts the windows of all sources without a forced version. */
  method AddSourceReleases(steps: seq<Step>, repos: map<SourceKey, Repository>, state: State)
    returns (r: Result<map<SourceKey, Cut>>)
    requires ValidRepositories(repos)
    ensures r.Ok? ==> AllCut(steps, repos, state, r.value)
    ensures r.Ok? <==> AllCanCut(steps, repos, state)
  {
    var cuts: map<SourceKey, Cut> := map[];
    var todo := repos.Keys;
    while todo != {}
      invariant todo <= repos.Keys
      invariant forall key :: key in cuts <==> key in repos && key !in todo && key.forced == Blank
      invariant forall key :: key in cuts ==> IsCut(steps, repos[key], state, cuts[key]) && CanCut(steps, repos[key], state)
    {
      var key :| key in todo;
      todo := todo - {key};
      if key.forced != Blank {
        continue;
      }
      var cut := GetSourceReleases(steps, repos[key], state);
      if cut.Err? {
        return Err("failed to get releases");
      }
      cuts := cuts[key := cut.value];
    }
    return Ok(cuts);
  }

  /** Configuration and state determine the windows of all sources. */
  lemma OneWindowEach(steps: seq<Step>, repos: map<SourceKey, Repository>, state: State, a: map<SourceKey, Cut>,
                      b: map<SourceKey, Cut>)
    requires ValidRepositories(repos) && AllCut(steps, repos, state, a) && AllCut(steps, repos, state, b)
    ensures a == b
  {
    forall key | key in a ensures a[key] == b[key] {
      OneCut(steps, repos[key], state, a[key], b[key]);
    }
    assert a.Keys == b.Keys;
  }

  /** Every module without a source of its own belongs to one of the sources. */
  ghost predicate Placed(steps: seq<Step>, home: map<string, SourceKey>, repos: map<SourceKey, Repository>) {
    forall s, m :: s in steps && m in s.modules && !m.client ==>
      m.source in home && home[m.source] in repos && m.source in repos[home[m.source]].modules
  }

  /** The source has its window from the cut, or a forced version, and its checksums from `sums`. */
  ghost predicate SourceFits(src: Source, repos: map<SourceKey, Repository>, cuts: map<SourceKey, Cut>, key: SourceKey,
                             sums: (SourceKey, VersionText) -> Checksums)
    requires key in repos
  {
    src == SourceIn(repos, cuts, key, src.sums) && forall v :: src.sums(v) == sums(key, v)
  }

  /** The updater has its steps and sources from these cuts. */
  ghost predicate Assembled(u: Updater, repos: map<SourceKey, Repository>, cuts: map<SourceKey, Cut>,
                            sums: (SourceKey, VersionText) -> Checksums) {
    && UniqueSteps(u.steps) && (forall s :: s in u.steps ==> s in u.config) && Placed(u.steps, u.home, repos)
    && u.sources.Keys == repos.Keys
    && (forall key :: key in cuts <==> key in repos && key.forced == Blank)
    && (forall key :: key in repos ==> SourceFits(u.sources[key], repos, cuts, key, sums))
  }

  function SourceIn(repos: map<SourceKey, Repository>, cuts: map<SourceKey, Cut>, key: SourceKey,
                    sums: VersionText -> Checksums): Source
    requires key in repos
  {
    if key in cuts then SourceFrom(repos[key], cuts[key], sums) else ForcedSource(repos[key], key.forced, sums)
  }

  lemma AssembledIsValid(u: Updater, repos: map<SourceKey, Repository>, cuts: map<SourceKey, Cut>,
                         sums: (SourceKey, VersionText) -> Checksums, state: State)
    requires Assembled(u, repos, cuts, sums) && AllCut(u.steps, repos, state, cuts)
    ensures u.Valid()
  {
    forall key | key in u.sources ensures ValidSource(u.sources[key]) {
      assert key in cuts ==> IsCut(u.steps, repos[key], state, cuts[key]);
    }
  }

  /** Every module of a source whose window is cut can start over it. */
  ghost predicate AllCanStart(steps: seq<Step>, home: map<string, SourceKey>, repos: map<SourceKey, Repository>,
                              cuts: map<SourceKey, Cut>, state: State)
    requires Placed(steps, home, repos)
  {
    forall s, m :: s in steps && m in s.modules && !m.client && home[m.source] in cuts ==>
      CanStart(m, EntryIn(state, s, m), repos[home[m.source]], cuts[home[m.source]])
  }

  lemma CutsStart(u: Updater, repos: map<SourceKey, Repository>, cuts: map<SourceKey, Cut>,
                  sums: (SourceKey, VersionText) -> Checksums, state: State)
    requires Assembled(u, repos, cuts, sums) && AllCut(u.steps, repos, state, cuts)
    requires AllCanStart(u.steps, u.home, repos, cuts, state)
    ensures u.Valid() && u.AllStart(state)
  {
    AssembledIsValid(u, repos, cuts, sums, state);
    forall s, m | s in u.steps && m in s.modules && !m.client ensures Starts(m, u.Entry(state, s, m), u.SourceOf(m)) {
      var key := u.home[m.source];
      if key in cuts {
        CutHolds(u.steps, repos[key], state, cuts[key], u.sources[key].sums, s, m);
      }
    }
  }

  /* ---------- a whole update ---------- */

  /** Where an update leaves a module of a source whose window is cut. */
  ghost predicate Arrives(m: Module, start: ModuleState, end: ModuleState, repo: Repository, cut: Cut) {
    CanStart(m, start, repo, cut) ==> end.source == repo.url && end.applied == Some(Tag(WalksTo(m, start, repo, cut)))
  }

  /** Where an update leaves all modules; those of a source with a forced version are applied at it. */
  ghost predicate AllArrive(steps: seq<Step>, home: map<string, SourceKey>, repos: map<SourceKey, Repository>,
                            cuts: map<SourceKey, Cut>, before: State, after: State, processed: bool)
    requires Placed(steps, home, repos)
  {
    forall s, m :: s in steps && m in s.modules && !m.client ==>
      var key, end := home[m.source], EntryIn(after, s, m);
      if key in cuts then Arrives(m, EntryIn(before, s, m), end, repos[key], cuts[key])
      else processed ==> end.source == repos[key].url && end.applied == Some(key.forced)
  }

  /** The modules with a source of their own are applied at their own version. */
  ghost predicate AllClientsAt(steps: seq<Step>, after: State) {
    forall s, m :: s in steps && m in s.modules && m.client ==> EntryIn(after, s, m).applied == Some(m.version)
  }

  ghost predicate LongestWindow(cuts: map<SourceKey, Cut>, cut: Cut) {
    forall key :: key in cuts ==> |cuts[key].releases| <= |cut.releases|
  }

  /** The last pipeline of the module's step ran on the content of the module's folder that is recorded as applied. */
  ghost predicate RanWhatIsApplied(s: Step, m: Module, sums: VersionText -> Checksums, after: State,
                                   ran: map<ModuleId, VersionText>) {
    var id := ModuleId(s.name, m.name);
    && id in ran && id in after && after[id].applied.Some?
    && (s.kind.ArgoCD? ==> SameFolder("modules/k8s/" + m.source, sums(ran[id]), sums(after[id].applied.value)))
    && (!s.kind.ArgoCD? ==> SameFolder("modules/" + m.source, sums(ran[id]), sums(after[id].applied.value)))
  }

  /** Nothing was wrongly skipped. */
  ghost predicate AllRanWhatIsApplied(steps: seq<Step>, home: map<string, SourceKey>, repos: map<SourceKey, Repository>,
                                      cuts: map<SourceKey, Cut>, sums: (SourceKey, VersionText) -> Checksums,
                                      before: State, after: State, ran: map<ModuleId, VersionText>)
    requires Placed(steps, home, repos)
  {
    forall s, m :: s in steps && m in s.modules && !m.client ==>
      var key := home[m.source];
      (key in cuts ==> Trusted(m, EntryIn(before, s, m), repos[key], cuts[key], LongestWindow(cuts, cuts[key]))) ==>
        RanWhatIsApplied(s, m, v => sums(key, v), after, ran)
  }

  lemma ModuleArrives(u: Updater, repos: map<SourceKey, Repository>, cuts: map<SourceKey, Cut>,
                      sums: (SourceKey, VersionText) -> Checksums, before: State, after: State, processed: bool, s: Step, m: Module)
    requires Assembled(u, repos, cuts, sums) && AllCut(u.steps, repos, before, cuts)
    requires s in u.steps && m in s.modules && !m.client
    requires Ended(m, EntryIn(before, s, m), EntryIn(after, s, m), u.SourceOf(m), processed)
    ensures var key, end := u.home[m.source], EntryIn(after, s, m);
            if key in cuts then Arrives(m, EntryIn(before, s, m), end, repos[key], cuts[key])
            else processed ==> end.source == repos[key].url && end.applied == Some(key.forced)
  {
    var key := u.home[m.source];
    if key in cuts {
      if CanStart(m, EntryIn(before, s, m), repos[key], cuts[key]) {
        CutArrives(u.steps, repos[key], before, cuts[key], u.sources[key].sums, s, m);
      }
    }
  }

  lemma EndsArrive(u: Updater, repos: map<SourceKey, Repository>, cuts: map<SourceKey, Cut>,
                   sums: (SourceKey, VersionText) -> Checksums, before: State, after: State, processed: bool)
    requires Assembled(u, repos, cuts, sums) && AllCut(u.steps, repos, before, cuts) && u.AllEnd(before, after, processed)
    ensures AllArrive(u.steps, u.home, repos, cuts, before, after, processed)
    ensures processed ==> AllClientsAt(u.steps, after)
  {
    forall s, m | s in u.steps && m in s.modules && !m.client
      ensures var key, end := u.home[m.source], EntryIn(after, s, m);
              if key in cuts then Arrives(m, EntryIn(before, s, m), end, repos[key], cuts[key])
              else processed ==> end.source == repos[key].url && end.applied == Some(key.forced)
    {
      assert u.Entry(before, s, m) == EntryIn(before, s, m) && u.Entry(after, s, m) == EntryIn(after, s, m);
      ModuleArrives(u, repos, cuts, sums, before, after, processed, s, m);
    }
    if processed {
      forall s, m | s in u.steps && m in s.modules && m.client ensures EntryIn(after, s, m).applied == Some(m.version) {
        assert u.Entry(after, s, m) == EntryIn(after, s, m);
      }
    }
  }

  lemma ModuleRanWhatIsApplied(u: Updater, repos: map<SourceKey, Repository>, cuts: map<SourceKey, Cut>,
                               sums: (SourceKey, VersionText) -> Checksums, before: State, after: State,
                               ran: map<ModuleId, VersionText>, s: Step, m: Module)
    requires Assembled(u, repos, cuts, sums) && AllCut(u.steps, repos, before, cuts) && u.Valid()
    requires u.AllSound(before, after, ran) && s in u.steps && m in s.modules && !m.client
    requires var key := u.home[m.source];
             key in cuts ==> Trusted(m, EntryIn(before, s, m), repos[key], cuts[key], LongestWindow(cuts, cuts[key]))
    ensures RanWhatIsApplied(s, m, v => sums(u.home[m.source], v), after, ran)
  {
    var key := u.home[m.source];
    var src := u.SourceOf(m);
    if key in cuts {
      CutTracks(u.steps, repos[key], before, cuts[key], src.sums, s, m, LongestWindow(cuts, cuts[key]));
      if LongestWindow(cuts, cuts[key]) {
        forall other | other in u.sources ensures |u.sources[other].releases| <= |src.releases| {
          assert u.sources[other] == SourceIn(repos, cuts, other, u.sources[other].sums);
        }
      }
    }
    assert u.Entry(before, s, m) == EntryIn(before, s, m);
    assert Tracked(m, u.Entry(before, s, m), src, u.Longest(src));
  }

  lemma RanTheApplied(u: Updater, repos: map<SourceKey, Repository>, cuts: map<SourceKey, Cut>,
                      sums: (SourceKey, VersionText) -> Checksums, before: State, after: State,
                      ran: map<ModuleId, VersionText>)
    requires Assembled(u, repos, cuts, sums) && AllCut(u.steps, repos, before, cuts) && u.Valid()
    requires u.AllSound(before, after, ran)
    ensures AllRanWhatIsApplied(u.steps, u.home, repos, cuts, sums, before, after, ran)
  {
    forall s, m | s in u.steps && m in s.modules && !m.client
      ensures var key := u.home[m.source];
              (key in cuts ==> Trusted(m, EntryIn(before, s, m), repos[key], cuts[key], LongestWindow(cuts, cuts[key]))) ==>
                RanWhatIsApplied(s, m, v => sums(key, v), after, ran)
    {
      var key := u.home[m.source];
      if key in cuts ==> Trusted(m, EntryIn(before, s, m), repos[key], cuts[key], LongestWindow(cuts, cuts[key])) {
        ModuleRanWhatIsApplied(u, repos, cuts, sums, before, after, ran, s, m);
      }
    }
  }

  lemma SourceInFits(repos: map<SourceKey, Repository>, cuts: map<SourceKey, Cut>, key: SourceKey,
                     sums: (SourceKey, VersionText) -> Checksums)
    requires key in repos
    ensures SourceFits(SourceIn(repos, cuts, key, v => sums(key, v)), repos, cuts, key, sums)
  {
  }

  /** The updater over the cut windows. */
  method Assemble(config: seq<Step>, steps: seq<Step>, home: map<string, SourceKey>, repos: map<SourceKey, Repository>,
                  cuts: map<SourceKey, Cut>, sums: (SourceKey, VersionText) -> Checksums, state: State)
    returns (u: Updater)
    requires UniqueSteps(steps) && (forall s :: s in steps ==> s in config) && Placed(steps, home, repos)
    requires AllCut(steps, repos, state, cuts)
    ensures fresh(u) && u.state == state && u.firstRunDone == {} && u.steps == steps && u.home == home
    ensures Assembled(u, repos, cuts, sums) && u.Valid()
  {
    var sources := map key | key in repos :: SourceIn(repos, cuts, key, v => sums(key, v));
    forall key | key in repos ensures SourceFits(sources[key], repos, cuts, key, sums) {
      SourceInFits(repos, cuts, key, sums);
    }
    u := new Updater(config, steps, home, sources, state);
    AssembledIsValid(u, repos, cuts, sums, state);
  }

  lemma WindowsReach(u: Updater, repos: map<SourceKey, Repository>, cuts: map<SourceKey, Cut>,
                     sums: (SourceKey, VersionText) -> Checksums)
    requires Assembled(u, repos, cuts, sums)
    ensures u.Reaches(1) <==> exists key :: key in cuts && |cuts[key].releases| >= 2
  {
    forall key | key in u.sources ensures 1 < |u.sources[key].releases| <==> key in cuts && |cuts[key].releases| >= 2 {
      assert u.sources[key] == SourceIn(repos, cuts, key, u.sources[key].sums);
    }
  }

  /** All windows can be cut, all modules can start over them, all steps can be run and nothing else goes wrong. */
  ghost predicate NothingHinders(steps: seq<Step>, home: map<string, SourceKey>, repos: map<SourceKey, Repository>,
                                 cuts: map<SourceKey, Cut>, state: State, env: Environment)
    requires Placed(steps, home, repos)
  {
    && AllCanCut(steps, repos, state) && AllCanStart(steps, home, repos, cuts, state)
    && Smooth(env) && forall s :: s in steps ==> Runnable(s)
  }

  /** A whole update, from configuration and state: the windows are cut, then walked. If it succeeds and no retried
      step was forgotten, every module arrives, and what was skipped had not changed since it last ran. It succeeds if
      nothing hinders it. */
  method Update(config: seq<Step>, steps: seq<Step>, home: map<string, SourceKey>, repos: map<SourceKey, Repository>,
                sums: (SourceKey, VersionText) -> Checksums, state: State, env: Environment)
    returns (ok: bool, processed: bool, after: State, cuts: map<SourceKey, Cut>, ghost lost: bool,
             ghost ran: map<ModuleId, VersionText>)
    requires UniqueSteps(steps) && (forall s :: s in steps ==> s in config) && Placed(steps, home, repos)
    requires ValidRepositories(repos)
    ensures lost ==> Loses(env)
    ensures ok ==> AllCanCut(steps, repos, state)
    ensures AllCanCut(steps, repos, state) ==> AllCut(steps, repos, state, cuts)
    ensures NothingHinders(steps, home, repos, cuts, state, env) ==> ok && !lost
    ensures ok && !lost ==> AllArrive(steps, home, repos, cuts, state, after, processed)
    ensures ok && !lost && processed ==> AllClientsAt(steps, after)
    ensures ok && !lost && processed ==> AllRanWhatIsApplied(steps, home, repos, cuts, sums, state, after, ran)
    ensures ok ==> (processed <==> exists key :: key in cuts && |cuts[key].releases| >= 2)
  {
    var cut := AddSourceReleases(steps, repos, state);
    if cut.Err? {
      return false, false, state, map[], false, map[];
    }
    cuts := cut.value;
    var updater := Assemble(config, steps, home, repos, cuts, sums, state);
    if AllCanStart(steps, home, repos, cuts, state) {
      CutsStart(updater, repos, cuts, sums, state);
    }
    WindowsReach(updater, repos, cuts, sums);
    processed, ok, lost := updater.Process(true, env);
    after, ran := updater.state, updater.executed;
    if ok && !lost {
      EndsArrive(updater, repos, cuts, sums, state, after, processed);
      if processed {
        RanTheApplied(updater, repos, cuts, sums, state, after, ran);
      }
    }
  }

  /* ---------- a whole run ---------- */

  /** The files of a module are made from this version, and it is applied. */
  ghost predicate RunsAt(id: ModuleId, v: VersionText, after: State, ran: map<ModuleId, VersionText>) {
    id in ran && ran[id] == v && id in after && after[id].applied == Some(v)
  }

  /** Over a window a new module is installed at the lower of the first release and its target. A module that is applied
      is run at its applied version, which stays recorded if and only if the window begins there or the state already
      names it. */
  ghost predicate RanOver(m: Module, id: ModuleId, ms: ModuleState, repo: Repository, cut: Cut, after: State,
                          ran: map<ModuleId, VersionText>)
    requires cut.releases != []
  {
    var first, aim := cut.releases[0], Aim(m, repo, cut);
    if IsNew(ms, repo) then
      && (Less(first, aim) ==> RunsAt(id, Tag(first), after, ran))
      && (!Less(first, aim) ==> RunsAt(id, Tag(aim), after, ran))
      && after[id].source == repo.url
    else
      ms.applied.value.Tag? ==>
        && id in ran && ran[id] == ms.applied.value && id in after
        && (after[id].applied == ms.applied <==> ms.applied.value.v == first || ms.version == ms.applied.value)
  }

  /** What a run leaves of a module; `cut` is the window of its source, if that has no forced version. */
  ghost predicate Ran(s: Step, m: Module, key: SourceKey, repo: Repository, cuts: map<SourceKey, Cut>, before: State,
                      after: State, ran: map<ModuleId, VersionText>)
  {
    var id := ModuleId(s.name, m.name);
    if key in cuts then cuts[key].releases != [] && RanOver(m, id, EntryIn(before, s, m), repo, cuts[key], after, ran)
    else RunsAt(id, key.forced, after, ran) && after[id].source == repo.url
  }

  ghost predicate AllRan(steps: seq<Step>, home: map<string, SourceKey>, repos: map<SourceKey, Repository>,
                         cuts: map<SourceKey, Cut>, before: State, after: State, ran: map<ModuleId, VersionText>)
    requires Placed(steps, home, repos)
  {
    && (forall s, m :: s in steps && m in s.modules && !m.client ==>
          Ran(s, m, home[m.source], repos[home[m.source]], cuts, before, after, ran))
    && (forall s, m :: s in steps && m in s.modules && m.client ==>
          RunsAt(ModuleId(s.name, m.name), m.version, after, ran))
  }

  lemma ModuleRan(u: Updater, repos: map<SourceKey, Repository>, cuts: map<SourceKey, Cut>,
                  sums: (SourceKey, VersionText) -> Checksums, before: State, after: State,
                  ran: map<ModuleId, VersionText>, s: Step, m: Module)
    requires Assembled(u, repos, cuts, sums) && AllCut(u.steps, repos, before, cuts)
    requires s in u.steps && m in s.modules && !m.client && u.RunDone(s, m, before, after, ran)
    ensures Ran(s, m, u.home[m.source], repos[u.home[m.source]], cuts, before, after, ran)
  {
    var key := u.home[m.source];
    assert u.Entry(before, s, m) == EntryIn(before, s, m);
    if key in cuts {
      CutHolds(u.steps, repos[key], before, cuts[key], u.sources[key].sums, s, m);
    }
  }

  lemma RunLeaves(u: Updater, repos: map<SourceKey, Repository>, cuts: map<SourceKey, Cut>,
                  sums: (SourceKey, VersionText) -> Checksums, before: State, after: State,
                  ran: map<ModuleId, VersionText>)
    requires Assembled(u, repos, cuts, sums) && AllCut(u.steps, repos, before, cuts) && u.AllRunDone(before, after, ran)
    ensures AllRan(u.steps, u.home, repos, cuts, before, after, ran)
  {
    forall s, m | s in u.steps && m in s.modules && !m.client
      ensures Ran(s, m, u.home[m.source], repos[u.home[m.source]], cuts, before, after, ran)
    {
      assert u.RunDone(s, m, before, after, ran);
      ModuleRan(u, repos, cuts, sums, before, after, ran, s, m);
    }
    forall s, m | s in u.steps && m in s.modules && m.client
      ensures RunsAt(ModuleId(s.name, m.name), m.version, after, ran)
    {
      assert u.RunDone(s, m, before, after, ran);
    }
  }

  /** A whole run, from configuration and state: if it succeeds and no retried step was forgotten, every module was run
      at the stated version. */
  method Run(config: seq<Step>, steps: seq<Step>, home: map<string, SourceKey>, repos: map<SourceKey, Repository>,
             sums: (SourceKey, VersionText) -> Checksums, state: State, env: Environment)
    returns (ok: bool, after: State, cuts: map<SourceKey, Cut>, ghost lost: bool, ghost ran: map<ModuleId, VersionText>)
    requires UniqueSteps(steps) && (forall s :: s in steps ==> s in config) && Placed(steps, home, repos)
    requires ValidRepositories(repos)
    ensures lost ==> Loses(env)
    ensures ok ==> AllCanCut(steps, repos, state)
    ensures AllCanCut(steps, repos, state) ==> AllCut(steps, repos, state, cuts)
    ensures ok && !lost ==> AllRan(steps, home, repos, cuts, state, after, ran)
  {
    var cut := AddSourceReleases(steps, repos, state);
    if cut.Err? {
      return false, state, map[], false, map[];
    }
    cuts := cut.value;
    var updater := Assemble(config, steps, home, repos, cuts, sums, state);
    var processed;
    processed, ok, lost := updater.Process(false, env);
    after, ran := updater.state, updater.executed;
    if ok && !lost {
      RunLeaves(updater, repos, cuts, sums, state, after, ran);
    }
  }
}
