/** Choosing the releases to walk: the folds over all configured and recorded versions, and the cut
    of the sorted release tags between them. */
module Window {
  import opened Versions
  import opened Model

  /** What is known about one source before its releases are chosen. `version` is the upper version
      of the source, `stable` its latest tag, `modules` the module sources it provides. */
  datatype Repository = Repository(url: string, version: Version, stable: Version, tags: seq<Version>,
                                   modules: set<string>)

  datatype Cut = Cut(newest: Version, releases: seq<Version>)

  /** The version that the state holds for a module against this source, if any. */
  function RecordedVersion(state: State, id: ModuleId, url: string): VersionText {
    if id !in state || state[id].source != url then Blank
    else if state[id].applied.Some? then state[id].applied.value
    else state[id].version
  }

  function WantedVersion(m: Module, repo: Repository): VersionText {
    if m.version == Blank then Tag(repo.version) else m.version
  }

  /* ---------- what is mentioned and wanted ---------- */

  ghost predicate Considered(m: Module, repo: Repository) {
    !m.client && m.source in repo.modules
  }

  /** The state names this text for a module of this source: as applied, or, if none is applied, as its version. */
  ghost predicate Names(state: State, id: ModuleId, url: string, t: VersionText) {
    && id in state && state[id].source == url
    && (state[id].applied == Some(t) || (state[id].applied == None && state[id].version == t))
  }

  /** The configuration asks this text of the source, for a module of its own or by the version of the source. */
  ghost predicate Asks(m: Module, repo: Repository, t: VersionText) {
    Considered(m, repo) && ((m.version != Blank && t == m.version) || (m.version == Blank && t == Tag(repo.version)))
  }

  /** `v` is not above the version that `t` names; a text that names no release is no bound. */
  ghost predicate NotAbove(v: Version, t: VersionText) {
    match t
    case Tag(w) => AtMost(v, w)
    case Ref(_) => false
    case _ => true
  }

  ghost predicate LowerBound(v: Version, s: Step, m: Module, repo: Repository, state: State) {
    Considered(m, repo) ==>
      && NotAbove(v, m.version)
      && forall t :: Names(state, ModuleId(s.name, m.name), repo.url, t) ==> NotAbove(v, t)
  }

  ghost predicate Mentions(v: Version, s: Step, m: Module, repo: Repository, state: State) {
    Considered(m, repo) && (m.version == Tag(v) || Names(state, ModuleId(s.name, m.name), repo.url, Tag(v)))
  }

  ghost predicate Malformed(s: Step, m: Module, repo: Repository, state: State) {
    Considered(m, repo) && (m.version.Ref? || exists name :: Names(state, ModuleId(s.name, m.name), repo.url, Ref(name)))
  }

  lemma RecordedIsNamed(state: State, id: ModuleId, url: string)
    ensures var t := RecordedVersion(state, id, url);
            if id in state && state[id].source == url then Names(state, id, url, t) && forall u :: Names(state, id, url, u) ==> u == t
            else t == Blank && forall u :: !Names(state, id, url, u)
  {
  }

  /* ---------- the folds ---------- */

  function OlderVersion(oldest: VersionText, other: VersionText): Result<VersionText> {
    if other == Blank || (oldest != Stable && other == Stable) || (oldest == Stable && other == Stable) then Ok(oldest)
    else if oldest == Stable then Ok(other)
    else match (Parse(oldest), Parse(other))
      case (Ok(a), Ok(b)) => if Less(a, b) then Ok(oldest) else Ok(other)
      case _ => Err("failed to parse version")
  }

  function NewerVersion(newest: VersionText, other: VersionText): Result<VersionText> {
    if newest == Blank then Ok(other)
    else match (Parse(newest), Parse(other))
      case (Ok(a), Ok(b)) => if Less(b, a) then Ok(newest) else Ok(other)
      case _ => Err("failed to parse version")
  }

  /** One round of the fold: the version that the configuration asks for, then the recorded one. */
  method OlderOfModule(oldest: VersionText, step: Step, m: Module, repo: Repository, state: State)
    returns (r: Result<VersionText>)
    requires oldest.Tag?
    ensures r.Ok? ==>
              && r.value.Tag?
              && AtMost(r.value.v, oldest.v)
              && LowerBound(r.value.v, step, m, repo, state)
              && (r.value == oldest || Mentions(r.value.v, step, m, repo, state))
    ensures r.Err? <==> Malformed(step, m, repo, state)
  {
    if m.client || m.source !in repo.modules {
      return Ok(oldest);
    }
    RecordedIsNamed(state, ModuleId(step.name, m.name), repo.url);
    var withWanted := OlderVersion(oldest, m.version);
    if withWanted.Err? {
      return withWanted;
    }
    return OlderVersion(withWanted.value, RecordedVersion(state, ModuleId(step.name, m.name), repo.url));
  }

  lemma Lowered(v: Version, w: Version, steps: seq<Step>, step: Step, modules: seq<Module>, repo: Repository, state: State)
    requires AtMost(w, v)
    requires forall s, m :: s in steps && m in s.modules ==> LowerBound(v, s, m, repo, state)
    requires forall m :: m in modules ==> LowerBound(v, step, m, repo, state)
    ensures forall s, m :: s in steps && m in s.modules ==> LowerBound(w, s, m, repo, state)
    ensures forall m :: m in modules ==> LowerBound(w, step, m, repo, state)
  {
    forall s, m | s in steps && m in s.modules ensures LowerBound(w, s, m, repo, state) {
      assert LowerBound(v, s, m, repo, state);
    }
  }

  /** The oldest version that the configuration or the state mentions for this source. */
  method OldestVersion(steps: seq<Step>, repo: Repository, state: State) returns (r: Result<VersionText>)
    ensures r.Ok? ==> r.value.Tag? && Oldest(r.value.v, steps, repo, state)
    ensures r.Err? <==> exists s, m :: s in steps && m in s.modules && Malformed(s, m, repo, state)
  {
    var oldest := Tag(repo.version);
    for i := 0 to |steps|
      invariant oldest.Tag? && AtMost(oldest.v, repo.version)
      invariant forall s, m :: s in steps[..i] && m in s.modules ==> LowerBound(oldest.v, s, m, repo, state)
      invariant oldest.v == repo.version
                || exists s, m :: s in steps && m in s.modules && Mentions(oldest.v, s, m, repo, state)
    {
      var step := steps[i];
      for j := 0 to |step.modules|
        invariant oldest.Tag? && AtMost(oldest.v, repo.version)
        invariant forall s, m :: s in steps[..i] && m in s.modules ==> LowerBound(oldest.v, s, m, repo, state)
        invariant forall m :: m in step.modules[..j] ==> LowerBound(oldest.v, step, m, repo, state)
        invariant oldest.v == repo.version
                  || exists s, m :: s in steps && m in s.modules && Mentions(oldest.v, s, m, repo, state)
      {
        var module_ := step.modules[j];
        assert step in steps && module_ in step.modules;
        var next := OlderOfModule(oldest, step, module_, repo, state);
        if next.Err? {
          return Err(next.why);
        }
        Lowered(oldest.v, next.value.v, steps[..i], step, step.modules[..j], repo, state);
        oldest := next.value;
        assert step.modules[..j + 1] == step.modules[..j] + [module_];
      }
      assert steps[..i + 1] == steps[..i] + [step];
    }
    return Ok(oldest);
  }

  /** `v` is the newest of what the considered modules among these ask for; Blank if there are none. */
  ghost predicate NewestOf(v: VersionText, modules: seq<Module>, repo: Repository) {
    match v
    case Blank => forall m :: m in modules ==> !Considered(m, repo)
    case Tag(w) => forall m, t :: m in modules && Asks(m, repo, t) ==> t.Tag? && AtMost(t.v, w)
    case _ => true
  }

  ghost predicate Wanted(v: VersionText, steps: seq<Step>, repo: Repository) {
    exists s, m :: s in steps && m in s.modules && Asks(m, repo, v)
  }

  lemma NewestStays(v: VersionText, w: VersionText, modules: seq<Module>, repo: Repository)
    requires NewestOf(v, modules, repo)
    requires v == w || v == Blank || (v.Tag? && w.Tag? && AtMost(v.v, w.v))
    ensures w != Blank || v == w ==> NewestOf(w, modules, repo)
  {
  }

  /** The newest version that the configuration asks of this source; "stable" leaves it unbounded. */
  method NewestVersion(steps: seq<Step>, repo: Repository) returns (r: Result<VersionText>)
    ensures r.Ok? && r.value != Stable ==> forall s :: s in steps ==> NewestOf(r.value, s.modules, repo)
    ensures r.Ok? && r.value != Blank ==> Wanted(r.value, steps, repo)
    ensures r.Err? ==> exists name :: Wanted(Ref(name), steps, repo)
  {
    var newest := Blank;
    for i := 0 to |steps|
      invariant !newest.Stable?
      invariant forall k :: 0 <= k < i ==> NewestOf(newest, steps[k].modules, repo)
      invariant newest != Blank ==> Wanted(newest, steps, repo)
    {
      var step := steps[i];
      for j := 0 to |step.modules|
        invariant !newest.Stable?
        invariant forall k :: 0 <= k < i ==> NewestOf(newest, steps[k].modules, repo)
        invariant NewestOf(newest, step.modules[..j], repo)
        invariant newest != Blank ==> Wanted(newest, steps, repo)
      {
        var m := step.modules[j];
        assert step in steps && m in step.modules;
        assert step.modules[..j + 1] == step.modules[..j] + [m];
        if !m.client && m.source in repo.modules {
          assert Asks(m, repo, WantedVersion(m, repo)) && Wanted(WantedVersion(m, repo), steps, repo);
          if m.version == Stable {
            return Ok(Stable);
          }
          var next := NewerVersion(newest, WantedVersion(m, repo));
          if next.Err? {
            assert newest.Ref? || WantedVersion(m, repo).Ref?;
            return Err(next.why);
          }
          forall k | 0 <= k < i ensures NewestOf(next.value, steps[k].modules, repo) {
            NewestStays(newest, next.value, steps[k].modules, repo);
          }
          NewestStays(newest, next.value, step.modules[..j], repo);
          newest := next.value;
        }
      }
      assert step.modules[..|step.modules|] == step.modules;
    }
    return Ok(newest);
  }

  /** The scan over the sorted tags: skip the older ones, stop at the first newer one. */
  method GetReleases(tags: seq<Version>, oldest: Version, newest: Option<Version>) returns (releases: seq<Version>)
    requires Ascending(tags)
    ensures Ascending(releases)
    ensures exists a, b :: 0 <= a <= b <= |tags| && releases == tags[a..b]
    ensures forall t :: t in releases <==> t in tags && AtMost(oldest, t) && (newest.Some? ==> AtMost(t, newest.value))
  {
    releases := [];
    ghost var start := 0;
    for i := 0 to |tags|
      invariant 0 <= start <= i && releases == tags[start..i]
      invariant forall k :: 0 <= k < start ==> Less(tags[k], oldest)
      invariant forall k :: start <= k < i ==>
                  AtMost(oldest, tags[k]) && (newest.Some? ==> AtMost(tags[k], newest.value))
    {
      if Less(tags[i], oldest) {
        assert start < i ==> Less(tags[start], tags[i]);
        start := i + 1;
        continue;
      }
      if newest.Some? && Less(newest.value, tags[i]) {
        forall k | i <= k < |tags| ensures Less(newest.value, tags[k]) {
          assert k == i || Less(tags[i], tags[k]);
        }
        break;
      }
      releases := releases + [tags[i]];
    }
  }

  /** The release that the configuration steers a module to. */
  ghost function Target(m: Module, upper: Version, newest: Version): Version {
    match m.version
    case Blank => upper
    case Stable => newest
    case Tag(v) => v
    case Ref(_) => newest
  }

  /** `v` is the oldest version that the configuration or the state mentions for this source. */
  ghost predicate Oldest(v: Version, steps: seq<Step>, repo: Repository, state: State) {
    && AtMost(v, repo.version)
    && (forall s, m :: s in steps && m in s.modules ==> LowerBound(v, s, m, repo, state))
    && (v == repo.version || exists s, m :: s in steps && m in s.modules && Mentions(v, s, m, repo, state))
  }

  /** `v` is the newest version that a module wants from this source. */
  ghost predicate Newest(v: Version, steps: seq<Step>, repo: Repository) {
    Wanted(Tag(v), steps, repo) && forall s :: s in steps ==> NewestOf(Tag(v), s.modules, repo)
  }

  /** Where a window ends: nothing mentioned is older than the latest release, or a module wants the latest release
      by the name of "stable", or the end is the newest version that a module wants. */
  ghost predicate EndsRight(steps: seq<Step>, repo: Repository, cut: Cut) {
    || cut.releases == [repo.stable]
    || (cut.newest == repo.stable && Wanted(Stable, steps, repo))
    || Newest(cut.newest, steps, repo)
  }

  /** What choosing the releases promises to the stepping that follows. */
  ghost predicate IsCut(steps: seq<Step>, repo: Repository, state: State, cut: Cut) {
    && |cut.releases| > 0
    && Ascending(cut.releases)
    && cut.newest == cut.releases[|cut.releases| - 1]
    && (exists a, b :: 0 <= a <= b <= |repo.tags| && cut.releases == repo.tags[a..b])
    && Oldest(cut.releases[0], steps, repo, state)
    && EndsRight(steps, repo, cut)
    && (forall s, m :: s in steps && m in s.modules && Considered(m, repo) ==>
          (Target(m, repo.version, cut.newest) in repo.tags ==> Target(m, repo.version, cut.newest) in cut.releases))
    && (forall t :: t in cut.releases <==>
          t in repo.tags && AtMost(cut.releases[0], t) && AtMost(t, cut.newest))
  }

  /** Exactly when the window of a source can be cut: the oldest mentioned version is its latest release, or it is a
      release and the newest wanted version is one too, or "stable". */
  ghost predicate CanCut(steps: seq<Step>, repo: Repository, state: State) {
    exists v :: Oldest(v, steps, repo, state) && (v == repo.stable || (v in repo.tags && CanEnd(steps, repo)))
  }

  ghost predicate CanEnd(steps: seq<Step>, repo: Repository) {
    Wanted(Stable, steps, repo) || exists v :: v in repo.tags && Newest(v, steps, repo)
  }

  lemma EndsOf(releases: seq<Version>, v: Version)
    requires Ascending(releases) && v in releases
    ensures AtMost(releases[0], v) && AtMost(v, releases[|releases| - 1])
  {
    var k :| 0 <= k < |releases| && releases[k] == v;
    assert k == 0 || Less(releases[0], releases[k]);
    assert k == |releases| - 1 || Less(releases[k], releases[|releases| - 1]);
  }

  /** Every version that the configuration or the state mentions for this source is a release of it. */
  ghost predicate MentionsOnlyReleases(steps: seq<Step>, repo: Repository, state: State) {
    && repo.version in repo.tags
    && (forall s, m :: s in steps && m in s.modules ==> !Malformed(s, m, repo, state))
    && (forall s, m, v :: s in steps && m in s.modules && Mentions(v, s, m, repo, state) ==> v in repo.tags)
  }

  ghost predicate ValidRepository(repo: Repository) {
    Ascending(repo.tags) && |repo.tags| > 0 && repo.stable == repo.tags[|repo.tags| - 1]
  }

  lemma LatestReleaseIsCut(steps: seq<Step>, repo: Repository, state: State)
    requires ValidRepository(repo) && Oldest(repo.stable, steps, repo, state)
    ensures IsCut(steps, repo, state, Cut(repo.stable, [repo.stable]))
  {
    var n := |repo.tags|;
    assert [repo.stable] == repo.tags[n - 1..n];
    forall t | t in repo.tags ensures AtMost(t, repo.stable) {
      EndsOf(repo.tags, t);
    }
    forall s, m | s in steps && m in s.modules && Considered(m, repo) && Target(m, repo.version, repo.stable) in repo.tags
      ensures Target(m, repo.version, repo.stable) in [repo.stable]
    {
      assert LowerBound(repo.stable, s, m, repo, state);
    }
  }

  /** The scan ends where the newest wanted version, or the latest release, is. */
  lemma ScanEnds(repo: Repository, low: Version, high: Option<Version>, releases: seq<Version>)
    requires ValidRepository(repo) && Ascending(releases) && low in releases
    requires high.Some? ==> high.value in repo.tags && AtMost(low, high.value)
    requires forall t :: t in releases <==> t in repo.tags && AtMost(low, t) && (high.Some? ==> AtMost(t, high.value))
    ensures |releases| > 0 && releases[0] == low
    ensures releases[|releases| - 1] == if high.Some? then high.value else repo.stable
  {
    var end := if high.Some? then high.value else repo.stable;
    EndsOf(releases, low);
    EndsOf(repo.tags, low);
    assert end in releases;
    EndsOf(releases, end);
    assert releases[0] in releases && releases[|releases| - 1] in releases;
    if high.None? {
      EndsOf(repo.tags, releases[|releases| - 1]);
    }
  }

  lemma ScannedReleasesAreCut(steps: seq<Step>, repo: Repository, state: State, low: Version, newest: VersionText,
                              releases: seq<Version>)
    requires ValidRepository(repo) && low in repo.tags && Oldest(low, steps, repo, state)
    requires (newest == Stable && Wanted(Stable, steps, repo))
             || (newest.Tag? && newest.v in repo.tags && Newest(newest.v, steps, repo))
    requires Ascending(releases)
    requires exists a, b :: 0 <= a <= b <= |repo.tags| && releases == repo.tags[a..b]
    requires forall t :: t in releases <==> t in repo.tags && AtMost(low, t) && (newest.Tag? ==> AtMost(t, newest.v))
    ensures |releases| > 0 && IsCut(steps, repo, state, Cut(releases[|releases| - 1], releases))
  {
    if newest.Tag? {
      var s, m :| s in steps && m in s.modules && Asks(m, repo, newest);
      assert LowerBound(low, s, m, repo, state);
    }
    ScanEnds(repo, low, if newest.Tag? then Some(newest.v) else None, releases);
    var high := releases[|releases| - 1];
    forall t | t in releases ensures AtMost(low, t) && AtMost(t, high) {
      EndsOf(releases, t);
    }
    forall s, m | s in steps && m in s.modules && Considered(m, repo) && Target(m, repo.version, high) in repo.tags
      ensures Target(m, repo.version, high) in releases
    {
      assert LowerBound(low, s, m, repo, state);
      assert newest.Tag? ==> NewestOf(newest, s.modules, repo);
    }
  }

  lemma OneOldest(v: Version, w: Version, steps: seq<Step>, repo: Repository, state: State)
    requires Oldest(v, steps, repo, state) && Oldest(w, steps, repo, state)
    ensures AtMost(v, w)
  {
    if w != repo.version {
      var s, m :| s in steps && m in s.modules && Mentions(w, s, m, repo, state);
      assert LowerBound(v, s, m, repo, state);
    }
  }

  lemma OneNewest(v: Version, w: Version, steps: seq<Step>, repo: Repository)
    requires Newest(v, steps, repo) && Newest(w, steps, repo)
    ensures AtMost(v, w)
  {
    var s, m :| s in steps && m in s.modules && Asks(m, repo, Tag(v));
    assert NewestOf(Tag(w), s.modules, repo);
  }

  lemma NewestOrStable(v: Version, steps: seq<Step>, repo: Repository)
    requires Newest(v, steps, repo)
    ensures !Wanted(Stable, steps, repo) && !Wanted(Blank, steps, repo)
  {
    forall s, m | s in steps && m in s.modules && Considered(m, repo) ensures WantedVersion(m, repo).Tag? {
      assert NewestOf(Tag(v), s.modules, repo);
    }
  }

  lemma Antisymmetric(v: Version, w: Version)
    requires AtMost(v, w) && AtMost(w, v)
    ensures v == w
  {
  }

  lemma OneEnd(steps: seq<Step>, repo: Repository, state: State, a: Cut, b: Cut)
    requires ValidRepository(repo) && IsCut(steps, repo, state, a) && IsCut(steps, repo, state, b)
    requires a.releases[0] == b.releases[0]
    ensures AtMost(a.newest, b.newest)
  {
    assert a.newest in a.releases && b.newest in b.releases;
    EndsOf(repo.tags, a.newest);
    EndsOf(repo.tags, b.newest);
    EndsOf(b.releases, b.releases[0]);
    if a.releases != [repo.stable] && b.newest != repo.stable {
      assert Newest(b.newest, steps, repo);
      NewestOrStable(b.newest, steps, repo);
      OneNewest(a.newest, b.newest, steps, repo);
    }
  }

  /** Configuration and state determine the window. */
  lemma OneCut(steps: seq<Step>, repo: Repository, state: State, a: Cut, b: Cut)
    requires ValidRepository(repo) && IsCut(steps, repo, state, a) && IsCut(steps, repo, state, b)
    ensures a == b
  {
    OneOldest(a.releases[0], b.releases[0], steps, repo, state);
    OneOldest(b.releases[0], a.releases[0], steps, repo, state);
    Antisymmetric(a.releases[0], b.releases[0]);
    OneEnd(steps, repo, state, a, b);
    OneEnd(steps, repo, state, b, a);
    Antisymmetric(a.newest, b.newest);
    SameMembers(a.releases, b.releases);
  }

  /** The first release of a window over the fields of configuration and state: it is at or below the version of the
      source, of every module, and of every entry of the source, its applied one if there is one; and it is one of
      these. */
  lemma FirstRelease(steps: seq<Step>, repo: Repository, state: State, cut: Cut)
    requires IsCut(steps, repo, state, cut)
    ensures AtMost(cut.releases[0], repo.version)
    ensures forall s, m :: s in steps && m in s.modules && !m.client && m.source in repo.modules ==>
              && (m.version.Tag? ==> AtMost(cut.releases[0], m.version.v))
              && var id := ModuleId(s.name, m.name);
                 id in state && state[id].source == repo.url ==>
                   if state[id].applied.Some? then state[id].applied.value.Tag? ==> AtMost(cut.releases[0], state[id].applied.value.v)
                   else state[id].version.Tag? ==> AtMost(cut.releases[0], state[id].version.v)
    ensures cut.releases[0] == repo.version || exists s, m :: s in steps && m in s.modules && FirstOf(cut.releases[0], s, m, repo, state)
  {
    forall s, m | s in steps && m in s.modules && !m.client && m.source in repo.modules
      ensures var id := ModuleId(s.name, m.name);
              id in state && state[id].source == repo.url ==>
                if state[id].applied.Some? then state[id].applied.value.Tag? ==> AtMost(cut.releases[0], state[id].applied.value.v)
                else state[id].version.Tag? ==> AtMost(cut.releases[0], state[id].version.v)
      ensures m.version.Tag? ==> AtMost(cut.releases[0], m.version.v)
    {
      var id := ModuleId(s.name, m.name);
      assert LowerBound(cut.releases[0], s, m, repo, state);
      if id in state && state[id].source == repo.url {
        assert Names(state, id, repo.url, if state[id].applied.Some? then state[id].applied.value else state[id].version);
      }
    }
    if cut.releases[0] != repo.version {
      var s, m :| s in steps && m in s.modules && Mentions(cut.releases[0], s, m, repo, state);
      assert FirstOf(cut.releases[0], s, m, repo, state);
    }
  }

  ghost predicate FirstOf(v: Version, s: Step, m: Module, repo: Repository, state: State) {
    && !m.client && m.source in repo.modules
    && (m.version == Tag(v)
        || (var id := ModuleId(s.name, m.name);
            && id in state && state[id].source == repo.url
            && (state[id].applied == Some(Tag(v)) || (state[id].applied.None? && state[id].version == Tag(v)))))
  }

  /** Two states that agree on the entries of a source have the same windows for it. */
  lemma OtherSourcesIgnored(steps: seq<Step>, repo: Repository, a: State, b: State, cut: Cut)
    requires forall id :: id in a && a[id].source == repo.url ==> id in b && b[id] == a[id]
    requires forall id :: id in b && b[id].source == repo.url ==> id in a && a[id] == b[id]
    ensures IsCut(steps, repo, a, cut) <==> IsCut(steps, repo, b, cut)
  {
    forall v, s, m ensures LowerBound(v, s, m, repo, a) <==> LowerBound(v, s, m, repo, b)
    {
      forall t ensures Names(a, ModuleId(s.name, m.name), repo.url, t) <==> Names(b, ModuleId(s.name, m.name), repo.url, t) {
      }
    }
    forall v, s, m ensures Mentions(v, s, m, repo, a) <==> Mentions(v, s, m, repo, b) {
      assert Names(a, ModuleId(s.name, m.name), repo.url, Tag(v)) <==> Names(b, ModuleId(s.name, m.name), repo.url, Tag(v));
    }
  }

  /** Ascending sequences with the same members are equal. */
  lemma {:induction false} SameMembers(a: seq<Version>, b: seq<Version>)
    requires Ascending(a) && Ascending(b) && forall t :: t in a <==> t in b
    ensures a == b
  {
    assert a != [] ==> a[0] in b;
    assert b != [] ==> b[0] in a;
    if a != [] {
      EndsOf(a, b[0]);
      EndsOf(b, a[0]);
      Antisymmetric(a[0], b[0]);
      forall t ensures t in a[1..] <==> t in b[1..] {
        WithoutFirst(a, t);
        WithoutFirst(b, t);
      }
      SameMembers(a[1..], b[1..]);
      assert a == [a[0]] + a[1..] && b == [b[0]] + b[1..];
    }
  }

  lemma WithoutFirst(s: seq<Version>, t: Version)
    requires Ascending(s) && s != []
    ensures t in s[1..] <==> t in s && t != s[0]
  {
    assert s == [s[0]] + s[1..];
  }

  /** What the scans of the code find out about the condition. */
  lemma CannotCut(steps: seq<Step>, repo: Repository, state: State, v: Version)
    requires Oldest(v, steps, repo, state) && v != repo.stable && (v !in repo.tags || !CanEnd(steps, repo))
    ensures !CanCut(steps, repo, state)
  {
    forall w | Oldest(w, steps, repo, state) ensures v == w {
      OneOldest(v, w, steps, repo, state);
      OneOldest(w, v, steps, repo, state);
      Antisymmetric(v, w);
    }
  }

  lemma MalformedCannotCut(steps: seq<Step>, repo: Repository, state: State)
    requires exists s, m :: s in steps && m in s.modules && Malformed(s, m, repo, state)
    ensures !CanCut(steps, repo, state)
  {
    var s, m :| s in steps && m in s.modules && Malformed(s, m, repo, state);
    forall v ensures !LowerBound(v, s, m, repo, state) {
    }
  }

  lemma NoRefWanted(steps: seq<Step>, repo: Repository, state: State, v: Version)
    requires Oldest(v, steps, repo, state)
    ensures forall name :: !Wanted(Ref(name), steps, repo)
  {
    forall s, m | s in steps && m in s.modules && Considered(m, repo) ensures !WantedVersion(m, repo).Ref? {
      assert LowerBound(v, s, m, repo, state);
    }
  }

  /** A newest version that is no release leaves the window without an end. */
  lemma CannotEnd(steps: seq<Step>, repo: Repository, newest: VersionText)
    requires newest != Stable && !newest.Ref?
    requires forall s :: s in steps ==> NewestOf(newest, s.modules, repo)
    requires newest != Blank ==> Wanted(newest, steps, repo)
    requires newest.Tag? ==> newest.v !in repo.tags
    ensures !CanEnd(steps, repo)
  {
    forall s, m | s in steps && m in s.modules && Considered(m, repo) ensures newest.Tag? && WantedVersion(m, repo).Tag? {
      assert NewestOf(newest, s.modules, repo);
    }
    forall v | v in repo.tags ensures !Newest(v, steps, repo) {
      if newest.Tag? && Newest(v, steps, repo) {
        OneNewest(v, newest.v, steps, repo);
        OneNewest(newest.v, v, steps, repo);
        Antisymmetric(v, newest.v);
      }
    }
  }

  /** Cuts the window of one source. When all mentioned versions are releases it fails only if no module
      uses the source and the upper version of the source is not its latest release. */
  method GetSourceReleases(steps: seq<Step>, repo: Repository, state: State) returns (r: Result<Cut>)
    requires ValidRepository(repo)
    ensures r.Ok? ==> IsCut(steps, repo, state, r.value)
    ensures r.Ok? <==> CanCut(steps, repo, state)
    ensures MentionsOnlyReleases(steps, repo, state) ==>
              (r.Err? <==> repo.version != repo.stable
                           && forall s, m :: s in steps && m in s.modules ==> !Considered(m, repo))
  {
    var oldest := OldestVersion(steps, repo, state);
    if oldest.Err? {
      MalformedCannotCut(steps, repo, state);
      return Err(oldest.why);
    }
    var low := oldest.value.v;
    if low == repo.stable {
      LatestReleaseIsCut(steps, repo, state);
      return Ok(Cut(repo.stable, [repo.stable]));
    }
    if low !in repo.tags {
      CannotCut(steps, repo, state, low);
      return Err("failed to get oldest release");
    }
    var newest := NewestVersion(steps, repo);
    NoRefWanted(steps, repo, state, low);
    if newest.Err? {
      assert false;
      return Err("failed to parse version");
    }
    var high := None;
    if newest.value != Stable {
      if !newest.value.Tag? || newest.value.v !in repo.tags {
        CannotEnd(steps, repo, newest.value);
        CannotCut(steps, repo, state, low);
        return Err("failed to get newest release");
      }
      high := Some(newest.value.v);
    }
    var releases := GetReleases(repo.tags, low, high);
    ScannedReleasesAreCut(steps, repo, state, low, newest.value, releases);
    return Ok(Cut(releases[|releases| - 1], releases));
  }
}
