/** The version one module gets at one release, and what holds of it from release to release. */
module Stepping {
  import opened Versions
  import opened Model
  import Window

  type Checksums = map<string, int>

  datatype SourceKey = SourceKey(url: string, forced: VersionText)

  /** A source once its releases are chosen. `forced` is Blank unless one version is forced; `sums` gives
      the checksums of all module folders at a release. */
  datatype Source = Source(url: string, forced: VersionText, version: Version, newest: Version,
                           releases: seq<Version>, sums: VersionText -> Checksums)

  ghost predicate ValidSource(src: Source) {
    && Ascending(src.releases)
    && (src.forced == Blank ==> |src.releases| > 0 && src.newest == src.releases[|src.releases| - 1])
    && (src.forced != Blank ==> src.releases == [])
  }

  ghost function Goal(m: Module, src: Source): Version {
    Window.Target(m, src.version, src.newest)
  }

  function StepAutoApprove(approve: Approve): bool {
    if approve.ApproveNever? || approve.ApproveForce? then true
    else if approve.ApproveUnset? || approve.ApproveAlways? || approve.ApproveReject? then false
    else true
  }

  function ModuleAutoApprove(applied: Version, tag: Version, approve: Approve): bool {
    if approve.ApproveNever? || approve.ApproveForce? then true
    else if approve.ApproveUnset? || approve.ApproveAlways? || approve.ApproveReject? then false
    else if approve.ApproveMajor? then applied.major >= tag.major
    else if approve.ApproveMinor? then applied.major >= tag.major && applied.minor >= tag.minor
    else false
  }

  /** The module state after choosing, the version its files are made from, and whether it counts as changed. */
  datatype Chosen = Chosen(state: ModuleState, version: VersionText, changed: bool)

  function ClientVersion(m: Module, ms: ModuleState, approve: Approve): Chosen {
    Chosen(ms.(autoApprove := StepAutoApprove(approve), version := m.version), m.version, true)
  }

  /** Exactly when a module with a source of its own may be approved: whatever the step's policy is, unless it is
      missing, `always` or `reject`. No version is compared. */
  lemma ClientApproval(m: Module, ms: ModuleState, approve: Approve)
    ensures ClientVersion(m, ms, approve).state.autoApprove <==>
            !approve.ApproveUnset? && !approve.ApproveAlways? && !approve.ApproveReject?
  {
  }

  ghost predicate Fresh(ms: ModuleState, src: Source) {
    ms.applied.None? || ms.source != src.url
  }

  function ModuleVersion(m: Module, ms: ModuleState, src: Source, index: nat, approve: Approve): Result<Chosen> {
    var marked := ms.(autoApprove := StepAutoApprove(approve));
    if src.forced != Blank then
      var moved := if ms.source != src.url then marked.(source := src.url, applied := None) else marked;
      Ok(Chosen(moved.(version := src.forced), src.forced, true))
    else
      var target := match m.version
                    case Blank => src.version
                    case Stable => src.newest
                    case Tag(v) => v
                    case Ref(_) => src.newest;
      if index >= |src.releases| then Ok(Chosen(marked, Tag(target), false))
      else
        var tag := src.releases[index];
        if ms.applied.None? || ms.source != src.url then
          var first := if Less(tag, target) then tag else target;
          Ok(Chosen(marked.(source := src.url, applied := None, version := Tag(first)), Tag(first), true))
        else match ms.applied.value
          case Tag(applied) =>
            if (target == applied && Less(target, tag)) || Less(tag, applied) then
              Ok(Chosen(marked, Tag(applied), false))
            else
              Ok(Chosen(marked.(autoApprove := ModuleAutoApprove(applied, tag, approve), version := Tag(tag)),
                        Tag(tag), true))
          case _ => Err("failed to parse applied version")
  }

  /** Recording an applied step copies the chosen version of each of its modules. */
  function Recorded(ms: ModuleState): ModuleState {
    ms.(applied := Some(ms.version))
  }

  /** The release of a source at an index; the last one stands for all later indexes. */
  function ReleaseAt(src: Source, index: nat): VersionText
    requires src.forced == Blank ==> |src.releases| > 0
  {
    if src.forced != Blank then src.forced
    else if index < |src.releases| then Tag(src.releases[index])
    else Tag(src.releases[|src.releases| - 1])
  }

  /** The release at `index` replaces the version of a module that has `applied`. */
  ghost predicate Moves(applied: Version, target: Version, src: Source, index: nat) {
    && index < |src.releases|
    && !(target == applied && Less(target, src.releases[index]))
    && !Less(src.releases[index], applied)
  }

  /** A release below the one at `index` is at most its neighbour. */
  lemma NoGapBelow(src: Source, v: Version, index: nat)
    requires ValidSource(src) && src.forced == Blank && v in src.releases && 0 < index < |src.releases|
    requires Less(v, src.releases[index])
    ensures AtMost(v, src.releases[index - 1])
  {
    var k :| 0 <= k < |src.releases| && src.releases[k] == v;
    assert k < index;
  }

  /** Choosing a second time at the same release, as a retried step does, changes nothing. */
  lemma ChoosingAgain(m: Module, ms: ModuleState, src: Source, index: nat, approve: Approve)
    requires ModuleVersion(m, ms, src, index, approve).Ok?
    ensures var c := ModuleVersion(m, ms, src, index, approve).value;
            ModuleVersion(m, c.state, src, index, approve) == Ok(c)
  {
  }

  ghost predicate SameFolder(key: string, a: Checksums, b: Checksums) {
    (key in a <==> key in b) && (key in a ==> a[key] == b[key])
  }

  ghost predicate SameContent(src: Source, key: string, a: VersionText, b: VersionText) {
    SameFolder(key, src.sums(a), src.sums(b))
  }

  /** Exactly when a choice counts as a change, which makes the step of the module run: always for a forced version; at
      a walked release, if the module is not applied from the source yet or the release replaces its version. */
  lemma ChangesExactly(m: Module, ms: ModuleState, src: Source, index: nat, approve: Approve)
    requires ModuleVersion(m, ms, src, index, approve).Ok?
    ensures ModuleVersion(m, ms, src, index, approve).value.changed <==>
            || src.forced != Blank
            || (index < |src.releases| && (Fresh(ms, src) || Moves(ms.applied.value.v, Goal(m, src), src, index)))
  {
  }

  /** A choice never applies anything: it keeps the applied version of a module that stays with its source, and forgets
      that of one that moves to another. */
  lemma ChoiceAppliesNothing(m: Module, ms: ModuleState, src: Source, index: nat, approve: Approve)
    requires ModuleVersion(m, ms, src, index, approve).Ok?
    ensures var c := ModuleVersion(m, ms, src, index, approve).value;
            if ms.source != src.url && c.changed then c.state.source == src.url && c.state.applied == None
            else c.state.source == ms.source && c.state.applied == ms.applied
  {
  }

  /** Exactly when the version recorded for a module is the one its files were made from. It is not when a
      choice leaves the state alone while the state still names another version - after a failed
      pipeline, or for a module that was never applied against a source without newer releases. */
  lemma RecordedIsWhatRan(m: Module, ms: ModuleState, src: Source, index: nat, approve: Approve)
    requires ModuleVersion(m, ms, src, index, approve).Ok?
    ensures var c := ModuleVersion(m, ms, src, index, approve).value;
            Recorded(c.state).applied == Some(c.version) <==>
            || src.forced != Blank
            || (if index >= |src.releases| then ms.version == Tag(Goal(m, src))
                else Fresh(ms, src) || Moves(ms.applied.value.v, Goal(m, src), src, index) || ms.version == ms.applied.value)
  {
  }

  /** A run (index 0) over a window that starts at or below an applied version makes the files from exactly
      that version, whatever the target; it also records that version again if and only if the window starts
      there or the state names it. */
  lemma RunKeepsApplied(m: Module, ms: ModuleState, src: Source, approve: Approve)
    requires src.forced == Blank && |src.releases| > 0 && !Fresh(ms, src) && ms.applied.value.Tag?
    requires AtMost(src.releases[0], ms.applied.value.v)
    ensures ModuleVersion(m, ms, src, 0, approve).Ok?
    ensures var c := ModuleVersion(m, ms, src, 0, approve).value;
            && c.version == ms.applied.value
            && (Recorded(c.state).applied == ms.applied <==>
                ms.applied.value.v == src.releases[0] || ms.version == ms.applied.value)
  {
  }

  /** A failed 1.5 leaves the state naming it; a later run of 1.4 then records 1.5 as applied. */
  lemma StaleVersionIsRecorded()
    ensures var low, ran, failed := Version(1, 1, 0), Version(1, 4, 0), Version(1, 5, 0);
            var src := Source("s", Blank, failed, failed, [low, ran, failed], (_: VersionText) => map[]);
            var c := ModuleVersion(Module("m", "a/b", Blank, false), ModuleState(Tag(failed), Some(Tag(ran)), "s", false),
                                   src, 0, ApproveUnset);
            c.Ok? && c.value.version == Tag(ran) && Recorded(c.value.state).applied == Some(Tag(failed))
  {
  }

  /** Exactly when the last release leaves a module at its target. A module already above its target is not
      held back: it follows the window to its end. */
  lemma EndsAtTarget(m: Module, ms: ModuleState, src: Source, approve: Approve)
    requires ValidSource(src) && src.forced == Blank && !Fresh(ms, src) && ms.applied.value.Tag?
    requires ms.applied.value.v in src.releases && Goal(m, src) in src.releases
    ensures var c := ModuleVersion(m, ms, src, |src.releases| - 1, approve);
            c.Ok? && (c.value.version == Tag(Goal(m, src)) <==>
                      ms.applied.value.v == Goal(m, src) || Goal(m, src) == src.newest)
  {
    Window.EndsOf(src.releases, Goal(m, src));
    Window.EndsOf(src.releases, ms.applied.value.v);
  }

  /** The choice compares two versions of the module: it advances one that is applied from this source. */
  ghost predicate Compares(m: Module, ms: ModuleState, src: Source, index: nat) {
    src.forced == Blank && !Fresh(ms, src) && ms.applied.value.Tag? && Moves(ms.applied.value.v, Goal(m, src), src, index)
  }

  /** No segment that the policy names changes from one version to the other; other policies name none. */
  ghost predicate KeepsSegments(approve: Approve, a: Version, b: Version) {
    && (approve.ApproveMajor? || approve.ApproveMinor?) && a.major == b.major
    && (approve.ApproveMinor? ==> a.minor == b.minor)
  }

  /** Exactly when the choice of a version marks the module as approved, in every branch: always under `never` and
      `force`, never without a policy and under `always` and `reject`; under the others, unless two versions are
      compared and the policy does not name segments that they share. So `minor` and `major` approve every jump of a
      module that is new, comes from another source or is forced to a version. */
  lemma LegacyApproval(m: Module, ms: ModuleState, src: Source, index: nat, approve: Approve)
    requires ModuleVersion(m, ms, src, index, approve).Ok?
    ensures ModuleVersion(m, ms, src, index, approve).value.state.autoApprove <==>
            || approve.ApproveNever? || approve.ApproveForce?
            || (!approve.ApproveUnset? && !approve.ApproveAlways? && !approve.ApproveReject?
                && (Compares(m, ms, src, index) ==> KeepsSegments(approve, ms.applied.value.v, src.releases[index])))
  {
  }

  /** Reading a module's version from a template chooses with the policy `never`. A read after the module's own
      choice finds the same version and leaves the same state, except that the module is approved from then on. */
  lemma ReadingAVersionApproves(m: Module, ms: ModuleState, src: Source, index: nat, approve: Approve)
    requires ModuleVersion(m, ms, src, index, approve).Ok?
    ensures var c := ModuleVersion(m, ms, src, index, approve).value;
            ModuleVersion(m, c.state, src, index, ApproveNever)
              == Ok(Chosen(c.state.(autoApprove := true), c.version, c.changed))
  {
  }

  /** A read before the module's own choice finds the version too, and the own choice undoes whatever it did. */
  lemma EarlyReadIsUndone(m: Module, ms: ModuleState, src: Source, index: nat, approve: Approve)
    ensures ModuleVersion(m, ms, src, index, ApproveNever).Ok? <==> ModuleVersion(m, ms, src, index, approve).Ok?
    ensures var own, read := ModuleVersion(m, ms, src, index, approve), ModuleVersion(m, ms, src, index, ApproveNever);
            own.Ok? ==> read.value.version == own.value.version && ModuleVersion(m, read.value.state, src, index, approve) == own
  {
  }

  /** A read after the module was recorded at the version it was made from changes nothing but the approval. */
  lemma LateReadApproves(m: Module, ms: ModuleState, src: Source, index: nat, approve: Approve)
    requires ModuleVersion(m, ms, src, index, approve).Ok?
    requires Recorded(ModuleVersion(m, ms, src, index, approve).value.state).applied
             == Some(ModuleVersion(m, ms, src, index, approve).value.version)
    ensures var c := ModuleVersion(m, ms, src, index, approve).value;
            var read := ModuleVersion(m, Recorded(c.state), src, index, ApproveNever);
            read.Ok? && read.value.version == c.version && read.value.state == Recorded(c.state).(autoApprove := true)
  {
  }

  /* ---------- the whole walk ---------- */

  /** The state of a module after the releases from `index` on, applied at each of them. */
  ghost function WalkFrom(m: Module, ms: ModuleState, src: Source, index: nat, approve: Approve): Result<ModuleState>
    decreases |src.releases| - index
  {
    if index >= |src.releases| then Ok(ms)
    else match ModuleVersion(m, ms, src, index, approve)
      case Err(why) => Err(why)
      case Ok(c) => WalkFrom(m, Recorded(c.state), src, index + 1, approve)
  }

  /** The version that a module which was not applied from the source gets first, at the second release. */
  ghost function FirstVersion(goal: Version, src: Source): Version
    requires |src.releases| >= 2
  {
    if Less(src.releases[1], goal) then src.releases[1] else goal
  }

  /** What an update needs of one module to have a path: if it is applied from the source, a version that the state
      names or that the first walked release replaces; if not, a release to walk to. */
  ghost predicate Starts(m: Module, ms: ModuleState, src: Source) {
    || src.forced != Blank
    || (if Fresh(ms, src) then |src.releases| >= 2
        else
          && ms.applied.value.Tag?
          && (ms.version == ms.applied.value || Moves(ms.applied.value.v, Goal(m, src), src, 1)))
  }

  /** Where the releases from `index` on take a version. It stays if it is the target or beyond the window, or if there
      is no such release; it stops at the target if the target is one of these releases and not below it; otherwise
      it follows them to the newest. */
  ghost function EndFrom(a: Version, goal: Version, src: Source, index: nat): Version {
    if a == goal || index >= |src.releases| || Less(src.newest, a) then a
    else if goal in src.releases[index..] && AtMost(a, goal) then goal
    else src.newest
  }

  /** Where the walk of a module ends. */
  ghost function EndVersion(m: Module, ms: ModuleState, src: Source): Version
    requires src.forced == Blank && Starts(m, ms, src)
  {
    var goal := Goal(m, src);
    EndFrom(if Fresh(ms, src) then FirstVersion(goal, src) else ms.applied.value.v, goal, src, 1)
  }

  lemma LaterReleases(src: Source, goal: Version, index: nat)
    requires ValidSource(src) && src.forced == Blank && index < |src.releases|
    ensures goal in src.releases[index..] <==> goal == src.releases[index] || goal in src.releases[index + 1..]
    ensures goal in src.releases[index + 1..] ==> Less(src.releases[index], goal)
    ensures AtMost(src.releases[index], src.newest) && (index + 1 == |src.releases| ==> src.releases[index] == src.newest)
  {
    assert src.releases[index..] == [src.releases[index]] + src.releases[index + 1..];
  }

  /** One release leaves the end of the walk where it is. */
  lemma EndStays(a: Version, goal: Version, src: Source, index: nat)
    requires ValidSource(src) && src.forced == Blank
    ensures EndFrom(if Moves(a, goal, src, index) then src.releases[index] else a, goal, src, index + 1)
            == EndFrom(a, goal, src, index)
  {
    if index < |src.releases| {
      LaterReleases(src, goal, index);
    }
  }

  /** What is known of a module on its way, before the release at `index`; `end` is where its walk ends. */
  ghost predicate OnPath(end: Version, m: Module, ms: ModuleState, src: Source, index: nat) {
    if src.forced != Blank then index > 1 ==> ms.source == src.url && ms.applied == Some(src.forced)
    else if Fresh(ms, src) then index == 1 && |src.releases| >= 2 && EndFrom(FirstVersion(Goal(m, src), src), Goal(m, src), src, 1) == end
    else
      && ms.applied.value.Tag? && EndFrom(ms.applied.value.v, Goal(m, src), src, index) == end
      && (ms.version == ms.applied.value || Moves(ms.applied.value.v, Goal(m, src), src, index))
  }

  ghost function EndOf(m: Module, ms: ModuleState, src: Source): Version
    requires Starts(m, ms, src)
  {
    if src.forced == Blank then EndVersion(m, ms, src) else Goal(m, src)
  }

  lemma PathBegins(m: Module, ms: ModuleState, src: Source)
    requires Starts(m, ms, src)
    ensures OnPath(EndOf(m, ms, src), m, ms, src, 1)
  {
  }

  lemma FirstStays(goal: Version, src: Source)
    requires ValidSource(src) && src.forced == Blank && |src.releases| >= 2
    ensures EndFrom(FirstVersion(goal, src), goal, src, 2) == EndFrom(FirstVersion(goal, src), goal, src, 1)
  {
    EndStays(FirstVersion(goal, src), goal, src, 1);
  }

  /** One module at one release. On its path the choice never fails, the version moves up and not past the end of the
      walk, and the path goes on, whether the choice is recorded, made but not yet applied or, without a change,
      passed over. */
  lemma OneRelease(end: Version, m: Module, ms: ModuleState, src: Source, index: nat, approve: Approve)
    requires ValidSource(src) && index > 0 && OnPath(end, m, ms, src, index)
    ensures ModuleVersion(m, ms, src, index, approve).Ok?
    ensures var c := ModuleVersion(m, ms, src, index, approve).value;
            && OnPath(end, m, Recorded(c.state), src, index + 1)
            && OnPath(end, m, c.state, src, index)
            && (!c.changed ==> c.state == ms.(autoApprove := c.state.autoApprove) && OnPath(end, m, c.state, src, index + 1))
            && (src.forced == Blank ==> c.state.version.Tag? && AtMost(c.state.version.v, end))
            && (src.forced == Blank && !Fresh(ms, src) ==> AtMost(ms.applied.value.v, c.state.version.v))
  {
    if src.forced == Blank {
      if Fresh(ms, src) {
        FirstStays(Goal(m, src), src);
        EndRises(FirstVersion(Goal(m, src), src), Goal(m, src), src, 1);
      } else {
        EndStays(ms.applied.value.v, Goal(m, src), src, index);
        EndRises(ModuleVersion(m, ms, src, index, approve).value.state.version.v, Goal(m, src), src, index + 1);
      }
    }
  }

  lemma EndRises(a: Version, goal: Version, src: Source, index: nat)
    ensures AtMost(a, EndFrom(a, goal, src, index))
  {
  }

  lemma PathEnds(end: Version, m: Module, ms: ModuleState, src: Source, index: nat)
    requires OnPath(end, m, ms, src, index) && index >= |src.releases| && (src.forced != Blank ==> index > 1)
    ensures ms.source == src.url && ms.applied == Some(if src.forced != Blank then src.forced else Tag(end))
  {
  }

  lemma {:induction false} PathWalked(end: Version, m: Module, ms: ModuleState, src: Source, index: nat, approve: Approve)
    requires ValidSource(src) && src.forced == Blank && index > 0 && OnPath(end, m, ms, src, index)
    ensures var r := WalkFrom(m, ms, src, index, approve);
            r.Ok? && r.value.applied == Some(Tag(end)) && r.value.version == Tag(end) && r.value.source == src.url
    decreases |src.releases| - index
  {
    if index < |src.releases| {
      OneRelease(end, m, ms, src, index, approve);
      PathWalked(end, m, Recorded(ModuleVersion(m, ms, src, index, approve).value.state), src, index + 1, approve);
    } else {
      PathEnds(end, m, ms, src, index);
    }
  }

  /** The condition for a module to end at its target: it is there, or the target is a walked release and not below it;
      a module that is applied for the first time may also begin with its target. */
  ghost predicate Arriving(m: Module, ms: ModuleState, src: Source) {
    var goal := Goal(m, src);
    if Fresh(ms, src) then |src.releases| >= 2 && (AtMost(goal, src.releases[1]) || goal in src.releases)
    else
      && ms.applied.Some? && ms.applied.value.Tag?
      && (ms.applied.value.v == goal || (|src.releases| >= 2 && goal in src.releases[1..] && AtMost(ms.applied.value.v, goal)))
  }

  /** The end of a walk from the second release on. */
  lemma EndFromSecond(a: Version, goal: Version, src: Source)
    requires ValidSource(src) && src.forced == Blank
    ensures |src.releases| == 1 ==> EndFrom(a, goal, src, 1) == a
    ensures |src.releases| >= 2 ==>
              && (EndFrom(a, goal, src, 1) == goal <==> a == goal || (goal in src.releases[1..] && AtMost(a, goal)))
              && (EndFrom(a, goal, src, 1) != goal ==> EndFrom(a, goal, src, 1) == if Less(src.newest, a) then a else src.newest)
  {
    if |src.releases| >= 2 {
      assert src.newest == src.releases[1..][|src.releases| - 2] && src.newest in src.releases[1..];
      if goal in src.releases {
        Window.EndsOf(src.releases, goal);
      }
      LaterReleases(src, goal, 0);
      assert src.releases[0..] == src.releases;
    }
  }

  /** The first version of a module is no hindrance on the way to its target. */
  lemma FirstArrives(goal: Version, src: Source)
    requires ValidSource(src) && src.forced == Blank && |src.releases| >= 2
    ensures var first := FirstVersion(goal, src);
            && (!Less(src.newest, first) || first == goal)
            && (first == goal || (goal in src.releases[1..] && AtMost(first, goal)) <==>
                AtMost(goal, src.releases[1]) || goal in src.releases)
  {
    LaterReleases(src, goal, 0);
    LaterReleases(src, goal, 1);
    assert src.releases[0..] == src.releases;
  }

  /** Where the walk of a module ends, whatever its target and its applied version are: it never goes down; it ends at
      the target exactly if it arrives there; if not, it ends at the newest release, or stays beyond it. */
  lemma EndIs(m: Module, ms: ModuleState, src: Source)
    requires ValidSource(src) && src.forced == Blank && Starts(m, ms, src)
    ensures var end := EndVersion(m, ms, src);
            && (end == Goal(m, src) <==> Arriving(m, ms, src))
            && (!Fresh(ms, src) ==> AtMost(ms.applied.value.v, end))
            && (!Arriving(m, ms, src) ==>
                  end == src.newest || (!Fresh(ms, src) && end == ms.applied.value.v && (Less(src.newest, end) || |src.releases| == 1)))
  {
    var goal := Goal(m, src);
    if Fresh(ms, src) {
      FirstArrives(goal, src);
      EndFromSecond(FirstVersion(goal, src), goal, src);
    } else {
      EndRises(ms.applied.value.v, goal, src, 1);
      EndFromSecond(ms.applied.value.v, goal, src);
    }
  }

  /** The whole walk of a module ends there. */
  lemma WalkEnds(m: Module, ms: ModuleState, src: Source, approve: Approve)
    requires ValidSource(src) && src.forced == Blank && Starts(m, ms, src)
    ensures var r := WalkFrom(m, ms, src, 1, approve);
            && r.Ok?
            && r.value.applied == Some(Tag(EndVersion(m, ms, src)))
            && (r.value.applied == Some(Tag(Goal(m, src))) <==> Arriving(m, ms, src))
  {
    PathBegins(m, ms, src);
    PathWalked(EndVersion(m, ms, src), m, ms, src, 1, approve);
    EndIs(m, ms, src);
  }

  /** A module that was applied at 1.4 without a version of its own, when its source wants 1.2, ends at 1.6. If another
      source has one release more to walk, its files are then made from 1.2 while 1.6 is recorded. */
  lemma AboveTargetEndsAtNewest(approve: Approve)
    ensures var wanted, applied, newest := Version(1, 2, 0), Version(1, 4, 0), Version(1, 6, 0);
            var src := Source("s", Blank, wanted, newest, [wanted, applied, newest], (_: VersionText) => map[]);
            var m, ms := Module("m", "a/b", Blank, false), ModuleState(Tag(applied), Some(Tag(applied)), "s", false);
            var r := WalkFrom(m, ms, src, 1, approve);
            && r.Ok? && r.value.applied == Some(Tag(newest)) && Goal(m, src) == wanted
            && var late := ModuleVersion(m, r.value, src, 3, approve);
               late.Ok? && late.value.version == Tag(wanted) && Recorded(late.value.state).applied == Some(Tag(newest))
  {
    var wanted, applied, newest := Version(1, 2, 0), Version(1, 4, 0), Version(1, 6, 0);
    var src := Source("s", Blank, wanted, newest, [wanted, applied, newest], (_: VersionText) => map[]);
    var m, ms := Module("m", "a/b", Blank, false), ModuleState(Tag(applied), Some(Tag(applied)), "s", false);
    WalkEnds(m, ms, src, approve);
    PathWalked(newest, m, ms, src, 1, approve);
  }

  /* ---------- what the checksums vouch for ---------- */

  /** Before the release at `index`, a version that a walk may still replace is the release before. */
  ghost predicate Followed(a: Version, goal: Version, src: Source, index: nat)
    requires src.forced == Blank && |src.releases| > 0 && index > 0
  {
    a == goal || Less(src.newest, a) || (a in src.releases && AtMost(ReleaseAt(src, index - 1).v, a))
  }

  /** A module on its way whose versions follow the walked releases. */
  ghost predicate OnTrack(end: Version, m: Module, ms: ModuleState, src: Source, index: nat)
    requires ValidSource(src)
  {
    && index > 0 && OnPath(end, m, ms, src, index)
    && (src.forced == Blank && !Fresh(ms, src) ==> Followed(ms.applied.value.v, Goal(m, src), src, index))
  }

  lemma StillFollowed(a: Version, goal: Version, src: Source, index: nat)
    requires ValidSource(src) && src.forced == Blank && index > 0 && Followed(a, goal, src, index)
    ensures Followed(if Moves(a, goal, src, index) then src.releases[index] else a, goal, src, index + 1)
  {
    if index >= |src.releases| && a in src.releases {
      Window.EndsOf(src.releases, a);
    }
  }

  /** On its track, what is recorded for a module is what its files were made from, as long as its window lasts; and
      afterwards, if it ends at its target. */
  lemma TrackGoesOn(end: Version, m: Module, ms: ModuleState, src: Source, index: nat, approve: Approve)
    requires ValidSource(src) && OnTrack(end, m, ms, src, index)
    requires src.forced == Blank && index >= |src.releases| ==> end == Goal(m, src)
    ensures ModuleVersion(m, ms, src, index, approve).Ok?
    ensures var c := ModuleVersion(m, ms, src, index, approve).value;
            && c.version == Recorded(c.state).applied.value && c.state.source == src.url
            && OnTrack(end, m, Recorded(c.state), src, index + 1)
            && (!c.changed ==> OnTrack(end, m, c.state, src, index + 1) && c.state.applied == ms.applied)
  {
    OneRelease(end, m, ms, src, index, approve);
    if src.forced == Blank && !Fresh(ms, src) {
      StillFollowed(ms.applied.value.v, Goal(m, src), src, index);
    }
  }

  /** Comparing a module folder at two neighbouring releases is enough to compare it at the version the module had
      before and the one it gets now. */
  lemma NeighboursSuffice(end: Version, m: Module, ms: ModuleState, src: Source, index: nat, approve: Approve, key: string)
    requires ValidSource(src) && OnTrack(end, m, ms, src, index)
    requires src.forced == Blank && index >= |src.releases| ==> end == Goal(m, src)
    requires if src.forced != Blank then ms.applied == Some(src.forced) else !Fresh(ms, src)
    requires SameContent(src, key, ReleaseAt(src, index - 1), ReleaseAt(src, index))
    ensures ModuleVersion(m, ms, src, index, approve).Ok?
    ensures SameContent(src, key, ms.applied.value, ModuleVersion(m, ms, src, index, approve).value.version)
  {
    if src.forced == Blank {
      var a := ms.applied.value.v;
      if Moves(a, Goal(m, src), src, index) && Less(a, src.releases[index]) {
        LaterReleases(src, a, index);
        NoGapBelow(src, a, index);
        Window.Antisymmetric(a, src.releases[index - 1]);
      }
    }
  }

  /** Behind the end of its window the files of a module are made from its target, and the state stays. So what a
      pipeline of its step records is what ran exactly if the state names the target: not for a module that has gone
      past it, nor for one that was never applied over a single release. */
  lemma ExhaustedWindowRunsTarget(m: Module, ms: ModuleState, src: Source, index: nat, approve: Approve)
    requires src.forced == Blank && index >= |src.releases|
    ensures var c := ModuleVersion(m, ms, src, index, approve);
            && c.Ok? && c.value.version == Tag(Goal(m, src)) && !c.value.changed
            && c.value.state == ms.(autoApprove := StepAutoApprove(approve))
            && (Recorded(c.value.state).applied == Some(c.value.version) <==> ms.version == Tag(Goal(m, src)))
    ensures forall end :: index > 1 && OnPath(end, m, ms, src, index) ==> ms.version == Tag(end)
  {
  }

  /* ---------- what an update promises ---------- */

  /** Where an update leaves a module. */
  ghost predicate Ended(m: Module, start: ModuleState, end: ModuleState, src: Source, processed: bool) {
    if src.forced != Blank then processed ==> end.source == src.url && end.applied == Some(src.forced)
    else Starts(m, start, src) ==>
      && end.source == src.url && end.applied == Some(Tag(EndVersion(m, start, src)))
      && (end.applied == Some(Tag(Goal(m, src))) <==> Arriving(m, start, src))
      && (!Fresh(start, src) ==> AtMost(start.applied.value.v, end.applied.value.v))
  }

  lemma PathsAreEnded(m: Module, start: ModuleState, end: ModuleState, src: Source, index: nat, processed: bool)
    requires ValidSource(src) && index >= |src.releases| && (processed ==> index > 1)
    requires Starts(m, start, src) ==> OnPath(EndOf(m, start, src), m, end, src, index)
    ensures Ended(m, start, end, src, processed)
  {
    if src.forced == Blank && Starts(m, start, src) {
      PathEnds(EndOf(m, start, src), m, end, src, index);
      EndIs(m, start, src);
    }
  }

  /** What the checksums need of a module: its versions follow the walked releases, and it ends at its target or its window is
      the longest. */
  ghost predicate Tracked(m: Module, ms: ModuleState, src: Source, longest: bool)
    requires ValidSource(src)
  {
    && Starts(m, ms, src)
    && (src.forced == Blank ==>
          && (Fresh(ms, src) || Followed(ms.applied.value.v, Goal(m, src), src, 1))
          && (Arriving(m, ms, src) || longest))
  }

  lemma TrackBegins(m: Module, ms: ModuleState, src: Source, longest: bool)
    requires ValidSource(src) && Tracked(m, ms, src, longest)
    ensures OnTrack(EndOf(m, ms, src), m, ms, src, 1)
    ensures src.forced == Blank && !longest ==> EndOf(m, ms, src) == Goal(m, src)
  {
    if src.forced == Blank {
      EndIs(m, ms, src);
    }
  }
}
