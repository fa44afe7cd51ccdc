/** One release as a schedule: the main goroutine walks the steps, some of them run in goroutines of their
    own, steps whose parameters do not exist yet are deferred and retried at the end. Every interleaving is
    a list of events. */
module Scheduler {
  import opened Versions

  /** A step's goroutine. It reports a failure before it leaves the wait group, and lowers the count of
      running steps only after it has left the wait group. */
  datatype Worker = Unborn | Executing | Failing | Leaving(ok: bool) | Lowering(ok: bool) | Over(ok: bool)

  datatype Status = Untouched | Working | Applied | Skipped | Broken | Deferred | DeferredAgain

  datatype Main = Looping(next: nat) | Waiting | Closed | Retrying(todo: seq<nat>) | Returned(ok: bool)

  datatype Event =
    // the main goroutine
    | Finish(skipped: bool) | Launch | Defer | Fail | Cancel | EndLoop | Joined | Persist(ok: bool)
    | RetryFinish(skipped: bool) | RetryLaunch | RetryFail | RetryDefer | RetryEnd(ok: bool)
    // the goroutine of a step
    | WorkerResult(i: nat, success: bool) | WorkerReport(i: nat) | WorkerDone(i: nat) | WorkerLower(i: nat)

  /** `parallel` tells whether steps may be run in goroutines, `wg` is the wait group, `count` the counter beside
      it, `channel` the buffered error channel, and `stranded` counts the goroutines started without a channel to
      report to. */
  datatype State = State(main: Main, parallel: bool, status: seq<Status>, workers: seq<Worker>, wg: int, count: int,
                         channel: seq<nat>, stranded: nat, closed: bool, failed: bool, cancelled: bool)

  function Initial(n: nat): State {
    State(Looping(0), true, seq(n, _ => Untouched), seq(n, _ => Unborn), 0, 0, [], 0, false, false, false)
  }

  function DeferredSteps(status: seq<Status>): seq<nat> {
    if status == [] then []
    else
      var last := |status| - 1;
      DeferredSteps(status[..last]) + (if status[last].Deferred? then [last] else [])
  }

  predicate Enabled(s: State, e: Event) {
    match e
    case Finish(_) => s.main.Looping? && s.main.next < |s.status|
    case Launch => s.main.Looping? && s.main.next < |s.status| && s.parallel
    case Defer => s.main.Looping? && s.main.next < |s.status| && s.count > 0
    case Fail => s.main.Looping? && s.main.next < |s.status|
    case Cancel => s.main.Looping? && s.main.next < |s.status|
    case EndLoop => s.main.Looping? && s.main.next >= |s.status|
    case Joined => s.main.Waiting? && s.wg == 0
    case Persist(_) => s.main.Closed?
    case RetryFinish(_) => s.main.Retrying? && s.main.todo != [] && s.main.todo[0] < |s.status|
    case RetryLaunch => s.main.Retrying? && s.main.todo != [] && s.main.todo[0] < |s.status| && s.parallel
    case RetryFail => s.main.Retrying? && s.main.todo != []
    case RetryDefer => s.main.Retrying? && s.main.todo != [] && s.main.todo[0] < |s.status| && s.count > 0
    case RetryEnd(_) => s.main.Retrying? && s.main.todo == []
    case WorkerResult(i, _) => i < |s.workers| && s.workers[i].Executing?
    case WorkerReport(i) => i < |s.workers| && s.workers[i].Failing?
    case WorkerDone(i) => i < |s.workers| && s.workers[i].Leaving?
    case WorkerLower(i) => i < |s.workers| && s.workers[i].Lowering?
  }

  function Advance(s: State, status: Status): State
    requires s.main.Looping? && s.main.next < |s.status|
  {
    s.(status := s.status[s.main.next := status], main := Looping(s.main.next + 1))
  }

  function Retried(s: State, status: Status): State
    requires s.main.Retrying? && s.main.todo != [] && s.main.todo[0] < |s.status|
  {
    s.(status := s.status[s.main.todo[0] := status], main := Retrying(s.main.todo[1..]))
  }

  predicate OfWorker(e: Event) {
    e.WorkerResult? || e.WorkerReport? || e.WorkerDone? || e.WorkerLower?
  }

  predicate OfRetry(e: Event) {
    e.RetryFinish? || e.RetryLaunch? || e.RetryFail? || e.RetryDefer? || e.RetryEnd?
  }

  /** What a goroutine does; `atomic` tells whether it leaves the wait group and lowers the count in one step. */
  function ApplyWorker(s: State, e: Event, atomic: bool): (t: State)
    requires OfWorker(e) && Enabled(s, e) && |s.workers| == |s.status|
    ensures |t.workers| == |t.status| == |s.status|
  {
    match e
    case WorkerResult(i, success) => s.(workers := s.workers[i := if success then Leaving(true) else Failing])
    case WorkerReport(i) => s.(workers := s.workers[i := Leaving(false)], channel := s.channel + [i])
    case WorkerDone(i) =>
      if atomic then s.(workers := s.workers[i := Over(s.workers[i].ok)], wg := s.wg - 1, count := s.count - 1)
      else s.(workers := s.workers[i := Lowering(s.workers[i].ok)], wg := s.wg - 1)
    case WorkerLower(i) => s.(workers := s.workers[i := Over(s.workers[i].ok)], count := s.count - 1)
  }

  function ApplyRetry(s: State, e: Event): (t: State)
    requires OfRetry(e) && Enabled(s, e) && |s.workers| == |s.status|
    ensures |t.workers| == |t.status| == |s.status|
  {
    match e
    case RetryFinish(skipped) => Retried(s, if skipped then Skipped else Applied)
    case RetryLaunch =>
      Retried(s, Working).(workers := s.workers[s.main.todo[0] := Executing], wg := s.wg + 1, count := s.count + 1,
                           stranded := s.stranded + 1)
    case RetryFail => s.(main := Returned(false))
    case RetryDefer => Retried(s, DeferredAgain)
    case RetryEnd(ok) => s.(main := Returned(ok))
  }

  function ApplyMain(s: State, e: Event): (t: State)
    requires !OfWorker(e) && !OfRetry(e) && Enabled(s, e) && |s.workers| == |s.status|
    ensures |t.workers| == |t.status| == |s.status|
  {
    match e
    case Finish(skipped) => Advance(s, if skipped then Skipped else Applied)
    case Launch =>
      Advance(s, Working).(workers := s.workers[s.main.next := Executing], wg := s.wg + 1, count := s.count + 1)
    case Defer => Advance(s, Deferred)
    case Fail => s.(status := s.status[s.main.next := Broken], failed := true, main := Waiting)
    case Cancel => s.(cancelled := true, main := Waiting)
    case EndLoop => s.(main := Waiting)
    case Joined => if s.cancelled then s.(main := Returned(false)) else s.(closed := true, main := Closed)
    case Persist(ok) =>
      if !ok || s.failed || s.channel != [] then s.(main := Returned(false))
      else if DeferredSteps(s.status) == [] then s.(main := Returned(true))
      else s.(main := Retrying(DeferredSteps(s.status)), parallel := false)
  }

  function Apply(s: State, e: Event, atomic: bool): (t: State)
    requires Enabled(s, e) && |s.workers| == |s.status|
    ensures |t.workers| == |t.status| == |s.status|
  {
    if OfWorker(e) then ApplyWorker(s, e, atomic) else if OfRetry(e) then ApplyRetry(s, e) else ApplyMain(s, e)
  }

  function Run(n: nat, events: seq<Event>, atomic: bool): (r: Option<State>)
    ensures r.Some? ==> |r.value.workers| == |r.value.status| == n
  {
    if events == [] then Some(Initial(n))
    else match Run(n, events[..|events| - 1], atomic)
      case Some(s) =>
        if Enabled(s, events[|events| - 1]) then Some(Apply(s, events[|events| - 1], atomic)) else None
      case None => None
  }

  /* ---------- counting goroutines ---------- */

  ghost function InGroup(w: Worker): nat {
    if w.Executing? || w.Failing? || w.Leaving? then 1 else 0
  }

  ghost function Counted(w: Worker): nat {
    if InGroup(w) == 1 || w.Lowering? then 1 else 0
  }

  ghost function Reported(w: Worker): nat {
    if (w.Leaving? || w.Lowering? || w.Over?) && !w.ok then 1 else 0
  }

  ghost function Total(ws: seq<Worker>, weight: Worker -> nat): nat {
    if ws == [] then 0 else Total(ws[..|ws| - 1], weight) + weight(ws[|ws| - 1])
  }

  lemma {:induction false} TotalUpdate(ws: seq<Worker>, i: nat, w: Worker, weight: Worker -> nat)
    requires i < |ws|
    ensures Total(ws[i := w], weight) == Total(ws, weight) - weight(ws[i]) + weight(w)
  {
    var last := |ws| - 1;
    if i == last {
      assert ws[i := w][..last] == ws[..last];
    } else {
      assert ws[i := w][..last] == ws[..last][i := w];
      TotalUpdate(ws[..last], i, w, weight);
    }
  }

  lemma {:induction false} TotalBounds(ws: seq<Worker>, weight: Worker -> nat)
    requires forall w :: weight(w) <= 1
    ensures Total(ws, weight) <= |ws|
    ensures forall i :: 0 <= i < |ws| && weight(ws[i]) == 0 ==> Total(ws, weight) <= |ws| - 1
    ensures forall i :: 0 <= i < |ws| && weight(ws[i]) == 1 ==> Total(ws, weight) >= 1
  {
    if ws != [] {
      var last := |ws| - 1;
      TotalBounds(ws[..last], weight);
      forall i | 0 <= i < last ensures ws[..last][i] == ws[i] {
      }
    }
  }

  lemma {:induction false} TotalUnborn(n: nat, weight: Worker -> nat)
    requires weight(Unborn) == 0
    ensures Total(seq(n, _ => Unborn), weight) == 0
  {
    if n > 0 {
      assert seq(n, _ => Unborn)[..n - 1] == seq(n - 1, _ => Unborn);
      TotalUnborn(n - 1, weight);
    }
  }

  lemma {:induction false} DeferredStepsAre(status: seq<Status>)
    ensures forall i: nat :: i in DeferredSteps(status) <==> i < |status| && status[i].Deferred?
    ensures forall j, k :: 0 <= j < k < |DeferredSteps(status)| ==> DeferredSteps(status)[j] < DeferredSteps(status)[k]
  {
    if status != [] {
      var last := |status| - 1;
      DeferredStepsAre(status[..last]);
      var front := DeferredSteps(status[..last]);
      forall k | 0 <= k < |front| ensures front[k] < last {
        assert front[k] in front;
      }
      forall i: nat ensures i in DeferredSteps(status) <==> i < |status| && status[i].Deferred? {
        assert i in front <==> i < last && status[..last][i].Deferred?;
      }
    }
  }

  /* ---------- invariants ---------- */

  /** The counters count, and the channel holds one entry per reported failure. */
  ghost predicate Counts(s: State) {
    && |s.workers| == |s.status|
    && s.wg == Total(s.workers, InGroup)
    && s.count == Total(s.workers, Counted)
    && |s.channel| == Total(s.workers, Reported)
  }

  /** The channel is closed, and the main goroutine past its wait, only when every goroutine has left the
      wait group. */
  ghost predicate Joining(s: State) {
    && (s.closed || s.main.Closed? || s.main.Retrying? || s.main.Returned? ==> s.wg == 0)
    && (s.main.Looping? ==> s.main.next <= |s.status| && !s.closed && !s.failed && !s.cancelled)
    && (s.main.Closed? || s.main.Retrying? || s.main == Returned(true) ==> !s.cancelled)
    && (s.main.Retrying? || s.main == Returned(true) ==> s.channel == [] && !s.failed)
    && (s.main.Retrying? ==> !s.parallel) && s.stranded == 0
  }

  /** Which steps can be in which state. */
  ghost predicate Statuses(s: State) {
    && |s.workers| == |s.status|
    && (forall i :: 0 <= i < |s.status| ==>
          && (s.workers[i].Unborn? <==> !s.status[i].Working?)
          && (s.status[i].Broken? ==> s.failed)
          && (s.status[i].DeferredAgain? ==> s.main.Retrying? || s.main.Returned?)
          && (s.status[i].Untouched? ==>
                || (s.main.Looping? && s.main.next <= i) || s.failed || s.cancelled)
          && (s.status[i].Deferred? ==>
                || s.main.Looping? || s.main.Waiting? || s.main.Closed? || s.main == Returned(false)
                || (s.main.Retrying? && i in s.main.todo)))
    && (s.main.Looping? ==> forall i :: s.main.next <= i < |s.status| ==> s.status[i].Untouched?)
    && (s.main.Retrying? ==>
          && (forall i :: i in s.main.todo ==> i < |s.status| && s.status[i].Deferred?)
          && (forall j, k :: 0 <= j < k < |s.main.todo| ==> s.main.todo[j] < s.main.todo[k]))
  }

  ghost predicate Inv(s: State) {
    Counts(s) && Joining(s) && Statuses(s)
  }

  lemma WorkerCounts(s: State, i: nat, w: Worker)
    requires Counts(s) && i < |s.workers|
    ensures Total(s.workers[i := w], InGroup) == s.wg - InGroup(s.workers[i]) + InGroup(w)
    ensures Total(s.workers[i := w], Counted) == s.count - Counted(s.workers[i]) + Counted(w)
    ensures Total(s.workers[i := w], Reported) == |s.channel| - Reported(s.workers[i]) + Reported(w)
  {
    TotalUpdate(s.workers, i, w, InGroup);
    TotalUpdate(s.workers, i, w, Counted);
    TotalUpdate(s.workers, i, w, Reported);
  }

  /** The main goroutine starts at most one worker at a time and leaves the others alone. */
  lemma MainCounts(s: State, e: Event, atomic: bool)
    requires |s.workers| == |s.status| && Enabled(s, e) && !OfWorker(e) && !e.Launch? && !e.RetryLaunch?
    ensures var t := Apply(s, e, atomic);
            && t.workers == s.workers && t.wg == s.wg && t.count == s.count && t.channel == s.channel
            && t.stranded == s.stranded && |t.status| == |s.status|
  {
  }

  lemma WorkerStepCounts(s: State, e: Event, atomic: bool)
    requires Counts(s) && Enabled(s, e) && OfWorker(e)
    ensures Counts(ApplyWorker(s, e, atomic))
  {
    match e
    case WorkerResult(i, success) => WorkerCounts(s, i, if success then Leaving(true) else Failing);
    case WorkerReport(i) => WorkerCounts(s, i, Leaving(false));
    case WorkerDone(i) => WorkerCounts(s, i, if atomic then Over(s.workers[i].ok) else Lowering(s.workers[i].ok));
    case WorkerLower(i) => WorkerCounts(s, i, Over(s.workers[i].ok));
  }

  lemma StepCounts(s: State, e: Event, atomic: bool)
    requires Counts(s) && Enabled(s, e) && (e.Launch? ==> s.workers[s.main.next].Unborn?) && !e.RetryLaunch?
    ensures Counts(Apply(s, e, atomic))
  {
    if OfWorker(e) {
      WorkerStepCounts(s, e, atomic);
    } else if e.Launch? {
      WorkerCounts(s, s.main.next, Executing);
    } else {
      MainCounts(s, e, atomic);
    }
  }

  lemma NoneInGroup(s: State)
    requires Counts(s) && s.wg == 0
    ensures forall i :: 0 <= i < |s.workers| ==> InGroup(s.workers[i]) == 0
  {
    TotalBounds(s.workers, InGroup);
  }

  lemma StepJoining(s: State, e: Event, atomic: bool)
    requires Inv(s) && Enabled(s, e)
    ensures Joining(Apply(s, e, atomic))
  {
    if OfWorker(e) {
      WorkerJoining(s, e, atomic);
    } else {
      MainJoining(s, e, atomic);
    }
  }

  lemma WorkerJoining(s: State, e: Event, atomic: bool)
    requires Inv(s) && Enabled(s, e) && OfWorker(e)
    ensures Joining(Apply(s, e, atomic))
  {
    if s.wg == 0 {
      NoneInGroup(s);
    }
  }

  lemma MainJoining(s: State, e: Event, atomic: bool)
    requires Inv(s) && Enabled(s, e) && !OfWorker(e)
    ensures Joining(Apply(s, e, atomic))
  {
    if s.wg == 0 {
      NoneInGroup(s);
    }
  }

  lemma RetryStatuses(s: State, status: Status)
    requires Statuses(s) && s.main.Retrying? && s.main.todo != []
    requires status.Applied? || status.Skipped? || status.DeferredAgain?
    ensures s.main.todo[0] < |s.status|
    ensures Statuses(Retried(s, status))
  {
    assert s.main.todo[0] in s.main.todo;
    var t := Retried(s, status);
    forall i | i in t.main.todo ensures i < |s.status| && t.status[i].Deferred? {
      var k :| 0 <= k < |t.main.todo| && t.main.todo[k] == i;
      assert s.main.todo[k + 1] == i && s.main.todo[0] < s.main.todo[k + 1];
      assert i in s.main.todo;
    }
    forall i | 0 <= i < |s.status| && t.status[i].Deferred? ensures i in t.main.todo {
      assert i in s.main.todo;
      var k :| 0 <= k < |s.main.todo| && s.main.todo[k] == i;
      assert t.main.todo[k - 1] == i;
    }
  }

  lemma WorkerStatuses(s: State, e: Event, atomic: bool)
    requires Statuses(s) && Enabled(s, e) && OfWorker(e)
    ensures Statuses(Apply(s, e, atomic))
  {
    var t := Apply(s, e, atomic);
    assert t.status == s.status && t.main == s.main && t.failed == s.failed && t.cancelled == s.cancelled;
    assert forall i :: 0 <= i < |s.workers| ==> (t.workers[i].Unborn? <==> s.workers[i].Unborn?);
  }

  lemma LoopStatuses(s: State, e: Event, atomic: bool)
    requires Statuses(s) && Joining(s) && Enabled(s, e) && s.main.Looping? && !OfWorker(e)
    ensures Statuses(Apply(s, e, atomic))
  {
  }

  lemma LaterStatuses(s: State, e: Event, atomic: bool)
    requires Inv(s) && Enabled(s, e) && !s.main.Looping? && !OfWorker(e)
    ensures Statuses(Apply(s, e, atomic))
  {
    match e
    case RetryFinish(skipped) => RetryStatuses(s, if skipped then Skipped else Applied);
    case RetryDefer => RetryStatuses(s, DeferredAgain);
    case Persist(ok) => DeferredStepsAre(s.status);
    case _ =>
  }

  lemma StepStatuses(s: State, e: Event, atomic: bool)
    requires Inv(s) && Enabled(s, e)
    ensures Statuses(Apply(s, e, atomic))
  {
    if OfWorker(e) {
      WorkerStatuses(s, e, atomic);
    } else if s.main.Looping? {
      LoopStatuses(s, e, atomic);
    } else {
      LaterStatuses(s, e, atomic);
    }
  }

  lemma StepInv(s: State, e: Event, atomic: bool)
    requires Inv(s) && Enabled(s, e)
    ensures !e.RetryLaunch? && Inv(Apply(s, e, atomic))
  {
    StepCounts(s, e, atomic);
    StepJoining(s, e, atomic);
    StepStatuses(s, e, atomic);
  }

  lemma {:induction false} Always(n: nat, events: seq<Event>, atomic: bool)
    requires Run(n, events, atomic).Some?
    ensures Inv(Run(n, events, atomic).value)
  {
    if events == [] {
      TotalUnborn(n, InGroup);
      TotalUnborn(n, Counted);
      TotalUnborn(n, Reported);
    } else {
      Always(n, events[..|events| - 1], atomic);
      StepInv(Run(n, events[..|events| - 1], atomic).value, events[|events| - 1], atomic);
    }
  }

  ghost predicate SomeoneLowers(ws: seq<Worker>) {
    exists i :: 0 <= i < |ws| && ws[i].Lowering?
  }

  lemma NobodyLowers(s: State, e: Event)
    requires Inv(s) && Enabled(s, e) && !SomeoneLowers(s.workers)
    ensures !SomeoneLowers(Apply(s, e, true).workers)
  {
    StepInv(s, e, true);
    var t := Apply(s, e, true);
    forall i | 0 <= i < |t.workers| ensures !t.workers[i].Lowering? {
      assert !s.workers[i].Lowering?;
    }
  }

  /** Goroutines that leave the wait group and lower the count in one step are never between the two. */
  lemma {:induction false} AtomicallyNobodyLowers(n: nat, events: seq<Event>)
    requires Run(n, events, true).Some?
    ensures !SomeoneLowers(Run(n, events, true).value.workers)
  {
    if events != [] {
      AtomicallyNobodyLowers(n, events[..|events| - 1]);
      Always(n, events[..|events| - 1], true);
      NobodyLowers(Run(n, events[..|events| - 1], true).value, events[|events| - 1]);
    }
  }

  /** The step has been applied, skipped, or applied by a goroutine that did not fail. */
  ghost predicate Settled(s: State, i: nat)
    requires i < |s.status| == |s.workers|
  {
    || s.status[i].Applied? || s.status[i].Skipped?
    || (s.status[i].Working? && (s.workers[i] == Lowering(true) || s.workers[i] == Over(true)))
  }

  lemma SettledOrDeferredAgain(s: State)
    requires Inv(s) && s.main == Returned(true)
    ensures forall i :: 0 <= i < |s.status| ==> (Settled(s, i) <==> !s.status[i].DeferredAgain?)
  {
    NoneInGroup(s);
    TotalBounds(s.workers, Reported);
  }

  ghost predicate AnyDeferredAgain(status: seq<Status>) {
    exists i :: 0 <= i < |status| && status[i].DeferredAgain?
  }

  lemma UpdatedDeferredAgain(status: seq<Status>, i: nat, x: Status)
    requires i < |status| && !status[i].DeferredAgain?
    ensures AnyDeferredAgain(status[i := x]) <==> AnyDeferredAgain(status) || x.DeferredAgain?
  {
    if x.DeferredAgain? {
      assert status[i := x][i].DeferredAgain?;
    }
    if AnyDeferredAgain(status) {
      var k :| 0 <= k < |status| && status[k].DeferredAgain?;
      assert status[i := x][k].DeferredAgain?;
    }
  }

  lemma MainDeferredAgain(s: State, e: Event)
    requires Statuses(s) && Enabled(s, e) && !OfWorker(e) && !OfRetry(e)
    ensures AnyDeferredAgain(ApplyMain(s, e).status) <==> AnyDeferredAgain(s.status)
  {
    match e
    case Finish(skipped) => UpdatedDeferredAgain(s.status, s.main.next, if skipped then Skipped else Applied);
    case Launch => UpdatedDeferredAgain(s.status, s.main.next, Working);
    case Defer => UpdatedDeferredAgain(s.status, s.main.next, Deferred);
    case Fail => UpdatedDeferredAgain(s.status, s.main.next, Broken);
    case _ =>
  }

  lemma RetryDeferredAgain(s: State, e: Event)
    requires Statuses(s) && Enabled(s, e) && OfRetry(e)
    ensures AnyDeferredAgain(ApplyRetry(s, e).status) <==> AnyDeferredAgain(s.status) || e == RetryDefer
  {
    assert s.main.Retrying? && s.main.todo != [] ==> s.main.todo[0] in s.main.todo;
    match e
    case RetryFinish(skipped) => UpdatedDeferredAgain(s.status, s.main.todo[0], if skipped then Skipped else Applied);
    case RetryLaunch => UpdatedDeferredAgain(s.status, s.main.todo[0], Working);
    case RetryDefer => UpdatedDeferredAgain(s.status, s.main.todo[0], DeferredAgain);
    case _ =>
  }

  lemma StepDeferredAgain(s: State, e: Event, atomic: bool)
    requires Statuses(s) && Enabled(s, e)
    ensures AnyDeferredAgain(Apply(s, e, atomic).status) <==> AnyDeferredAgain(s.status) || e == RetryDefer
  {
    if OfWorker(e) {
      assert ApplyWorker(s, e, atomic).status == s.status;
    } else if OfRetry(e) {
      RetryDeferredAgain(s, e);
    } else {
      MainDeferredAgain(s, e);
    }
  }

  lemma RunNext(n: nat, events: seq<Event>, atomic: bool)
    requires Run(n, events, atomic).Some? && events != []
    ensures var front, e := events[..|events| - 1], events[|events| - 1];
            && Run(n, front, atomic).Some? && Enabled(Run(n, front, atomic).value, e)
            && Run(n, events, atomic) == Some(Apply(Run(n, front, atomic).value, e, atomic))
  {
  }

  lemma InFront<T>(s: seq<T>, x: T)
    requires s != []
    ensures x in s <==> x in s[..|s| - 1] || x == s[|s| - 1]
  {
    assert s == s[..|s| - 1] + [s[|s| - 1]];
  }

  lemma {:induction false} DeferredAgainIs(n: nat, events: seq<Event>, atomic: bool)
    requires Run(n, events, atomic).Some?
    ensures RetryDefer in events <==> AnyDeferredAgain(Run(n, events, atomic).value.status)
  {
    if events == [] {
      assert forall i :: 0 <= i < n ==> Run(n, [], atomic).value.status[i] == Untouched;
    } else {
      var front, e := events[..|events| - 1], events[|events| - 1];
      DeferredAgainIs(n, front, atomic);
      RunNext(n, events, atomic);
      StatusesAlways(n, front, atomic);
      StepDeferredAgain(Run(n, front, atomic).value, e, atomic);
      InFront(events, RetryDefer);
    }
  }

  lemma StatusesAlways(n: nat, events: seq<Event>, atomic: bool)
    requires Run(n, events, atomic).Some?
    ensures Statuses(Run(n, events, atomic).value)
  {
    Always(n, events, atomic);
  }

  /** When a release reports success, every step has been applied or skipped if and only if no retried step
      was deferred a second time. */
  lemma NoStepLost(n: nat, events: seq<Event>, atomic: bool)
    requires Run(n, events, atomic).Some? && Run(n, events, atomic).value.main == Returned(true)
    ensures (forall i :: 0 <= i < n ==> Settled(Run(n, events, atomic).value, i)) <==> RetryDefer !in events
  {
    Always(n, events, atomic);
    SettledOrDeferredAgain(Run(n, events, atomic).value);
    DeferredAgainIs(n, events, atomic);
  }

  lemma NobodyCounted(s: State)
    requires Counts(s) && s.count > 0 && s.wg == 0
    ensures exists i :: 0 <= i < |s.workers| && s.workers[i].Lowering?
  {
    NoneInGroup(s);
    if !exists i :: 0 <= i < |s.workers| && s.workers[i].Lowering? {
      ZeroTotal(s.workers, Counted);
    }
  }

  lemma {:induction false} ZeroTotal(ws: seq<Worker>, weight: Worker -> nat)
    requires forall i :: 0 <= i < |ws| ==> weight(ws[i]) == 0
    ensures Total(ws, weight) == 0
  {
    if ws != [] {
      ZeroTotal(ws[..|ws| - 1], weight);
    }
  }

  /** What makes a release fail: a failed step, a cancellation, a failed goroutine, a state that cannot be written, or a
      failed retry. */
  ghost predicate GoesWrong(e: Event) {
    || e == Fail || e == Cancel || (e.WorkerResult? && !e.success) || e == Persist(false)
    || e == RetryFail || e == RetryEnd(false)
  }

  ghost predicate AnyWrong(events: seq<Event>) {
    exists k :: 0 <= k < |events| && GoesWrong(events[k])
  }

  ghost predicate HasFailed(w: Worker) {
    w.Failing? || Reported(w) == 1
  }

  ghost predicate SomeoneFailed(ws: seq<Worker>) {
    exists i :: 0 <= i < |ws| && HasFailed(ws[i])
  }

  ghost predicate Verdict(s: State, wrong: bool) {
    && (s.failed || s.cancelled || SomeoneFailed(s.workers) || s.main == Returned(false) ==> wrong)
    && (wrong ==> s.failed || s.cancelled || SomeoneFailed(s.workers) || s.main == Returned(false))
  }

  lemma FailedUpdate(ws: seq<Worker>, i: nat, w: Worker)
    requires i < |ws|
    ensures !HasFailed(ws[i]) ==> (SomeoneFailed(ws[i := w]) <==> SomeoneFailed(ws) || HasFailed(w))
    ensures HasFailed(ws[i]) && HasFailed(w) ==> SomeoneFailed(ws[i := w]) && SomeoneFailed(ws)
  {
    var t := ws[i := w];
    assert t[i] == w;
    forall k | 0 <= k < |ws| && k != i ensures t[k] == ws[k] {
    }
    if k :| 0 <= k < |ws| && k != i && HasFailed(ws[k]) {
      assert HasFailed(t[k]);
    }
    if HasFailed(w) {
      assert HasFailed(t[i]);
    }
  }

  lemma WorkerVerdict(s: State, e: Event, atomic: bool, wrong: bool)
    requires Inv(s) && Verdict(s, wrong) && Enabled(s, e) && OfWorker(e)
    ensures Verdict(ApplyWorker(s, e, atomic), wrong || GoesWrong(e))
  {
    match e
    case WorkerResult(i, success) => FailedUpdate(s.workers, i, if success then Leaving(true) else Failing);
    case WorkerReport(i) => FailedUpdate(s.workers, i, Leaving(false));
    case WorkerDone(i) => FailedUpdate(s.workers, i, if atomic then Over(s.workers[i].ok) else Lowering(s.workers[i].ok));
    case WorkerLower(i) => FailedUpdate(s.workers, i, Over(s.workers[i].ok));
  }

  lemma ReportedSomeone(s: State)
    requires Counts(s) && s.channel != []
    ensures SomeoneFailed(s.workers)
  {
    if !SomeoneFailed(s.workers) {
      forall i | 0 <= i < |s.workers| ensures Reported(s.workers[i]) == 0 {
        assert !HasFailed(s.workers[i]);
      }
      ZeroTotal(s.workers, Reported);
    }
  }

  lemma MainVerdict(s: State, e: Event, wrong: bool)
    requires Inv(s) && Verdict(s, wrong) && Enabled(s, e) && !OfWorker(e) && !OfRetry(e)
    ensures Verdict(ApplyMain(s, e), wrong || GoesWrong(e))
  {
    if e.Launch? {
      FailedUpdate(s.workers, s.main.next, Executing);
    } else if e.Persist? && s.channel != [] {
      ReportedSomeone(s);
    }
  }

  lemma RetryVerdict(s: State, e: Event, wrong: bool)
    requires Inv(s) && Verdict(s, wrong) && Enabled(s, e) && OfRetry(e)
    ensures Verdict(ApplyRetry(s, e), wrong || GoesWrong(e))
  {
  }

  lemma {:induction false} VerdictAlways(n: nat, events: seq<Event>, atomic: bool)
    requires Run(n, events, atomic).Some?
    ensures Verdict(Run(n, events, atomic).value, AnyWrong(events))
  {
    if events == [] {
      assert forall i :: 0 <= i < n ==> !HasFailed(Run(n, [], atomic).value.workers[i]);
    } else {
      var front, e := events[..|events| - 1], events[|events| - 1];
      VerdictAlways(n, front, atomic);
      RunNext(n, events, atomic);
      Always(n, front, atomic);
      var s := Run(n, front, atomic).value;
      if OfWorker(e) {
        WorkerVerdict(s, e, atomic, AnyWrong(front));
      } else if OfRetry(e) {
        RetryVerdict(s, e, AnyWrong(front));
      } else {
        MainVerdict(s, e, AnyWrong(front));
      }
      WrongLast(events);
    }
  }

  lemma WrongLast(events: seq<Event>)
    requires events != []
    ensures AnyWrong(events) <==> AnyWrong(events[..|events| - 1]) || GoesWrong(events[|events| - 1])
  {
    var front := events[..|events| - 1];
    if AnyWrong(front) {
      var k :| 0 <= k < |front| && GoesWrong(front[k]);
      assert GoesWrong(events[k]);
    }
    if AnyWrong(events) && !GoesWrong(events[|events| - 1]) {
      var k :| 0 <= k < |events| && GoesWrong(events[k]);
      assert GoesWrong(front[k]);
    }
  }

  /** A release that has come to its end reports success exactly if nothing went wrong in it. */
  lemma SucceedsExactly(n: nat, events: seq<Event>, atomic: bool, ok: bool)
    requires Run(n, events, atomic).Some? && Run(n, events, atomic).value.main == Returned(ok)
    ensures ok <==> !AnyWrong(events)
  {
    VerdictAlways(n, events, atomic);
    Always(n, events, atomic);
    var s := Run(n, events, atomic).value;
    if ok {
      NoneInGroup(s);
      TotalBounds(s.workers, Reported);
      assert forall i :: 0 <= i < |s.workers| ==> !HasFailed(s.workers[i]);
    }
  }

  lemma CountsAlways(n: nat, events: seq<Event>, atomic: bool)
    requires Run(n, events, atomic).Some?
    ensures Counts(Run(n, events, atomic).value)
  {
    Always(n, events, atomic);
  }

  ghost predicate SomeoneCounted(s: State) {
    exists i :: 0 <= i < |s.workers| && Counted(s.workers[i]) == 1
  }

  /** What can happen to a step when its turn comes: it may be done, fail or be cancelled; it may go to a goroutine; and
      it is deferred only while a goroutine is counted. After the last step only the loop can end. */
  lemma StepOutcomes(n: nat, events: seq<Event>, atomic: bool, skipped: bool)
    requires Run(n, events, atomic).Some? && Run(n, events, atomic).value.main.Looping?
    ensures var s := Run(n, events, atomic).value;
            if s.main.next < n then
              && Enabled(s, Finish(skipped)) && Enabled(s, Fail) && Enabled(s, Cancel) && Enabled(s, Launch)
              && (Enabled(s, Defer) <==> SomeoneCounted(s))
            else Enabled(s, EndLoop) && !Enabled(s, Cancel) && !Enabled(s, Fail)
  {
    CountsAlways(n, events, atomic);
    CountedSomeone(Run(n, events, atomic).value);
    ParallelWhileLooping(n, events, atomic);
  }

  /** A retried step may be done, fail, or be deferred a second time, while a goroutine is counted. */
  lemma RetryOutcomes(n: nat, events: seq<Event>, atomic: bool, skipped: bool)
    requires Run(n, events, atomic).Some? && Run(n, events, atomic).value.main.Retrying?
    ensures var s := Run(n, events, atomic).value;
            if s.main.todo != [] then
              && Enabled(s, RetryFinish(skipped)) && Enabled(s, RetryFail)
              && (Enabled(s, RetryDefer) <==> SomeoneCounted(s))
            else !Enabled(s, RetryFail)
  {
    CountsAlways(n, events, atomic);
    CountedSomeone(Run(n, events, atomic).value);
    FirstRetry(n, events, atomic);
  }

  lemma CountedSomeone(s: State)
    requires Counts(s)
    ensures s.count > 0 <==> SomeoneCounted(s)
  {
    if forall i :: 0 <= i < |s.workers| ==> Counted(s.workers[i]) == 0 {
      ZeroTotal(s.workers, Counted);
    } else {
      TotalBounds(s.workers, Counted);
    }
  }

  lemma {:induction false} ParallelWhileLooping(n: nat, events: seq<Event>, atomic: bool)
    requires Run(n, events, atomic).Some?
    ensures Run(n, events, atomic).value.main.Looping? ==> Run(n, events, atomic).value.parallel
  {
    if events != [] {
      ParallelWhileLooping(n, events[..|events| - 1], atomic);
      RunNext(n, events, atomic);
    }
  }

  /** A retried step can be deferred again only while a goroutine has left the wait group without having
      lowered the count yet. */
  lemma SecondDeferralNeedsGap(n: nat, events: seq<Event>, atomic: bool)
    requires Run(n, events, atomic).Some? && Enabled(Run(n, events, atomic).value, RetryDefer)
    ensures !atomic && exists i :: 0 <= i < n && Run(n, events, atomic).value.workers[i].Lowering?
  {
    Always(n, events, atomic);
    NobodyCounted(Run(n, events, atomic).value);
    if atomic {
      AtomicallyNobodyLowers(n, events);
    }
  }

  lemma {:induction false} NoSecondDeferral(n: nat, events: seq<Event>)
    requires Run(n, events, true).Some?
    ensures RetryDefer !in events
  {
    if events != [] {
      var front, e := events[..|events| - 1], events[|events| - 1];
      NoSecondDeferral(n, front);
      assert events == front + [e];
      if e == RetryDefer {
        SecondDeferralNeedsGap(n, front, true);
      }
    }
  }

  /** If goroutines leave the wait group and lower the count in one step, a successful release has applied or
      skipped every step. */
  lemma NoStepLostAtomically(n: nat, events: seq<Event>)
    requires Run(n, events, true).Some? && Run(n, events, true).value.main == Returned(true)
    ensures forall i :: 0 <= i < n ==> Settled(Run(n, events, true).value, i)
  {
    NoSecondDeferral(n, events);
    NoStepLost(n, events, true);
  }

  /** A goroutine that reports a failure finds the channel open and with room; no goroutine is ever started by a
      retry, which has no channel to give it. */
  lemma ReportNeverBlocks(n: nat, events: seq<Event>, atomic: bool, i: nat)
    requires Run(n, events, atomic).Some? && i < n && Run(n, events, atomic).value.workers[i].Failing?
    ensures var s := Run(n, events, atomic).value;
            !s.closed && |s.channel| < n && Enabled(s, WorkerReport(i)) && s.stranded == 0
  {
    Always(n, events, atomic);
    var s := Run(n, events, atomic).value;
    TotalBounds(s.workers, Reported);
    TotalBounds(s.workers, InGroup);
    assert Reported(s.workers[i]) == 0 && InGroup(s.workers[i]) == 1;
  }

  /** A retried step is never run in a goroutine: retrying switches parallel runs off first. */
  lemma {:induction false} RetriesRunAlone(n: nat, events: seq<Event>, atomic: bool)
    requires Run(n, events, atomic).Some?
    ensures RetryLaunch !in events && Run(n, events, atomic).value.stranded == 0
  {
    if events != [] {
      var front, e := events[..|events| - 1], events[|events| - 1];
      RetriesRunAlone(n, front, atomic);
      RunNext(n, events, atomic);
      NobodyLaunches(n, front, e, atomic);
      InFront(events, RetryLaunch);
    }
  }

  lemma NobodyLaunches(n: nat, events: seq<Event>, e: Event, atomic: bool)
    requires Run(n, events, atomic).Some? && Enabled(Run(n, events, atomic).value, e)
    requires Run(n, events, atomic).value.stranded == 0
    ensures e != RetryLaunch && Apply(Run(n, events, atomic).value, e, atomic).stranded == 0
  {
    Always(n, events, atomic);
  }

  /** One of the goroutines in the wait group. */
  ghost predicate InTheGroup(s: State, i: nat) {
    i < |s.workers| && (s.workers[i].Executing? || s.workers[i].Failing? || s.workers[i].Leaving?)
  }

  /** The wait for the goroutines cannot hang: while it does not end, one of them can go on. */
  lemma WaitingMakesProgress(n: nat, events: seq<Event>, atomic: bool)
    requires Run(n, events, atomic).Some? && Run(n, events, atomic).value.main.Waiting?
    ensures var s := Run(n, events, atomic).value;
            Enabled(s, Joined) || exists i: nat :: InTheGroup(s, i)
  {
    CountsAlways(n, events, atomic);
    if Run(n, events, atomic).value.wg != 0 {
      SomeoneInGroup(Run(n, events, atomic).value);
    }
  }

  lemma SomeoneInGroup(s: State)
    requires s.wg == Total(s.workers, InGroup) && s.wg != 0
    ensures exists i: nat :: InTheGroup(s, i)
  {
    if forall i :: 0 <= i < |s.workers| ==> InGroup(s.workers[i]) == 0 {
      ZeroTotal(s.workers, InGroup);
    } else {
      var i: nat :| i < |s.workers| && InGroup(s.workers[i]) != 0;
      assert InTheGroup(s, i);
    }
  }

  /* ---------- every schedule ends ---------- */

  /** How many events of a goroutine can follow at most. */
  ghost function WorkerSteps(w: Worker): nat {
    match w
    case Unborn => 0
    case Executing => 4
    case Failing => 3
    case Leaving(_) => 2
    case Lowering(_) => 1
    case Over(_) => 0
  }

  /** How many events of the main goroutine can follow at most; a turn of the loop may start a goroutine. */
  ghost function MainSteps(s: State): nat {
    var n := |s.status|;
    match s.main
    case Looping(next) => 5 * (if next <= n then n - next else 0) + 5 * n + 4
    case Waiting => 5 * n + 3
    case Closed => 5 * n + 2
    case Retrying(todo) => 5 * |todo| + 1
    case Returned(_) => 0
  }

  ghost function StepsLeft(s: State): nat {
    MainSteps(s) + Total(s.workers, WorkerSteps)
  }

  lemma {:induction false} FewDeferred(status: seq<Status>)
    ensures |DeferredSteps(status)| <= |status|
  {
    if status != [] {
      FewDeferred(status[..|status| - 1]);
    }
  }

  lemma WorkerGoesOn(s: State, e: Event, atomic: bool)
    requires |s.workers| == |s.status| && Enabled(s, e) && OfWorker(e)
    ensures var t := ApplyWorker(s, e, atomic);
            && t.main == s.main && t.status == s.status && e.i < |s.workers| == |t.workers|
            && t.workers == s.workers[e.i := t.workers[e.i]]
            && WorkerSteps(t.workers[e.i]) < WorkerSteps(s.workers[e.i])
  {
  }

  lemma WorkerEventCounts(s: State, e: Event, atomic: bool)
    requires |s.workers| == |s.status| && Enabled(s, e) && OfWorker(e)
    ensures StepsLeft(ApplyWorker(s, e, atomic)) < StepsLeft(s)
  {
    WorkerGoesOn(s, e, atomic);
    TotalUpdate(s.workers, e.i, ApplyWorker(s, e, atomic).workers[e.i], WorkerSteps);
  }

  lemma MainEventCounts(s: State, e: Event)
    requires |s.workers| == |s.status| && Enabled(s, e) && !OfWorker(e) && !OfRetry(e)
    ensures StepsLeft(ApplyMain(s, e)) < StepsLeft(s)
  {
    if e.Launch? {
      TotalUpdate(s.workers, s.main.next, Executing, WorkerSteps);
    } else if e.Persist? {
      FewDeferred(s.status);
    }
  }

  lemma RetryEventCounts(s: State, e: Event)
    requires |s.workers| == |s.status| && Enabled(s, e) && OfRetry(e)
    ensures StepsLeft(ApplyRetry(s, e)) < StepsLeft(s)
  {
    if e.RetryLaunch? {
      TotalUpdate(s.workers, s.main.todo[0], Executing, WorkerSteps);
    }
  }

  lemma EachEventCounts(s: State, e: Event, atomic: bool)
    requires |s.workers| == |s.status| && Enabled(s, e)
    ensures StepsLeft(Apply(s, e, atomic)) < StepsLeft(s)
  {
    if OfWorker(e) {
      WorkerEventCounts(s, e, atomic);
    } else if OfRetry(e) {
      RetryEventCounts(s, e);
    } else {
      MainEventCounts(s, e);
    }
  }

  /** Every schedule ends: there are never more than ten events for each step and four more, and until the main
      goroutine returns there is another. */
  lemma {:induction false} EveryScheduleEnds(n: nat, events: seq<Event>, atomic: bool)
    requires Run(n, events, atomic).Some?
    ensures |events| + StepsLeft(Run(n, events, atomic).value) <= 10 * n + 4
    ensures !Run(n, events, atomic).value.main.Returned? ==> exists e :: Enabled(Run(n, events, atomic).value, e)
  {
    if events == [] {
      TotalUnborn(n, WorkerSteps);
    } else {
      var front := events[..|events| - 1];
      EveryScheduleEnds(n, front, atomic);
      EachEventCounts(Run(n, front, atomic).value, events[|events| - 1], atomic);
    }
    if !Run(n, events, atomic).value.main.Returned? {
      SomethingGoesOn(n, events, atomic);
    }
  }

  lemma CanGoOn(s: State)
    requires !s.main.Returned? && |s.workers| == |s.status|
    requires s.main.Retrying? && s.main.todo != [] ==> s.main.todo[0] < |s.status|
    requires s.main.Waiting? ==> Enabled(s, Joined) || exists i: nat :: InTheGroup(s, i)
    ensures exists e :: Enabled(s, e)
  {
    if s.main.Looping? {
      assert Enabled(s, Fail) || Enabled(s, EndLoop);
    } else if s.main.Waiting? {
      if i: nat :| InTheGroup(s, i) {
        assert Enabled(s, WorkerResult(i, true)) || Enabled(s, WorkerReport(i)) || Enabled(s, WorkerDone(i));
      }
    } else if s.main.Closed? {
      assert Enabled(s, Persist(true));
    } else {
      assert Enabled(s, RetryFail) || Enabled(s, RetryEnd(true));
    }
  }

  lemma FirstRetry(n: nat, events: seq<Event>, atomic: bool)
    requires Run(n, events, atomic).Some?
    ensures var main := Run(n, events, atomic).value.main; main.Retrying? && main.todo != [] ==> main.todo[0] < n
  {
    StatusesAlways(n, events, atomic);
    var main := Run(n, events, atomic).value.main;
    assert main.Retrying? && main.todo != [] ==> main.todo[0] in main.todo;
  }

  lemma SomethingGoesOn(n: nat, events: seq<Event>, atomic: bool)
    requires Run(n, events, atomic).Some? && !Run(n, events, atomic).value.main.Returned?
    ensures exists e :: Enabled(Run(n, events, atomic).value, e)
  {
    var s := Run(n, events, atomic).value;
    FirstRetry(n, events, atomic);
    if s.main.Waiting? {
      WaitingMakesProgress(n, events, atomic);
    }
    CanGoOn(s);
  }

  lemma RunMore(n: nat, events: seq<Event>, e: Event, atomic: bool)
    requires Run(n, events, atomic).Some? && Enabled(Run(n, events, atomic).value, e)
    ensures Run(n, events + [e], atomic) == Some(Apply(Run(n, events, atomic).value, e, atomic))
  {
    assert (events + [e])[..|events|] == events;
  }

  /** A step that is done is recorded as skipped or applied, whichever it was, at once or when it is retried. */
  lemma DoneAsReported(n: nat, events: seq<Event>, skipped: bool, atomic: bool)
    requires Run(n, events, atomic).Some?
    requires var main := Run(n, events, atomic).value.main;
             (main.Looping? && main.next < n) || (main.Retrying? && main.todo != [])
    ensures var main := Run(n, events, atomic).value.main;
            var k, e := if main.Looping? then main.next else main.todo[0],
                        if main.Looping? then Finish(skipped) else RetryFinish(skipped);
            && k < n && Run(n, events + [e], atomic).Some?
            && Run(n, events + [e], atomic).value.status[k] == if skipped then Skipped else Applied
  {
    FirstRetry(n, events, atomic);
    RunMore(n, events, if Run(n, events, atomic).value.main.Looping? then Finish(skipped) else RetryFinish(skipped), atomic);
  }

  /** With the two steps apart, a release can report success although a step was neither applied nor skipped:
      the count of a finished goroutine is still up when its neighbour is retried. */
  const LOST_RETRY := [Launch, Defer, EndLoop, WorkerResult(0, true), WorkerDone(0), Joined, Persist(true),
                       RetryDefer, RetryEnd(true)]

  lemma StepRuns(n: nat, events: seq<Event>, k: nat, s: State, t: State)
    requires k < |events| && Run(n, events[..k], false) == Some(s) && |s.workers| == |s.status|
    requires Enabled(s, events[k]) && Apply(s, events[k], false) == t
    ensures Run(n, events[..k + 1], false) == Some(t)
  {
    assert events[..k + 1][..k] == events[..k];
  }

  ghost function Lost(k: nat): State
    requires k <= 9
  {
    var w := [Executing, Unborn];
    var here, deferred := [Working, Untouched], [Working, Deferred];
    var left := [Lowering(true), Unborn];
    match k
    case 0 => Initial(2)
    case 1 => State(Looping(1), true, here, w, 1, 1, [], 0, false, false, false)
    case 2 => State(Looping(2), true, deferred, w, 1, 1, [], 0, false, false, false)
    case 3 => State(Waiting, true, deferred, w, 1, 1, [], 0, false, false, false)
    case 4 => State(Waiting, true, deferred, [Leaving(true), Unborn], 1, 1, [], 0, false, false, false)
    case 5 => State(Waiting, true, deferred, left, 0, 1, [], 0, false, false, false)
    case 6 => State(Closed, true, deferred, left, 0, 1, [], 0, true, false, false)
    case 7 => State(Retrying([1]), false, deferred, left, 0, 1, [], 0, true, false, false)
    case 8 => State(Retrying([]), false, [Working, DeferredAgain], left, 0, 1, [], 0, true, false, false)
    case 9 => State(Returned(true), false, [Working, DeferredAgain], left, 0, 1, [], 0, true, false, false)
  }

  ghost predicate LostStep(k: nat)
    requires k < 9
  {
    && Enabled(Lost(k), LOST_RETRY[k]) && |Lost(k).workers| == |Lost(k).status|
    && Apply(Lost(k), LOST_RETRY[k], false) == Lost(k + 1)
  }

  lemma LostLooping(k: nat)
    requires k < 3
    ensures LostStep(k)
  {
    assert Initial(2).status == [Untouched, Untouched] && Initial(2).workers == [Unborn, Unborn];
    var t := ApplyMain(Lost(k), LOST_RETRY[k]);
    assert t.status == Lost(k + 1).status && t.workers == Lost(k + 1).workers;
  }

  lemma LostWaiting(k: nat)
    requires 3 <= k < 6
    ensures LostStep(k)
  {
    if k < 5 {
      assert ApplyWorker(Lost(k), LOST_RETRY[k], false).workers == Lost(k + 1).workers;
    }
  }

  lemma LostClosed()
    ensures LostStep(6)
  {
    var status := [Working, Deferred];
    assert status[..1] == [Working] && status[..1][..0] == [];
    assert DeferredSteps(status[..1]) == [];
    assert DeferredSteps(status) == [] + [1];
    assert DeferredSteps(Lost(6).status) == [1];
  }

  lemma LostRetrying(k: nat)
    requires 7 <= k < 9
    ensures LostStep(k)
  {
    assert Lost(7).main.todo[1..] == [];
    var t := ApplyRetry(Lost(k), LOST_RETRY[k]);
    assert t.status == Lost(k + 1).status && t.main == Lost(k + 1).main;
  }

  lemma LostTurn(k: nat)
    requires k < 9
    ensures LostStep(k)
  {
    if k < 3 {
      LostLooping(k);
    } else if k < 6 {
      LostWaiting(k);
    } else if k == 6 {
      LostClosed();
    } else {
      LostRetrying(k);
    }
  }

  lemma {:induction false} LostRun(k: nat)
    requires k <= 9
    ensures Run(2, LOST_RETRY[..k], false) == Some(Lost(k))
  {
    if k > 0 {
      LostRun(k - 1);
      LostTurn(k - 1);
      StepRuns(2, LOST_RETRY, k - 1, Lost(k - 1), Lost(k));
    }
  }

  lemma RetryCanBeLost()
    ensures Run(2, LOST_RETRY, false).Some?
    ensures var s := Run(2, LOST_RETRY, false).value;
            s.main == Returned(true) && !Settled(s, 1)
  {
    LostRun(9);
    assert LOST_RETRY[..9] == LOST_RETRY;
  }
}
