/** The log-forwarding stream: producers that never block, one supervisor that batches, sends, reconnects
    and finally reports completion. Every interleaving is a list of events. */
module LogStream {
  import opened Versions

  const QUEUE_CAPACITY := 4096
  const BATCH_LIMIT := 1024

  datatype Plan = Plan(body: string)

  datatype Message = Logs(lines: seq<string>) | Summary(plan: Plan) | Completion

  /** Which loop of the supervisor is running. */
  datatype Mode = Flush | Select | Drain

  datatype Phase =
    | Idle(mode: Mode)
    | Collecting(batch: seq<string>, mode: Mode)  // drainLogBatch, holding the lines taken so far
    | SendingLogs(mode: Mode)                     // pendingLogs is set, Send has not returned
    | SendingPlan(mode: Mode)                     // pendingPlan is set, Send has not returned
    | Completing
    | Reconnecting
    | Stopped

  /** A send either succeeds, or fails without or with the message having reached the server. */
  datatype Fate = Delivered | Lost | Unsure

  datatype Event =
    | SendLog(line: string) | SendPlan(plan: Plan) | Disconnect
    | TakeLine | TakeMore | CloseBatch | TakePlan | Send(fate: Fate) | Ping(ok: bool) | ReceiveError
    | FlushLogs | FlushPlan | Flushed | SeeDone | Drained | Complete(fate: Fate)
    | Reopen(ok: bool) | GiveUp

  /** A message as the server got it, with the number of messages successfully sent before the attempt. */
  datatype Arrival = Arrival(number: nat, message: Message)

  /** What has happened so far. `linesBefore` and `plansBefore` count what was accepted before Disconnect. */
  datatype History = History(calls: nat, dropped: nat, accepted: seq<string>, plans: seq<Plan>,
                             sent: seq<Message>, seen: seq<Arrival>, completions: nat,
                             linesBefore: nat, plansBefore: nat)

  /** `finished` lists the values put in the channel that Disconnect reads; true stands for no error. */
  datatype State = State(queue: seq<string>, slot: Option<Plan>, pendingLogs: seq<string>, pendingPlan: Option<Plan>,
                         phase: Phase, done: bool, finished: seq<bool>, h: History)

  const INITIAL := State([], None, [], None, Idle(Flush), false, [], History(0, 0, [], [], [], [], 0, 0, 0))

  predicate Enabled(s: State, e: Event) {
    match e
    case SendLog(_) => true
    case SendPlan(_) => true
    case Disconnect => true
    case TakeLine => (s.phase == Idle(Select) || s.phase == Idle(Drain)) && s.queue != []
    case TakeMore => s.phase.Collecting? && |s.phase.batch| < BATCH_LIMIT && s.queue != []
    case CloseBatch => s.phase.Collecting? && (|s.phase.batch| >= BATCH_LIMIT || s.queue == [])
    case TakePlan => (s.phase == Idle(Select) || s.phase == Idle(Drain)) && s.slot.Some?
    case Send(_) => s.phase.SendingLogs? || s.phase.SendingPlan?
    case Ping(_) => s.phase == Idle(Select)
    case ReceiveError => s.phase == Idle(Select)
    case FlushLogs => s.phase == Idle(Flush) && s.pendingLogs != []
    case FlushPlan => s.phase == Idle(Flush) && s.pendingLogs == [] && s.pendingPlan.Some?
    case Flushed => s.phase == Idle(Flush) && s.pendingLogs == [] && s.pendingPlan.None?
    case SeeDone => s.phase == Idle(Select) && s.done
    case Drained => s.phase == Idle(Drain) && s.queue == [] && s.slot.None?
    case Complete(_) => s.phase.Completing?
    case Reopen(_) => s.phase.Reconnecting?
    case GiveUp => s.phase.Reconnecting? && s.done
  }

  function Attempt(h: History, m: Message, fate: Fate): History {
    var seen := if fate == Lost then h.seen else h.seen + [Arrival(|h.sent|, m)];
    h.(sent := if fate == Delivered then h.sent + [m] else h.sent, seen := seen)
  }

  function Apply(s: State, e: Event): State
    requires Enabled(s, e)
  {
    match e
    case SendLog(line) =>
      if |s.queue| < QUEUE_CAPACITY then
        s.(queue := s.queue + [line], h := s.h.(calls := s.h.calls + 1, accepted := s.h.accepted + [line]))
      else s.(h := s.h.(calls := s.h.calls + 1, dropped := s.h.dropped + 1))
    case SendPlan(plan) =>
      if s.slot.None? then s.(slot := Some(plan), h := s.h.(plans := s.h.plans + [plan])) else s
    case Disconnect =>
      if s.done then s
      else s.(done := true, h := s.h.(linesBefore := |s.h.accepted|, plansBefore := |s.h.plans|))
    case TakeLine => s.(queue := s.queue[1..], phase := Collecting([s.queue[0]], s.phase.mode))
    case TakeMore => s.(queue := s.queue[1..], phase := Collecting(s.phase.batch + [s.queue[0]], s.phase.mode))
    case CloseBatch => s.(pendingLogs := s.phase.batch, phase := SendingLogs(s.phase.mode))
    case TakePlan => s.(slot := None, pendingPlan := s.slot, phase := SendingPlan(s.phase.mode))
    case Send(fate) =>
      var logs := s.phase.SendingLogs?;
      var m := if logs then Logs(s.pendingLogs) else if s.pendingPlan.Some? then Summary(s.pendingPlan.value) else Completion;
      var h := Attempt(s.h, m, fate);
      if fate != Delivered then s.(phase := Reconnecting, h := h)
      else if logs then s.(phase := Idle(s.phase.mode), pendingLogs := [], h := h)
      else s.(phase := Idle(s.phase.mode), pendingPlan := None, h := h)
    case Ping(ok) => if ok then s else s.(phase := Reconnecting)
    case ReceiveError => s.(phase := Reconnecting)
    case FlushLogs => s.(phase := SendingLogs(Flush))
    case FlushPlan => s.(phase := SendingPlan(Flush))
    case Flushed => s.(phase := Idle(Select))
    case SeeDone => s.(phase := Idle(Drain))
    case Drained => s.(phase := Completing)
    case Complete(fate) =>
      s.(phase := Stopped, finished := s.finished + [fate == Delivered],
         h := Attempt(s.h, Completion, fate).(completions := s.h.completions + 1))
    case Reopen(ok) => if ok then s.(phase := Idle(Flush)) else s
    case GiveUp => s.(phase := Stopped, finished := s.finished + [true])
  }

  /** The state after a list of events, if each of them was possible in turn. */
  function Run(events: seq<Event>): Option<State> {
    if events == [] then Some(INITIAL)
    else match Run(events[..|events| - 1])
      case Some(s) => if Enabled(s, events[|events| - 1]) then Some(Apply(s, events[|events| - 1])) else None
      case None => None
  }

  ghost function LinesOf(ms: seq<Message>): seq<string> {
    if ms == [] then []
    else LinesOf(ms[..|ms| - 1]) + (match ms[|ms| - 1] case Logs(lines) => lines case _ => [])
  }

  ghost function PlansOf(ms: seq<Message>): seq<Plan> {
    if ms == [] then []
    else PlansOf(ms[..|ms| - 1]) + (match ms[|ms| - 1] case Summary(plan) => [plan] case _ => [])
  }

  ghost function Listed(p: Option<Plan>): seq<Plan> {
    if p.Some? then [p.value] else []
  }

  ghost function Held(s: State): seq<string> {
    if s.phase.Collecting? then s.phase.batch else []
  }

  /** Nothing accepted is lost, repeated or reordered inside the client. */
  ghost predicate Conserved(s: State) {
    && s.h.accepted == LinesOf(s.h.sent) + s.pendingLogs + Held(s) + s.queue
    && s.h.plans == PlansOf(s.h.sent) + Listed(s.pendingPlan) + Listed(s.slot)
    && s.h.calls == |s.h.accepted| + s.h.dropped
  }

  ghost predicate GoodMessage(m: Message) {
    m.Logs? ==> 1 <= |m.lines| <= BATCH_LIMIT
  }

  ghost predicate Bounded(s: State) {
    && |s.queue| <= QUEUE_CAPACITY
    && |s.pendingLogs| <= BATCH_LIMIT
    && (s.phase.Collecting? ==> 1 <= |s.phase.batch| <= BATCH_LIMIT)
    && (forall m :: m in s.h.sent ==> GoodMessage(m))
  }

  /** The pending slots belong to the message in flight; they are never both set. */
  ghost predicate Slots(s: State) {
    && (s.pendingLogs == [] || s.pendingPlan.None?)
    && (s.phase.SendingLogs? ==> s.pendingLogs != [])
    && (s.phase.SendingPlan? ==> s.pendingPlan.Some?)
    && (s.phase.Collecting? || s.phase.Completing? || s.phase == Idle(Select) || s.phase == Idle(Drain) ==>
          s.pendingLogs == [] && s.pendingPlan.None?)
    && (s.phase.Collecting? ==> s.phase.mode != Flush)
  }

  /** The message that may have been seen without having been sent successfully. */
  ghost function InFlight(s: State): Option<Message> {
    if s.pendingLogs != [] then Some(Logs(s.pendingLogs))
    else if s.pendingPlan.Some? then Some(Summary(s.pendingPlan.value))
    else if s.h.completions > 0 && Completion !in s.h.sent then Some(Completion)
    else None
  }

  /** The server has the sent messages in order; only the one in flight may be there in addition, and a
      message can only be repeated right after itself. */
  ghost predicate ServerInStep(s: State) {
    && (forall k :: 0 <= k < |s.h.seen| ==>
          var a := s.h.seen[k];
          if a.number < |s.h.sent| then a.message == s.h.sent[a.number]
          else a.number == |s.h.sent| && InFlight(s) == Some(a.message))
    && (forall k :: 0 <= k < |s.h.seen| - 1 ==>
          s.h.seen[k].number <= s.h.seen[k + 1].number <= s.h.seen[k].number + 1)
    && (s.h.seen != [] ==> s.h.seen[0].number == 0 && s.h.seen[|s.h.seen| - 1].number + 1 >= |s.h.sent|)
    && (s.h.seen == [] ==> s.h.sent == [])
  }

  ghost predicate DrainsOnlyWhenDone(s: State) {
    && (s.phase.Completing? || s.phase.Stopped? || s.h.completions > 0 || (s.phase.Idle? && s.phase.mode == Drain) ==> s.done)
    && ((s.phase.Collecting? || s.phase.SendingLogs? || s.phase.SendingPlan?) && s.phase.mode == Drain ==> s.done)
  }

  /** Completion is attempted only once everything accepted before Disconnect has been sent. */
  ghost predicate CompletesLast(s: State) {
    && s.h.linesBefore <= |s.h.accepted| && s.h.plansBefore <= |s.h.plans|
    && (s.phase.Completing? || s.h.completions > 0 ==>
          && s.h.linesBefore <= |LinesOf(s.h.sent)| && s.h.plansBefore <= |PlansOf(s.h.sent)|
          && s.pendingLogs == [] && s.pendingPlan.None?)
  }

  /** The supervisor stops with exactly one verdict, after at most one attempt to report completion. */
  ghost predicate OneVerdict(s: State) {
    && s.h.completions <= 1
    && (s.h.completions == 1 ==> s.phase.Stopped?)
    && |s.finished| == (if s.phase.Stopped? then 1 else 0)
    && (s.phase.Stopped? && s.h.completions == 0 ==> s.finished == [true])
  }

  /** A delivered completion is the last message sent, and is what a verdict without error stands for. */
  ghost predicate CompletionIsLast(s: State) {
    && (Completion in s.h.sent <==> s.h.completions == 1 && s.finished == [true])
    && (forall k :: 0 <= k < |s.h.sent| && s.h.sent[k].Completion? ==> k == |s.h.sent| - 1)
  }

  ghost predicate Ending(s: State) {
    DrainsOnlyWhenDone(s) && CompletesLast(s) && OneVerdict(s) && CompletionIsLast(s)
  }

  ghost predicate Inv(s: State) {
    Conserved(s) && Bounded(s) && Slots(s) && ServerInStep(s) && Ending(s)
  }

  lemma LinesGrow(ms: seq<Message>, m: Message)
    ensures LinesOf(ms + [m]) == LinesOf(ms) + (match m case Logs(lines) => lines case _ => [])
    ensures PlansOf(ms + [m]) == PlansOf(ms) + (match m case Summary(plan) => [plan] case _ => [])
  {
    assert (ms + [m])[..|ms|] == ms;
  }

  /** What an attempt to send adds to the histories. */
  lemma AttemptAdds(h: History, m: Message, fate: Fate)
    ensures var t := Attempt(h, m, fate);
            && LinesOf(t.sent) == LinesOf(h.sent) + (if fate == Delivered && m.Logs? then m.lines else [])
            && PlansOf(t.sent) == PlansOf(h.sent) + (if fate == Delivered && m.Summary? then [m.plan] else [])
            && (Completion in t.sent <==> Completion in h.sent || (fate == Delivered && m.Completion?))
  {
    LinesGrow(h.sent, m);
  }

  lemma MoveFirst(front: seq<string>, held: seq<string>, queue: seq<string>)
    requires queue != []
    ensures front + held + queue == front + (held + [queue[0]]) + queue[1..]
    ensures held == [] ==> front + held + queue == front + [queue[0]] + queue[1..]
  {
    assert queue == [queue[0]] + queue[1..];
  }

  lemma AddLast<T>(front: seq<T>, back: seq<T>, x: T)
    ensures front + (back + [x]) == front + back + [x]
  {
  }

  lemma SendConserves(s: State, fate: Fate)
    requires Conserved(s) && Slots(s) && Enabled(s, Send(fate))
    ensures Conserved(Apply(s, Send(fate)))
  {
    AttemptAdds(s.h, if s.phase.SendingLogs? then Logs(s.pendingLogs) else Summary(s.pendingPlan.value), fate);
    var t := Apply(s, Send(fate));
    assert LinesOf(t.h.sent) + t.pendingLogs == LinesOf(s.h.sent) + s.pendingLogs;
    assert PlansOf(t.h.sent) + Listed(t.pendingPlan) == PlansOf(s.h.sent) + Listed(s.pendingPlan);
  }

  ghost predicate Sends(e: Event) {
    e.Send? || e.Complete?
  }

  lemma TakeConserves(s: State, e: Event)
    requires Conserved(s) && Slots(s) && Enabled(s, e) && (e.TakeLine? || e.TakeMore?)
    ensures Conserved(Apply(s, e))
  {
    MoveFirst(LinesOf(s.h.sent) + s.pendingLogs, Held(s), s.queue);
  }

  lemma BatchConserves(s: State)
    requires Conserved(s) && Slots(s) && Enabled(s, CloseBatch)
    ensures Conserved(Apply(s, CloseBatch))
  {
    var sent, batch := LinesOf(s.h.sent), s.phase.batch;
    assert sent + [] + batch == sent + batch + [];
  }

  lemma PlanConserves(s: State)
    requires Conserved(s) && Slots(s) && Enabled(s, TakePlan)
    ensures Conserved(Apply(s, TakePlan))
  {
    var sent, plan := PlansOf(s.h.sent), [s.slot.value];
    assert sent + [] + plan == sent + plan + [];
  }

  lemma AcceptConserves(s: State, e: Event)
    requires Conserved(s) && Enabled(s, e) && (e.SendLog? || e.SendPlan? || e.Disconnect?)
    ensures Conserved(Apply(s, e))
  {
    if e.SendLog? {
      AddLast(LinesOf(s.h.sent) + s.pendingLogs + Held(s), s.queue, e.line);
    } else if e.SendPlan? {
      AddLast(PlansOf(s.h.sent) + Listed(s.pendingPlan), [], e.plan);
    }
  }

  /** The remaining events move the supervisor without touching what it holds. */
  ghost predicate Quiet(e: Event) {
    !Sends(e) && !e.TakeLine? && !e.TakeMore? && !e.CloseBatch? && !e.TakePlan? && !e.SendLog? && !e.SendPlan? && !e.Disconnect?
  }

  lemma QuietConserves(s: State, e: Event)
    requires Conserved(s) && Enabled(s, e) && Quiet(e)
    ensures Conserved(Apply(s, e))
  {
    var t := Apply(s, e);
    assert t.h == s.h && t.queue == s.queue && t.slot == s.slot && t.pendingLogs == s.pendingLogs && t.pendingPlan == s.pendingPlan;
    assert !t.phase.Collecting? && !s.phase.Collecting?;
  }

  lemma CompleteConserves(s: State, fate: Fate)
    requires Conserved(s) && Enabled(s, Complete(fate))
    ensures Conserved(Apply(s, Complete(fate)))
  {
    AttemptAdds(s.h, Completion, fate);
    var sent, plans := LinesOf(s.h.sent), PlansOf(s.h.sent);
    assert sent + [] == sent && plans + [] == plans;
  }

  lemma StepConserves(s: State, e: Event)
    requires Conserved(s) && Slots(s) && Enabled(s, e)
    ensures Conserved(Apply(s, e))
  {
    match e {
      case Send(fate) => SendConserves(s, fate);
      case Complete(fate) => CompleteConserves(s, fate);
      case TakeLine => TakeConserves(s, e);
      case TakeMore => TakeConserves(s, e);
      case CloseBatch => BatchConserves(s);
      case TakePlan => PlanConserves(s);
      case SendLog(_) => AcceptConserves(s, e);
      case SendPlan(_) => AcceptConserves(s, e);
      case Disconnect => AcceptConserves(s, e);
      case _ => QuietConserves(s, e);
    }
  }

  lemma StepBounded(s: State, e: Event)
    requires Bounded(s) && Slots(s) && Enabled(s, e)
    ensures Bounded(Apply(s, e)) && Slots(Apply(s, e))
  {
  }

  /** An attempt keeps the server in step, whether or not it succeeds. */
  lemma AttemptInStep(s: State, t: State, m: Message, fate: Fate)
    requires ServerInStep(s) && (InFlight(s) == Some(m) || InFlight(s) == None)
    requires t.h.sent == Attempt(s.h, m, fate).sent && t.h.seen == Attempt(s.h, m, fate).seen
    requires fate != Delivered ==> InFlight(t) == Some(m)
    ensures ServerInStep(t)
  {
    forall k | 0 <= k < |t.h.seen| - 1
      ensures t.h.seen[k].number <= t.h.seen[k + 1].number <= t.h.seen[k].number + 1
    {
    }
  }

  lemma NoAttempt(s: State, e: Event)
    requires Slots(s) && OneVerdict(s) && Enabled(s, e) && !Sends(e)
    ensures var t := Apply(s, e);
            && t.h.sent == s.h.sent && t.h.seen == s.h.seen && t.h.completions == s.h.completions
            && (InFlight(s) == InFlight(t) || InFlight(s) == None)
            && (t.finished == s.finished || s.h.completions == 0)
            && |s.h.accepted| <= |t.h.accepted| && |s.h.plans| <= |t.h.plans|
            && (t.h.linesBefore == s.h.linesBefore || t.h.linesBefore == |t.h.accepted|)
            && (t.h.plansBefore == s.h.plansBefore || t.h.plansBefore == |t.h.plans|)
            && (s.done ==> t.h.linesBefore == s.h.linesBefore && t.h.plansBefore == s.h.plansBefore)
            && (t.phase.Completing? ==> s.phase.Completing? || e.Drained?)
            && (s.h.completions > 0 ==> t.pendingLogs == s.pendingLogs && t.pendingPlan == s.pendingPlan)
  {
  }

  lemma UnseenChange(s: State, t: State)
    requires ServerInStep(s) && t.h.sent == s.h.sent && t.h.seen == s.h.seen
    requires InFlight(s) == InFlight(t) || InFlight(s) == None
    ensures ServerInStep(t)
  {
  }

  lemma StepServer(s: State, e: Event)
    requires ServerInStep(s) && Slots(s) && OneVerdict(s) && CompletesLast(s) && CompletionIsLast(s) && Enabled(s, e)
    ensures ServerInStep(Apply(s, e))
  {
    var t := Apply(s, e);
    if e.Send? {
      AttemptInStep(s, t, if s.phase.SendingLogs? then Logs(s.pendingLogs) else Summary(s.pendingPlan.value), e.fate);
    } else if e.Complete? {
      AttemptAdds(s.h, Completion, e.fate);
      AttemptInStep(s, t, Completion, e.fate);
    } else {
      NoAttempt(s, e);
      UnseenChange(s, t);
    }
  }

  lemma StepPhases(s: State, e: Event)
    requires DrainsOnlyWhenDone(s) && OneVerdict(s) && Enabled(s, e)
    ensures DrainsOnlyWhenDone(Apply(s, e)) && OneVerdict(Apply(s, e))
  {
  }

  lemma StepCompletes(s: State, e: Event)
    requires Conserved(s) && Slots(s) && DrainsOnlyWhenDone(s) && CompletesLast(s) && OneVerdict(s) && Enabled(s, e)
    ensures CompletesLast(Apply(s, e))
  {
    if e.Send? {
      AttemptAdds(s.h, if s.phase.SendingLogs? then Logs(s.pendingLogs) else Summary(s.pendingPlan.value), e.fate);
    } else if e.Complete? {
      AttemptAdds(s.h, Completion, e.fate);
    } else if e.Drained? {
      assert s.h.accepted == LinesOf(s.h.sent);
      assert s.h.plans == PlansOf(s.h.sent);
    } else {
      NoAttempt(s, e);
      assert Apply(s, e).phase.Completing? ==> Apply(s, e).pendingLogs == s.pendingLogs && Apply(s, e).pendingPlan == s.pendingPlan;
    }
  }

  lemma NotYetCompleted(s: State)
    requires OneVerdict(s) && CompletionIsLast(s) && s.h.completions == 0
    ensures forall k :: 0 <= k < |s.h.sent| ==> !s.h.sent[k].Completion?
  {
    forall k | 0 <= k < |s.h.sent| ensures !s.h.sent[k].Completion? {
      assert s.h.sent[k] in s.h.sent;
    }
  }

  lemma StepCompletion(s: State, e: Event)
    requires Slots(s) && OneVerdict(s) && CompletionIsLast(s) && Enabled(s, e)
    ensures CompletionIsLast(Apply(s, e))
  {
    if e.Send? {
      NotYetCompleted(s);
      AttemptAdds(s.h, if s.phase.SendingLogs? then Logs(s.pendingLogs) else Summary(s.pendingPlan.value), e.fate);
    } else if e.Complete? {
      NotYetCompleted(s);
      AttemptAdds(s.h, Completion, e.fate);
      assert s.finished + [e.fate == Delivered] == [e.fate == Delivered];
    } else {
      NoAttempt(s, e);
    }
  }

  lemma {:induction false} Always(events: seq<Event>)
    requires Run(events).Some?
    ensures Inv(Run(events).value)
  {
    if events != [] {
      Always(events[..|events| - 1]);
      var s, e := Run(events[..|events| - 1]).value, events[|events| - 1];
      StepConserves(s, e);
      StepBounded(s, e);
      StepServer(s, e);
      StepPhases(s, e);
      StepCompletes(s, e);
      StepCompletion(s, e);
    }
  }

  /** In every run the accepted lines are, in order, the lines of the sent batches, of the pending batch, of
      the batch being drained and of the queue; the plan summaries likewise. Every call was accepted or
      dropped, every sent batch has between 1 and 1024 lines, and at most one pending slot is set. */
  lemma DeliveredInOrder(events: seq<Event>)
    requires Run(events).Some?
    ensures var s := Run(events).value;
            && s.h.accepted == LinesOf(s.h.sent) + s.pendingLogs + Held(s) + s.queue
            && s.h.plans == PlansOf(s.h.sent) + Listed(s.pendingPlan) + Listed(s.slot)
            && s.h.calls == |s.h.accepted| + s.h.dropped
            && (forall lines :: Logs(lines) in s.h.sent ==> 1 <= |lines| <= BATCH_LIMIT)
            && (s.pendingLogs == [] || s.pendingPlan.None?)
            && |s.queue| <= QUEUE_CAPACITY
  {
    Always(events);
    var s := Run(events).value;
    forall lines | Logs(lines) in s.h.sent ensures 1 <= |lines| <= BATCH_LIMIT {
      assert GoodMessage(Logs(lines));
    }
  }

  lemma RunMore(events: seq<Event>, e: Event)
    requires Run(events).Some? && Enabled(Run(events).value, e)
    ensures Run(events + [e]) == Some(Apply(Run(events).value, e))
  {
    assert (events + [e])[..|events|] == events;
  }

  /** After every run a call finds its place or is turned away at once: a line is accepted exactly if fewer than 4096
      lines are queued and counted as dropped otherwise; a plan is accepted exactly if its slot is empty. */
  lemma CallsAnswered(events: seq<Event>, line: string, plan: Plan)
    requires Run(events).Some?
    ensures Run(events + [SendLog(line)]).Some? && Run(events + [SendPlan(plan)]).Some?
    ensures var s, t := Run(events).value, Run(events + [SendLog(line)]).value;
            && t.h.calls == s.h.calls + 1
            && if |s.queue| < 4096 then
                 t.h.accepted == s.h.accepted + [line] && t.queue == s.queue + [line] && t.h.dropped == s.h.dropped
               else t.h.accepted == s.h.accepted && t.queue == s.queue && t.h.dropped == s.h.dropped + 1
    ensures var s, t := Run(events).value, Run(events + [SendPlan(plan)]).value;
            if s.slot.None? then t.h.plans == s.h.plans + [plan] && t.slot == Some(plan) else t == s
  {
    RunMore(events, SendLog(line));
    RunMore(events, SendPlan(plan));
  }

  /** Event `n` is a line that comes while the queue holds all it can. */
  ghost predicate ComesTooMany(events: seq<Event>, n: nat) {
    n < |events| && events[n].SendLog? && Run(events[..n]).Some? && |Run(events[..n]).value.queue| == 4096
  }

  lemma LastEvent(events: seq<Event>)
    requires Run(events).Some? && events != []
    ensures var front, e := events[..|events| - 1], events[|events| - 1];
            Run(front).Some? && Enabled(Run(front).value, e) && Run(events).value == Apply(Run(front).value, e)
  {
  }

  lemma QueueIsBounded(events: seq<Event>)
    requires Run(events).Some?
    ensures |Run(events).value.queue| <= 4096
  {
    Always(events);
  }

  lemma DroppedNow(s: State, e: Event)
    requires Enabled(s, e) && |s.queue| <= 4096
    ensures Apply(s, e).h.dropped == s.h.dropped + if e.SendLog? && |s.queue| == 4096 then 1 else 0
  {
  }

  lemma DroppedLast(events: seq<Event>)
    requires Run(events).Some? && events != []
    ensures var front := events[..|events| - 1];
            && Run(front).Some?
            && Run(events).value.h.dropped
               == Run(front).value.h.dropped + if ComesTooMany(events, |events| - 1) then 1 else 0
  {
    LastEvent(events);
    QueueIsBounded(events[..|events| - 1]);
    DroppedNow(Run(events[..|events| - 1]).value, events[|events| - 1]);
  }

  /** A line was dropped exactly if one came while 4096 lines were queued. */
  lemma {:induction false} DropsOnlyWhenFull(events: seq<Event>)
    requires Run(events).Some?
    ensures Run(events).value.h.dropped > 0 <==> exists n: nat :: ComesTooMany(events, n)
  {
    if events != [] {
      var last := |events| - 1;
      var front := events[..last];
      DroppedLast(events);
      DropsOnlyWhenFull(front);
      forall n: nat | n < last ensures ComesTooMany(events, n) <==> ComesTooMany(front, n) {
        assert front[..n] == events[..n];
      }
      if n: nat :| ComesTooMany(front, n) {
        assert ComesTooMany(events, n);
      } else {
        assert forall n: nat :: ComesTooMany(events, n) ==> n == last;
      }
    }
  }

  /** Whatever happens while a batch is collected, the batch is closed only when it has 1024 lines or no more are queued,
      and is then what is sent. */
  lemma BatchesAreFull(events: seq<Event>, e: Event)
    requires Run(events).Some? && Run(events + [e]).Some? && Run(events).value.phase.Collecting?
    ensures var s, t := Run(events).value, Run(events + [e]).value;
            t.phase.Collecting? || (t.phase == SendingLogs(s.phase.mode) && t.pendingLogs == s.phase.batch
                                    && (|s.phase.batch| == 1024 || s.queue == []))
  {
    Always(events);
    assert (events + [e])[..|events|] == events;
  }

  /** Something that the supervisor, or the server, can do next. */
  ghost predicate CanDo(s: State, e: Event) {
    !e.SendLog? && !e.SendPlan? && !e.Disconnect? && Enabled(s, e)
  }

  lemma SlotsAlways(events: seq<Event>)
    requires Run(events).Some?
    ensures Slots(Run(events).value)
  {
    Always(events);
  }

  lemma IdleGoesOn(s: State)
    requires Slots(s) && s.phase.Idle?
    ensures exists e :: CanDo(s, e)
  {
    match s.phase.mode {
      case Flush => assert CanDo(s, FlushLogs) || CanDo(s, FlushPlan) || CanDo(s, Flushed);
      case Select => assert CanDo(s, Ping(true));
      case Drain => assert CanDo(s, TakeLine) || CanDo(s, TakePlan) || CanDo(s, Drained);
    }
  }

  lemma BusyGoesOn(s: State)
    requires !s.phase.Idle? && !s.phase.Stopped?
    ensures exists e :: CanDo(s, e)
  {
    if s.phase.Collecting? {
      assert CanDo(s, TakeMore) || CanDo(s, CloseBatch);
    } else if s.phase.Completing? {
      assert CanDo(s, Complete(Delivered));
    } else if s.phase.Reconnecting? {
      assert CanDo(s, Reopen(true));
    } else {
      assert CanDo(s, Send(Delivered));
    }
  }

  /** The supervisor is never stuck: until it stops, something it does itself is possible. */
  lemma NeverStuck(events: seq<Event>)
    requires Run(events).Some? && !Run(events).value.phase.Stopped?
    ensures exists e :: CanDo(Run(events).value, e)
  {
    SlotsAlways(events);
    if Run(events).value.phase.Idle? {
      IdleGoesOn(Run(events).value);
    } else {
      BusyGoesOn(Run(events).value);
    }
  }

  /** A failed send, a failed ping or an error from the server breaks the stream. */
  ghost predicate Breaks(e: Event) {
    || (e.Send? && e.fate != Delivered)
    || (e.Ping? && !e.ok)
    || e.ReceiveError?
  }

  /** Until a reopen succeeds, a supervisor whose stream broke only tries to reopen it, or gives up. */
  lemma {:induction false} StaysBroken(events: seq<Event>, i: nat)
    requires Run(events).Some? && i < |events| && Breaks(events[i]) && Reopen(true) !in events[i + 1..]
    ensures Run(events).value.phase.Reconnecting? || Run(events).value.phase.Stopped?
  {
    var last := |events| - 1;
    var front := events[..last];
    LastEvent(events);
    if i < last {
      assert front[i] == events[i] && events[i + 1..] == front[i + 1..] + [events[last]];
      StaysBroken(front, i);
    }
  }

  /** Nothing is sent on a broken stream: between a failure and the next attempt to send there is a successful reopen. */
  lemma NothingSentWhileBroken(events: seq<Event>, i: nat, e: Event)
    requires Run(events).Some? && Run(events + [e]).Some? && i < |events| && Breaks(events[i])
    requires e.Send? || e.Complete? || e.Ping?
    ensures Reopen(true) in events[i + 1..]
  {
    assert (events + [e])[..|events|] == events;
    if Reopen(true) !in events[i + 1..] {
      StaysBroken(events, i);
    }
  }

  /** A successful reopen, and only that, leads back to the messages that are still pending. */
  lemma ReopenFlushes(events: seq<Event>, ok: bool)
    requires Run(events).Some? && Run(events).value.phase.Reconnecting?
    ensures Run(events + [Reopen(ok)]).Some?
    ensures Run(events + [Reopen(ok)]).value == Run(events).value.(phase := if ok then Idle(Flush) else Reconnecting)
  {
    RunMore(events, Reopen(ok));
  }

  /** A successful ping changes nothing, and an error can come at any time between two messages. */
  lemma PingChangesNothing(events: seq<Event>)
    requires Run(events).Some? && Run(events).value.phase == Idle(Select)
    ensures Run(events + [Ping(true)]) == Run(events) && Run(events + [ReceiveError]).Some?
  {
    RunMore(events, Ping(true));
    RunMore(events, ReceiveError);
  }

  /* ---------- while nothing fails ---------- */

  /** What the supervisor does by itself while nothing fails; a successful ping is left out because it changes nothing. */
  ghost predicate GoesWell(e: Event) {
    match e
    case SendLog(_) => false
    case SendPlan(_) => false
    case Disconnect => false
    case Send(fate) => fate == Delivered
    case Complete(fate) => fate == Delivered
    case Reopen(ok) => ok
    case Ping(_) => false
    case ReceiveError => false
    case GiveUp => false
    case _ => true
  }

  ghost predicate AllGoWell(events: seq<Event>) {
    forall k :: 0 <= k < |events| ==> GoesWell(events[k])
  }

  ghost function ToGo(mode: Mode): nat {
    match mode
    case Flush => 4
    case Select => 3
    case Drain => 2
  }

  ghost function Pending(s: State): nat {
    (if s.pendingLogs != [] then 2 else 0) + (if s.pendingPlan.Some? then 2 else 0)
  }

  /** How many more steps the supervisor can take at most while nothing fails and no call comes. */
  ghost function StepsLeft(s: State): nat {
    3 * |s.queue| + (if s.slot.Some? then 2 else 0) +
    match s.phase
    case Idle(mode) => ToGo(mode) + (if mode == Flush then Pending(s) else 0)
    case Collecting(_, mode) => ToGo(mode) + 2
    case SendingLogs(mode) => ToGo(mode) + 1
    case SendingPlan(mode) => ToGo(mode) + 1
    case Completing => 1
    case Reconnecting => 5 + Pending(s)
    case Stopped => 0
  }

  lemma EachStepCounts(s: State, e: Event)
    requires Slots(s) && Enabled(s, e) && GoesWell(e)
    ensures StepsLeft(Apply(s, e)) < StepsLeft(s)
  {
  }

  ghost predicate Empty(s: State) {
    s.queue == [] && s.slot.None? && s.pendingLogs == [] && s.pendingPlan.None?
  }

  ghost predicate EndsEmpty(s: State) {
    && (s.phase.Completing? || s.phase.Stopped? ==> Empty(s))
    && (s.phase.Stopped? ==> s.finished == [true] && s.h.completions == 1)
  }

  ghost predicate SameCalls(s: State, t: State) {
    t.h.accepted == s.h.accepted && t.h.plans == s.h.plans && t.done == s.done
  }

  lemma GoesOn(s: State, e: Event)
    requires Slots(s) && OneVerdict(s) && EndsEmpty(s) && Enabled(s, e) && GoesWell(e)
    ensures EndsEmpty(Apply(s, e)) && SameCalls(s, Apply(s, e))
  {
  }

  lemma {:induction false} GoingWell(events: seq<Event>, more: seq<Event>)
    requires Run(events).Some? && Run(events + more).Some? && AllGoWell(more)
    requires !Run(events).value.phase.Completing? && !Run(events).value.phase.Stopped?
    ensures var s, t := Run(events).value, Run(events + more).value;
            |more| + StepsLeft(t) <= StepsLeft(s) && EndsEmpty(t) && SameCalls(s, t)
  {
    if more == [] {
      assert events + more == events;
    } else {
      var front, last := more[..|more| - 1], more[|more| - 1];
      assert (events + more)[..|events + more| - 1] == events + front;
      GoingWell(events, front);
      Always(events + front);
      EachStepCounts(Run(events + front).value, last);
      GoesOn(Run(events + front).value, last);
    }
  }

  ghost predicate Rests(s: State) {
    forall e :: GoesWell(e) ==> !Enabled(s, e)
  }

  lemma BusyDoesNotRest(s: State)
    requires !s.phase.Idle? && !s.phase.Stopped?
    ensures !Rests(s)
  {
    if s.phase.Collecting? {
      assert Enabled(s, TakeMore) || Enabled(s, CloseBatch);
    } else {
      assert Enabled(s, Reopen(true)) || Enabled(s, Send(Delivered)) || Enabled(s, Complete(Delivered));
    }
  }

  lemma IdleDoesNotRest(s: State)
    requires Slots(s) && s.phase.Idle? && !(Empty(s) && !s.done)
    ensures !Rests(s)
  {
    match s.phase.mode {
      case Flush => assert Enabled(s, FlushLogs) || Enabled(s, FlushPlan) || Enabled(s, Flushed);
      case Select => assert Enabled(s, TakeLine) || Enabled(s, TakePlan) || Enabled(s, SeeDone);
      case Drain => assert Enabled(s, TakeLine) || Enabled(s, TakePlan) || Enabled(s, Drained);
    }
  }

  /** Where the supervisor cannot go on without a failure or a call, nothing is left to send. */
  lemma RestsEmpty(s: State)
    requires Slots(s) && EndsEmpty(s) && Rests(s)
    ensures Empty(s) && Held(s) == [] && (s.done ==> s.phase.Stopped?)
  {
    if !s.phase.Stopped? {
      if !s.phase.Idle? {
        BusyDoesNotRest(s);
      } else if !(Empty(s) && !s.done) {
        IdleDoesNotRest(s);
      }
    }
  }

  /** From any point at which completion has not begun: if nothing fails from there on, the supervisor comes to rest
      after at most three steps for each queued line and nine more, and then everything accepted has been sent; after
      Disconnect it has also sent completion and reported no error. */
  lemma EverythingArrives(events: seq<Event>, more: seq<Event>)
    requires Run(events).Some? && Run(events + more).Some? && AllGoWell(more)
    requires !Run(events).value.phase.Completing? && !Run(events).value.phase.Stopped?
    ensures |more| <= 3 * |Run(events).value.queue| + 9
    ensures var s, t := Run(events).value, Run(events + more).value;
            Rests(t) ==>
              && LinesOf(t.h.sent) == s.h.accepted && PlansOf(t.h.sent) == s.h.plans
              && (s.done ==> t.phase.Stopped? && t.finished == [true] && Completion in t.h.sent)
  {
    var s, t := Run(events).value, Run(events + more).value;
    Always(events);
    Always(events + more);
    GoingWell(events, more);
    if Rests(t) {
      RestsEmpty(t);
    }
  }

  /** What the server got, with the repeats of one attempted message folded together. */
  ghost function Collapse(seen: seq<Arrival>): seq<Message> {
    var n := |seen|;
    if n == 0 then []
    else if n > 1 && seen[n - 2].number == seen[n - 1].number then Collapse(seen[..n - 1])
    else Collapse(seen[..n - 1]) + [seen[n - 1].message]
  }

  /** Arrivals whose numbers start at 0 and never jump, taken from one list of messages. */
  ghost predicate Chained(seen: seq<Arrival>, messages: seq<Message>) {
    && (forall k :: 0 <= k < |seen| ==> seen[k].number < |messages| && seen[k].message == messages[seen[k].number])
    && (forall k :: 0 <= k < |seen| - 1 ==> seen[k].number <= seen[k + 1].number <= seen[k].number + 1)
    && (seen != [] ==> seen[0].number == 0)
  }

  lemma ChainedFront(seen: seq<Arrival>, messages: seq<Message>)
    requires Chained(seen, messages) && seen != []
    ensures var n, last := |seen|, seen[|seen| - 1];
            && Chained(seen[..n - 1], messages) && last.number < |messages| && last.message == messages[last.number]
            && (n == 1 ==> last.number == 0)
            && (n > 1 ==> seen[n - 2].number <= last.number <= seen[n - 2].number + 1)
  {
    var n := |seen|;
    if n > 1 {
      assert seen[n - 2].number <= seen[n - 2 + 1].number <= seen[n - 2].number + 1;
    }
  }

  lemma OneMore(messages: seq<Message>, k: nat)
    requires k < |messages|
    ensures messages[..k + 1] == messages[..k] + [messages[k]]
  {
  }

  lemma CollapseNext(seen: seq<Arrival>)
    requires seen != []
    ensures var n, front := |seen|, Collapse(seen[..|seen| - 1]);
            Collapse(seen) ==
            if n > 1 && seen[n - 2].number == seen[n - 1].number then front else front + [seen[n - 1].message]
  {
  }

  lemma {:induction false} CollapseChain(seen: seq<Arrival>, messages: seq<Message>)
    requires Chained(seen, messages)
    ensures Collapse(seen) == if seen == [] then [] else messages[..seen[|seen| - 1].number + 1]
  {
    if seen != [] {
      var n := |seen|;
      ChainedFront(seen, messages);
      CollapseChain(seen[..n - 1], messages);
      CollapseNext(seen);
      OneMore(messages, seen[n - 1].number);
      assert n > 1 ==> seen[..n - 1][n - 2] == seen[n - 2];
    }
  }

  lemma SeenIsSent(s: State)
    requires ServerInStep(s)
    ensures Collapse(s.h.seen) == s.h.sent
            || (InFlight(s).Some? && Collapse(s.h.seen) == s.h.sent + [InFlight(s).value])
  {
    var messages := s.h.sent + (if InFlight(s).Some? then [InFlight(s).value] else []);
    assert Chained(s.h.seen, messages);
    CollapseChain(s.h.seen, messages);
    assert messages[..|messages|] == messages && messages[..|s.h.sent|] == s.h.sent;
  }

  lemma RepeatsAgree(s: State)
    requires ServerInStep(s)
    ensures forall k :: 0 <= k < |s.h.seen| - 1 && s.h.seen[k].number == s.h.seen[k + 1].number ==>
              s.h.seen[k].message == s.h.seen[k + 1].message
  {
  }

  lemma Begins<T>(a: seq<T>, b: seq<T>, c: seq<T>, d: seq<T>)
    ensures a <= a + b + c + d && a + b <= a + b + c + d
  {
  }

  lemma InFlightLines(s: State)
    requires InFlight(s).Some?
    ensures LinesOf(s.h.sent + [InFlight(s).value]) == LinesOf(s.h.sent) + s.pendingLogs
  {
    LinesGrow(s.h.sent, InFlight(s).value);
  }

  lemma LinesAreAccepted(s: State)
    requires Conserved(s)
    requires Collapse(s.h.seen) == s.h.sent
             || (InFlight(s).Some? && Collapse(s.h.seen) == s.h.sent + [InFlight(s).value])
    ensures LinesOf(s.h.sent) <= LinesOf(Collapse(s.h.seen)) <= s.h.accepted
  {
    Begins(LinesOf(s.h.sent), s.pendingLogs, Held(s), s.queue);
    if Collapse(s.h.seen) != s.h.sent {
      InFlightLines(s);
    }
  }

  /** The server's view of every run: up to immediate repeats of the same message it has exactly the sent
      messages, in order, possibly followed by the one in flight. Its log lines are therefore a prefix of the
      accepted ones. */
  lemma ServerSeesPrefix(events: seq<Event>)
    requires Run(events).Some?
    ensures var seen := Run(events).value.h.seen;
            forall k :: 0 <= k < |seen| - 1 && seen[k].number == seen[k + 1].number ==> seen[k].message == seen[k + 1].message
    ensures var s := Run(events).value;
            && (Collapse(s.h.seen) == s.h.sent
                || (InFlight(s).Some? && Collapse(s.h.seen) == s.h.sent + [InFlight(s).value]))
            && LinesOf(s.h.sent) <= LinesOf(Collapse(s.h.seen)) <= s.h.accepted
  {
    Always(events);
    var s := Run(events).value;
    SeenIsSent(s);
    RepeatsAgree(s);
    LinesAreAccepted(s);
  }

  /** In every run ExecutionComplete is attempted at most once and only after Disconnect, with everything
      accepted before Disconnect already sent; once delivered it is the last message. A stopped supervisor
      has given exactly one verdict, and completion was delivered if and only if it was attempted and the
      verdict is free of errors. */
  lemma CompletionComesLast(events: seq<Event>)
    requires Run(events).Some?
    ensures var s := Run(events).value;
            && s.h.completions <= 1
            && |s.finished| == (if s.phase.Stopped? then 1 else 0)
            && s.h.linesBefore <= |s.h.accepted| && s.h.plansBefore <= |s.h.plans|
            && (s.h.completions == 1 ==>
                  && s.done && s.phase.Stopped?
                  && s.h.accepted[..s.h.linesBefore] <= LinesOf(s.h.sent)
                  && s.h.plans[..s.h.plansBefore] <= PlansOf(s.h.sent))
            && (Completion in s.h.sent <==> s.h.completions == 1 && s.finished == [true])
            && (forall k :: 0 <= k < |s.h.sent| && s.h.sent[k] == Completion ==> k == |s.h.sent| - 1)
  {
    Always(events);
    var s := Run(events).value;
    assert LinesOf(s.h.sent) <= s.h.accepted;
    assert PlansOf(s.h.sent) <= s.h.plans;
  }

  lemma StepGivesUp(s: State, e: Event)
    requires OneVerdict(s) && Enabled(s, e)
    ensures var t := Apply(s, e);
            t.phase.Stopped? && t.h.completions == 0 <==> e == GiveUp || (s.phase.Stopped? && s.h.completions == 0)
  {
  }

  lemma {:induction false} GaveUp(events: seq<Event>)
    requires Run(events).Some?
    ensures GiveUp in events <==> Run(events).value.phase.Stopped? && Run(events).value.h.completions == 0
  {
    if events != [] {
      var front, e := events[..|events| - 1], events[|events| - 1];
      GaveUp(front);
      Always(front);
      StepGivesUp(Run(front).value, e);
      assert events == front + [e];
    }
  }

  /** What a verdict without error stands for: completion was delivered exactly if the supervisor did not give
      up reconnecting, and then everything accepted before Disconnect was sent before it. */
  lemma VerdictOfDelivery(events: seq<Event>)
    requires Run(events).Some? && Run(events).value.finished == [true]
    ensures var s := Run(events).value;
            && (Completion in s.h.sent <==> GiveUp !in events)
            && (GiveUp !in events ==>
                  && s.h.linesBefore <= |s.h.accepted| && s.h.accepted[..s.h.linesBefore] <= LinesOf(s.h.sent)
                  && s.h.plansBefore <= |s.h.plans| && s.h.plans[..s.h.plansBefore] <= PlansOf(s.h.sent))
  {
    Always(events);
    GaveUp(events);
    CompletionComesLast(events);
  }

  /** A run that ends by giving up. */
  const GIVING_UP := [Flushed, SendLog("line"), ReceiveError, Disconnect, GiveUp]

  /** The state after the first `k` of these events. */
  ghost function GivingUp(k: nat): State
    requires k <= 5
  {
    var one := History(1, 0, ["line"], [], [], [], 0, 0, 0);
    match k
    case 0 => INITIAL
    case 1 => INITIAL.(phase := Idle(Select))
    case 2 => State(["line"], None, [], None, Idle(Select), false, [], one)
    case 3 => State(["line"], None, [], None, Reconnecting, false, [], one)
    case 4 => State(["line"], None, [], None, Reconnecting, true, [], one.(linesBefore := 1))
    case 5 => State(["line"], None, [], None, Stopped, true, [true], one.(linesBefore := 1))
  }

  lemma GivingUpStep(k: nat)
    requires k < 5
    ensures Enabled(GivingUp(k), GIVING_UP[k]) && Apply(GivingUp(k), GIVING_UP[k]) == GivingUp(k + 1)
  {
    assert [] + ["line"] == ["line"] && [] + [true] == [true];
  }

  lemma {:induction false} GivingUpRun(k: nat)
    requires k <= 5
    ensures Run(GIVING_UP[..k]) == Some(GivingUp(k))
  {
    if k > 0 {
      GivingUpRun(k - 1);
      GivingUpStep(k - 1);
      assert GIVING_UP[..k][..k - 1] == GIVING_UP[..k - 1];
    }
  }

  /** A supervisor that gives up reports no error although a line accepted before Disconnect was never sent. */
  lemma GivingUpReportsNoError()
    ensures Run(GIVING_UP).Some?
    ensures var s := Run(GIVING_UP).value;
            s.finished == [true] && s.h.linesBefore == 1 && s.h.sent == [] && s.h.seen == []
  {
    GivingUpRun(5);
    assert GIVING_UP[..5] == GIVING_UP;
  }
}
