/** The bounded queue cannot lock the protocol up: whatever has happened, every schedule of the
    participants' steps comes to an end, and at its end everything is delivered, closed and freed. */
module ProtocolProgress {
  import opened Wrappers
  import opened RequestHeap
  import opened Protocol
  import opened ProtocolInvariant
  import opened ProtocolTheorems

  // ---- what is left to do -------------------------------------------------------------------

  /** The steps the tasks have yet to take. */
  ghost function StepsLeft(s: State): set<(nat, nat)> {
    set r, k | r in s.tasks && 0 <= k < 14 && At(s, r) <= k :: (r, k)
  }

  /** The interrupts that have yet to send. */
  ghost function SignalsLeft(s: State): set<nat> {
    set n | n in s.isrs && !s.isrs[n].posted
  }

  /** The steps the consumer has yet to take with the record it holds. */
  function InHand(c: Consumer): nat {
    match c
    case Idle => 0
    case Called(_) => 1
    case Emitted(_) => 2
    case Emitting(_, _) => 3
    case Got(_) => 4
  }

  /** A bound on the steps left: a record costs the consumer five, and whoever sends it one more. */
  ghost function Left(s: State): nat {
    6 * |StepsLeft(s)| + 6 * |SignalsLeft(s)| + 5 * |s.queue| + InHand(s.consumer)
  }

  lemma ProperSubsetIsSmaller<T>(a: set<T>, b: set<T>)
    requires a < b
    ensures |a| < |b|
  {
    var x :| x in b && x !in a;
    var rest := b - {x};
    assert a <= rest;
    SubsetIsNotLarger(a, rest);
  }

  lemma SubsetIsNotLarger<T>(a: set<T>, b: set<T>)
    requires a <= b
    ensures |a| <= |b|
  {
    assert b == a + (b - a);
  }

  /** Actions that start something, and `destroy`, which is the script's own business. */
  predicate Begins(a: Action) {
    a.Boot? || a.Spawn? || a.Interrupt? || a.Destroy?
  }

  // ---- every step uses something up ---------------------------------------------------------

  lemma EarlyMove(s: State, r: nat, net: Net)
    requires HeapOk(s) && r in s.tasks && TaskOk(s.tasks[r]) && !Crashes(s, Advance(r, net))
    requires At(s, r) < 2
    ensures At(TaskStep(s, r, net), r) > At(s, r)
  {
    if s.tasks[r].pc.Opening? { OpenStep(s, r, net); } else { ReleaseEffect(s, r, net); }
  }

  lemma SendMove(s: State, r: nat, net: Net)
    requires HeapOk(s) && r in s.tasks && TaskOk(s.tasks[r])
    requires s.tasks[r].pc.Building? || s.tasks[r].pc.Copying?
    ensures At(TaskStep(s, r, net), r) > At(s, r)
  {
    CellOf(s, r, RpAt(r));
    if s.tasks[r].pc.Copying? { CellOf(s, r, OwnBlock(r, s.tasks[r].pc.slot)); }
  }

  /** A task that has room moves on. */
  lemma TaskMoves(s: State, r: nat, net: Net)
    requires HeapOk(s) && r in s.tasks && TaskOk(s.tasks[r]) && !Crashes(s, Advance(r, net))
    requires !s.tasks[r].pc.Done? && (s.tasks[r].pc.Posting? ==> !Blocked(s))
    ensures At(TaskStep(s, r, net), r) > At(s, r)
  {
    match s.tasks[r].pc
    case Posting(_) =>
    case Dropping(_) =>
    case Building(_) => SendMove(s, r, net);
    case Copying(_) => SendMove(s, r, net);
    case _ => EarlyMove(s, r, net);
  }

  lemma TaskUsesUp(s: State, r: nat, net: Net)
    requires Inv(s) && r in s.tasks && !Crashes(s, Advance(r, net))
    ensures TaskStep(s, r, net) == s || Left(TaskStep(s, r, net)) < Left(s)
  {
    var s' := TaskStep(s, r, net);
    if s.tasks[r].pc.Done? || (s.tasks[r].pc.Posting? && Blocked(s)) { return; }
    TaskMoves(s, r, net);
    TaskShape(s, r, net);
    assert (r, At(s, r)) in StepsLeft(s) && (r, At(s, r)) !in StepsLeft(s');
    ProperSubsetIsSmaller(StepsLeft(s'), StepsLeft(s));
  }

  lemma SignalUsesUp(s: State, n: nat)
    ensures SignalStep(s, n) == s || Left(SignalStep(s, n)) < Left(s)
  {
    var s' := SignalStep(s, n);
    if n in s.isrs && !s.isrs[n].posted {
      assert n in SignalsLeft(s) && n !in SignalsLeft(s');
      ProperSubsetIsSmaller(SignalsLeft(s'), SignalsLeft(s));
      assert StepsLeft(s') == StepsLeft(s);
    }
  }

  lemma ConsumerUsesUp(s: State)
    requires Inv(s) && !Crashes(s, Consume)
    ensures ConsumeStep(s) == s || Left(ConsumeStep(s)) < Left(s)
  {
    var s' := ConsumeStep(s);
    if !s.consumer.Idle? { ConsumerMoves(s); }
    ConsumerShape(s);
    assert StepsLeft(s') == StepsLeft(s) && SignalsLeft(s') == SignalsLeft(s);
  }

  lemma ConsumerMoves(s: State)
    requires Inv(s) && !s.consumer.Idle? && !Crashes(s, Consume)
    ensures if s.consumer.Emitting? then ConsumeStep(s) == s.(consumer := Emitted(s.consumer.rec))
      else Moves(s, ConsumeStep(s))
  {
    match s.consumer
    case Emitting(_, _) =>
    case Got(_) => CallEffect(s);
    case Emitted(_) => CleanUpEffect(s);
    case Called(_) => RecordInHand(s);
  }

  lemma StepUsesUp(s: State, a: Action)
    requires Inv(s) && !Begins(a) && !Crashes(s, a)
    ensures Step(s, a) == s || Left(Step(s, a)) < Left(s)
  {
    match a
    case Advance(r, net) => if r in s.tasks { TaskUsesUp(s, r, net); }
    case Signal(n) => SignalUsesUp(s, n);
    case Consume => ConsumerUsesUp(s);
  }

  // ---- until nothing is left ----------------------------------------------------------------

  /** Nothing is left to do, and there is a queue to wait at. */
  predicate AtRest(s: State) {
    Quiescent(s) && !s.link.Broken?
  }

  /** Unless everything is at rest, some participant can move, whatever the network answers. */
  lemma SomethingMoves(s: State, answer: (State, nat) -> Net) returns (a: Action)
    requires Inv(s) && !AtRest(s)
    ensures !Begins(a) && Step(s, a) != s
    ensures a.Advance? ==> a.net == answer(s, a.r)
  {
    if !s.consumer.Idle? {
      a := Consume;
      if !Crashes(s, a) { ConsumerMoves(s); }
    } else if s.queue != [] || s.link.Broken? {
      a := Consume;
    } else if n :| n in s.isrs && !s.isrs[n].posted {
      a := Signal(n);
      assert Step(s, a).isrs[n].posted;
    } else {
      var r :| r in s.tasks && !s.tasks[r].pc.Done?;
      a := Advance(r, answer(s, r));
      if Crashes(s, a) { StepInv(s, a); } else { TaskMoves(s, r, a.net); }
    }
  }

  /** At rest no participant can move. */
  lemma NothingMoves(s: State, a: Action)
    requires AtRest(s) && !Begins(a)
    ensures Step(s, a) == s
  {
  }

  lemma RestIsStandstill(s: State)
    requires Inv(s)
    ensures AtRest(s) <==> forall a :: !Begins(a) ==> Step(s, a) == s
  {
    if AtRest(s) {
      forall a | !Begins(a) ensures Step(s, a) == s { NothingMoves(s, a); }
    } else {
      var a := SomethingMoves(s, (s, r) => Net(false, 0, 0, 0, 0));
    }
  }

  /** `more` lets participants take steps that have an effect, and starts nothing. */
  ghost predicate Effective(s: State, more: seq<Action>)
    decreases |more|
  {
    more == [] || (!Begins(more[0]) && Step(s, more[0]) != s && Effective(Step(s, more[0]), more[1..]))
  }

  lemma {:induction false} ScheduleUsesUp(s: State, more: seq<Action>)
    requires Inv(s) && Effective(s, more) && !RunFrom(s, more).heap.fault
    ensures |more| + Left(RunFrom(s, more)) <= Left(s)
    decreases |more|
  {
    if more != [] {
      StepInv(s, more[0]);
      if Crashes(s, more[0]) { FaultStays(Step(s, more[0]), more[1..]); }
      StepUsesUp(s, more[0]);
      ScheduleUsesUp(Step(s, more[0]), more[1..]);
    }
  }

  /** From every reachable state, in whatever order the participants then run, only so many of their
      steps have an effect, */
  lemma EveryScheduleEnds(actions: seq<Action>, more: seq<Action>)
    requires !Run(actions + more).heap.fault && Effective(Run(actions), more)
    ensures |more| + Left(Run(actions + more)) <= Left(Run(actions))
  {
    RunAppend(INIT, actions, more);
    if Run(actions).heap.fault { FaultStays(Run(actions), more); }
    Reachable(actions);
    ScheduleUsesUp(Run(actions), more);
  }

  /** and no step has one exactly when everything is at rest: every schedule comes to rest. */
  lemma AtRestExactlyWhenNothingMoves(actions: seq<Action>)
    requires !Run(actions).heap.fault
    ensures var s := Run(actions); AtRest(s) <==> forall a :: !Begins(a) ==> Step(s, a) == s
  {
    Reachable(actions);
    RestIsStandstill(Run(actions));
  }

  /** Nothing can fault unless something new begins. */
  predicate AllFit(s: State) {
    && !s.link.Broken? && !ListenerGone(s)
    && forall r :: r in s.tasks ==> s.tasks[r].made.client && s.tasks[r].made.data.Some?
  }

  /** The network gives its answers in view of all that has happened. */
  ghost predicate Answered(s: State, more: seq<Action>, answer: (State, nat) -> Net)
    decreases |more|
  {
    more == [] ||
    ((more[0].Advance? ==> more[0].net == answer(s, more[0].r)) && Answered(Step(s, more[0]), more[1..], answer))
  }

  lemma FitStays(s: State, a: Action)
    requires AllFit(s) && !Begins(a) && !s.heap.fault
    ensures AllFit(Step(s, a)) && Step(s, a).tasks.Keys == s.tasks.Keys
  {
    ListenerStays(s, a);
    match a
    case Advance(r, net) => if r in s.tasks { TaskShape(s, r, net); }
    case Consume => ConsumerShape(s);
    case Signal(_) =>
  }

  lemma {:induction false} RunsToRest(s: State, answer: (State, nat) -> Net) returns (more: seq<Action>)
    requires Inv(s) && AllFit(s)
    ensures Inv(RunFrom(s, more)) && AtRest(RunFrom(s, more)) && RunFrom(s, more).tasks.Keys == s.tasks.Keys
    ensures Effective(s, more) && Answered(s, more, answer)
    decreases Left(s)
  {
    if AtRest(s) {
      more := [];
    } else {
      var a := SomethingMoves(s, answer);
      StepInv(s, a);
      StepUsesUp(s, a);
      FitStays(s, a);
      var rest := RunsToRest(Step(s, a), answer);
      more := [a] + rest;
      assert more[1..] == rest;
    }
  }

  /** And from every reachable state there is such a schedule, whatever the network answers. */
  lemma AlwaysComesToRest(actions: seq<Action>, answer: (State, nat) -> Net) returns (more: seq<Action>)
    requires !Run(actions).heap.fault && AllFit(Run(actions))
    ensures !Run(actions + more).heap.fault && AtRest(Run(actions + more))
    ensures Effective(Run(actions), more) && Answered(Run(actions), more, answer)
    ensures Run(actions + more).tasks.Keys == Run(actions).tasks.Keys
  {
    Reachable(actions);
    more := RunsToRest(Run(actions), answer);
    RunAppend(INIT, actions, more);
  }

  /** At rest, with a working queue, every request has told its whole story and owns nothing. */
  lemma RestIsComplete(actions: seq<Action>, r: nat)
    requires !Run(actions).heap.fault && Quiescent(Run(actions))
    requires Run(actions).link.Online? && r in Run(actions).tasks
    ensures var s := Run(actions);
      && Project(s.log, r) == Story(s.tasks[r].outcome) && !s.tasks[r].outcome.Undecided?
      && forall a :: Owner(a) == Some(r) ==> !IsLive(s, a)
  {
    var s := Run(actions);
    Reachable(actions);
    assert TicketOk(s, FromTask(r, Last));
    ClosedIsOver(s, r);
    EveryRequestTellsItsStory(actions, r);
    forall a | Owner(a) == Some(r) ensures !IsLive(s, a) { ClosedRequestOwnsNothing(actions, r, a); }
  }
}
