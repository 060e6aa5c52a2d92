/** What the callback protocol guarantees, over every interleaving of any number of request tasks,
    interrupt senders and the one consumer. */
module ProtocolTheorems {
  import opened Wrappers
  import opened RequestHeap
  import opened Protocol
  import opened ProtocolInvariant

  // ---- runs ---------------------------------------------------------------------------------

  lemma RunAppend(s: State, a: seq<Action>, b: seq<Action>)
    ensures RunFrom(s, a + b) == RunFrom(RunFrom(s, a), b)
    decreases |a|
  {
    if a == [] {
      assert a + b == b;
    } else {
      assert (a + b)[1..] == a[1..] + b;
      RunAppend(Step(s, a[0]), a[1..], b);
    }
  }

  lemma RunLast(actions: seq<Action>, a: Action)
    ensures Run(actions + [a]) == Step(Run(actions), a)
  {
    RunAppend(INIT, actions, [a]);
    assert [a][1..] == [];
    assert RunFrom(Step(Run(actions), a), []) == Step(Run(actions), a);
  }

  lemma FaultStays(s: State, actions: seq<Action>)
    requires s.heap.fault
    ensures RunFrom(s, actions) == s
    decreases |actions|
  {
    if actions != [] { FaultStays(s, actions[1..]); }
  }

  // ---- who changes what -----------------------------------------------------------------------

  /** Only task `r` differs, not in what it was made with and, once decided, not in its outcome;
      nobody is added; at most one record is queued. */
  predicate OnlyTask(s: State, s': State, r: nat)
    requires r in s.tasks
  {
    && r in s'.tasks && s'.tasks == s.tasks[r := s'.tasks[r]]
    && s'.tasks[r].made == s.tasks[r].made
    && (At(s, r) >= 2 ==> At(s', r) >= 2 && s'.tasks[r].outcome == s.tasks[r].outcome)
    && s'.link == s.link && s'.isrs == s.isrs && s'.consumer == s.consumer && s'.emitters == s.emitters
    && |s'.queue| <= |s.queue| + 1
  }

  lemma OpenShape(s: State, r: nat, net: Net)
    requires r in s.tasks && (s.tasks[r].pc.Opening? || s.tasks[r].pc.Releasing?)
    ensures OnlyTask(s, TaskStep(s, r, net), r)
  {
    assert s.tasks == s.tasks[r := s.tasks[r]];
  }

  lemma BuildShape(s: State, r: nat, net: Net)
    requires r in s.tasks && s.tasks[r].pc.Building?
    ensures OnlyTask(s, TaskStep(s, r, net), r)
  {
    assert s.tasks == s.tasks[r := s.tasks[r]];
  }

  lemma CopyShape(s: State, r: nat, net: Net)
    requires r in s.tasks && s.tasks[r].pc.Copying?
    ensures OnlyTask(s, TaskStep(s, r, net), r)
  {
    assert s.tasks == s.tasks[r := s.tasks[r]];
  }

  lemma PostShape(s: State, r: nat, net: Net)
    requires r in s.tasks && s.tasks[r].pc.Posting?
    ensures OnlyTask(s, TaskStep(s, r, net), r)
  {
    assert s.tasks == s.tasks[r := s.tasks[r]];
  }

  lemma DropShape(s: State, r: nat, net: Net)
    requires r in s.tasks && s.tasks[r].pc.Dropping?
    ensures OnlyTask(s, TaskStep(s, r, net), r)
  {
  }

  lemma TaskShape(s: State, r: nat, net: Net)
    requires r in s.tasks
    ensures OnlyTask(s, TaskStep(s, r, net), r)
  {
    match s.tasks[r].pc
    case Building(_) => BuildShape(s, r, net);
    case Copying(_) => CopyShape(s, r, net);
    case Posting(_) => PostShape(s, r, net);
    case Dropping(_) => DropShape(s, r, net);
    case Done => assert s.tasks == s.tasks[r := s.tasks[r]];
    case _ => OpenShape(s, r, net);
  }

  predicate SameParticipants(s: State, s': State) {
    s'.tasks == s.tasks && s'.link == s.link && s'.isrs == s.isrs
  }

  lemma ConsumerShape(s: State)
    ensures SameParticipants(s, ConsumeStep(s))
  {
    match s.consumer
    case Idle => assert SameParticipants(s, Receive(s));
    case Got(rec) => CallShape(s, rec);
    case Emitting(rec, target) => assert SameParticipants(s, Return(s, rec, target));
    case Emitted(rec) => assert SameParticipants(s, CleanUp(s, rec));
    case Called(_) =>
  }

  lemma CallShape(s: State, rec: Addr)
    ensures SameParticipants(s, Call(s, rec))
  {
    match Load(s.heap, rec)
    case Some(Record(handler, args)) =>
      if rec.RecordAt? && Load(s.heap, args).Some? {
        var d := Delivery(rec.m, handler, Load(s.heap, args).value);
        assert SameParticipants(s, CallEmit(s, rec, d));
        assert SameParticipants(s, CallClose(s, rec, args, d));
      }
    case _ =>
  }

  lemma LinkKept(s: State, a: Action)
    ensures !a.Boot? || !s.link.Unset? ==> Step(s, a).link == s.link
  {
    match a
    case Advance(r, net) => if r in s.tasks { TaskShape(s, r, net); }
    case Consume => ConsumerShape(s);
    case _ =>
  }

  /** A task is changed by its own steps only. */
  lemma TaskKept(s: State, a: Action, r: nat)
    requires !s.heap.fault && !(a.Advance? && a.r == r)
    requires r in s.tasks || !(a.Spawn? && a.r == r)
    ensures r in Step(s, a).tasks <==> r in s.tasks
    ensures r in s.tasks ==> Step(s, a).tasks[r] == s.tasks[r]
  {
    match a
    case Advance(i, net) => if i in s.tasks { TaskShape(s, i, net); }
    case Consume => ConsumerShape(s);
    case _ =>
  }

  // ---- what the actions alone tell --------------------------------------------------------------

  /** Whether the first start-up could create the queue. */
  function FirstBoot(actions: seq<Action>): Option<bool>
    decreases |actions|
  {
    if actions == [] then None
    else
      var before, a := FirstBoot(actions[..|actions| - 1]), actions[|actions| - 1];
      if before.None? && a.Boot? then Some(a.created) else before
  }

  function LinkAfter(boot: Option<bool>): Link {
    match boot
    case None => Unset
    case Some(created) => if created then Online else Broken
  }

  /** A request as it was made, and the network's answers to the steps of its task. */
  datatype Request = Request(made: Options, answers: seq<Net>)

  /** The request numbered `r`, if it has been made. */
  function RequestOf(actions: seq<Action>, r: nat): Option<Request>
    decreases |actions|
  {
    if actions == [] then None
    else
      var before := actions[..|actions| - 1];
      var q := RequestOf(before, r);
      match actions[|actions| - 1]
      case Spawn(i, options) =>
        if i == r && q.None? && FirstBoot(before).Some? then Some(Request(options, [])) else q
      case Advance(i, net) =>
        if i == r && q.Some? then Some(q.value.(answers := q.value.answers + [net])) else q
      case _ => q
  }

  /** With a client but no data the first step of the request's task faults; without a client the
      second does, or the making of the request if it has headers to set. */
  predicate Fails(actions: seq<Action>, r: nat) {
    match RequestOf(actions, r)
    case None => false
    case Some(Request(made, answers)) =>
      if made.client then made.data.None? && |answers| >= 1 else made.headers || |answers| >= 2
  }

  /** Step `k` receives from a queue that could not be created. */
  predicate NullReceive(actions: seq<Action>, k: nat)
    requires k < |actions|
  {
    actions[k].Consume? && FirstBoot(actions[..k]) == Some(false)
  }

  /** Before step `k` the script has destroyed the emitter whose listeners are being called, and the step
      goes on to the next listener. */
  predicate FreedRead(actions: seq<Action>, k: nat)
    requires k < |actions|
  {
    var s := Run(actions[..k]);
    actions[k].Consume? && !s.heap.fault && ListenerGone(s)
  }

  predicate BadConsume(actions: seq<Action>, k: nat)
    requires k < |actions|
  {
    NullReceive(actions, k) || FreedRead(actions, k)
  }

  ghost predicate Faulty(actions: seq<Action>) {
    || (exists r :: Fails(actions, r))
    || (exists k :: 0 <= k < |actions| && BadConsume(actions, k))
  }

  /** The reply's length, as far as opening the connection found one. */
  function LengthIn(answer: Net): int {
    if answer.connected then answer.length else 0
  }

  /** The state holds request `r` as the actions tell it. */
  predicate Tracks(s: State, actions: seq<Action>, r: nat) {
    match RequestOf(actions, r)
    case None => r !in s.tasks
    case Some(q) =>
      && r in s.tasks && s.tasks[r].made == q.made
      && var t := s.tasks[r];
         if |q.answers| == 0 then t.pc.Opening?
         else if |q.answers| == 1 then t.pc == Releasing(if t.made.client then LengthIn(q.answers[0]) else 0)
         else Rank(t.pc) >= 2 && t.outcome == Decide(q.answers[1], LengthIn(q.answers[0]))
  }

  /** What a task's step does to the request it works for. */
  predicate Moved(t: Task, t': Task, net: Net) {
    match t.pc
    case Opening => t'.pc == Releasing(if t.made.client then LengthIn(net) else 0)
    case Releasing(content) => t'.pc == Building(First) && t'.outcome == Decide(net, content)
    case _ => Rank(t'.pc) >= 2 && t'.outcome == t.outcome
  }

  lemma OpenStep(s: State, r: nat, net: Net)
    requires HeapOk(s) && r in s.tasks && s.tasks[r].pc.Opening? && !Crashes(s, Advance(r, net))
    ensures r in TaskStep(s, r, net).tasks && Moved(s.tasks[r], TaskStep(s, r, net).tasks[r], net)
  {
    CellOf(s, r, RpAt(r));
    CellOf(s, r, ConfigAt(r));
    CellOf(s, r, DataAt(r));
  }

  lemma OwnStep(s: State, r: nat, net: Net)
    requires Inv(s) && r in s.tasks && !Crashes(s, Advance(r, net))
    ensures r in TaskStep(s, r, net).tasks && Moved(s.tasks[r], TaskStep(s, r, net).tasks[r], net)
  {
    match s.tasks[r].pc
    case Opening => OpenStep(s, r, net);
    case Releasing(_) => ReleaseEffect(s, r, net);
    case _ => TaskShape(s, r, net);
  }

  lemma ActionsLast(actions: seq<Action>, a: Action, r: nat)
    ensures FirstBoot(actions + [a]) ==
      if FirstBoot(actions).None? && a.Boot? then Some(a.created) else FirstBoot(actions)
    ensures RequestOf(actions + [a], r) ==
      var q := RequestOf(actions, r);
      match a
      case Spawn(i, options) =>
        if i == r && q.None? && FirstBoot(actions).Some? then Some(Request(options, [])) else q
      case Advance(i, net) =>
        if i == r && q.Some? then Some(q.value.(answers := q.value.answers + [net])) else q
      case _ => q
  {
    assert (actions + [a])[..|actions|] == actions;
  }

  lemma BadConsumeLast(actions: seq<Action>, a: Action, k: nat)
    requires k <= |actions|
    ensures BadConsume(actions + [a], k) <==>
      if k < |actions| then BadConsume(actions, k)
      else
        var s := Run(actions);
        a.Consume? && (FirstBoot(actions) == Some(false) || (!s.heap.fault && ListenerGone(s)))
  {
    assert (actions + [a])[..k] == actions[..k];
    assert k == |actions| ==> actions[..k] == actions;
  }

  lemma FaultyStays(actions: seq<Action>, a: Action)
    requires Faulty(actions)
    ensures Faulty(actions + [a])
  {
    if r :| Fails(actions, r) {
      ActionsLast(actions, a, r);
      assert Fails(actions + [a], r);
    } else {
      var k :| 0 <= k < |actions| && BadConsume(actions, k);
      BadConsumeLast(actions, a, k);
    }
  }

  /** The state is as the actions tell it. */
  ghost predicate AllTracked(s: State, actions: seq<Action>) {
    && Inv(s) && s.link == LinkAfter(FirstBoot(actions))
    && forall r :: Tracks(s, actions, r)
  }

  lemma TrackStep(s: State, actions: seq<Action>, a: Action, r: nat)
    requires Inv(s) && Tracks(s, actions, r) && s.link == LinkAfter(FirstBoot(actions))
    requires !Crashes(s, a) && !Fails(actions, r)
    ensures Tracks(Step(s, a), actions + [a], r) && !Fails(actions + [a], r)
  {
    ActionsLast(actions, a, r);
    if a.Advance? && a.r == r {
      if r in s.tasks { TaskShape(s, r, a.net); OwnStep(s, r, a.net); }
    } else if !(a.Spawn? && a.r == r) || r in s.tasks {
      TaskKept(s, a, r);
    }
  }

  /** Without a queue nothing is ever received. */
  lemma BrokenIsIdle(s: State)
    requires TasksOk(s) && QueueOk(s) && ConsumerOk(s) && s.link.Broken?
    ensures s.consumer.Idle?
  {
  }

  /** The step faults exactly when it makes the actions faulty. */
  lemma CrashIsFaulty(actions: seq<Action>, a: Action)
    requires AllTracked(Run(actions), actions) && Crashes(Run(actions), a)
    ensures Faulty(actions + [a])
  {
    var s := Run(actions);
    match a
    case Consume => BadConsumeLast(actions, a, |actions|);
    case Spawn(r, _) =>
      ActionsLast(actions, a, r);
      assert Tracks(s, actions, r) && Fails(actions + [a], r);
    case Advance(r, _) =>
      ActionsLast(actions, a, r);
      assert Tracks(s, actions, r) && Fails(actions + [a], r);
  }

  lemma FaultyIsCrash(actions: seq<Action>, a: Action)
    requires AllTracked(Run(actions), actions) && !Faulty(actions) && !Crashes(Run(actions), a)
    ensures !Faulty(actions + [a])
  {
    var s := Run(actions);
    forall r ensures !Fails(actions + [a], r) { assert Tracks(s, actions, r); TrackStep(s, actions, a, r); }
    if s.link.Broken? { BrokenIsIdle(s); }
    forall k: nat | k <= |actions| ensures !BadConsume(actions + [a], k) { BadConsumeLast(actions, a, k); }
  }

  lemma LinkStep(s: State, actions: seq<Action>, a: Action)
    requires !s.heap.fault && s.link == LinkAfter(FirstBoot(actions))
    ensures Step(s, a).link == LinkAfter(FirstBoot(actions + [a]))
  {
    ActionsLast(actions, a, 0);
    LinkKept(s, a);
  }

  /** Every run either has a fault that its actions tell, or is as they tell it. */
  lemma {:induction false} RunTracks(actions: seq<Action>)
    ensures if Faulty(actions) then Run(actions).heap.fault else AllTracked(Run(actions), actions)
    decreases |actions|
  {
    if actions == [] { InitInv(); return; }
    var before, a := actions[..|actions| - 1], actions[|actions| - 1];
    assert actions == before + [a];
    RunLast(before, a);
    RunTracks(before);
    var s := Run(before);
    if Faulty(before) {
      FaultyStays(before, a);
    } else {
      StepInv(s, a);
      if Crashes(s, a) {
        CrashIsFaulty(before, a);
      } else {
        FaultyIsCrash(before, a);
        LinkStep(s, before, a);
        forall r ensures Tracks(Run(actions), actions, r) { assert Tracks(s, before, r); TrackStep(s, before, a, r); }
      }
    }
  }

  /** Every state a fault-free run reaches satisfies the invariant. */
  lemma Reachable(actions: seq<Action>)
    requires !Run(actions).heap.fault
    ensures Inv(Run(actions))
  {
    RunTracks(actions);
  }

  /** Memory safety: no block is freed twice, used after it is freed, or read as the wrong structure, in
      any run, with these exceptions only.  A run faults exactly when the task of a request with a
      client but no data takes its first step, or that of a request without a client its second, or a
      request without a client has headers; when something is received although the first start-up
      could not create the queue; or when an emit goes on to the next listener after the script has
      destroyed the emitter. */
  lemma FaultsExactly(actions: seq<Action>)
    ensures Run(actions).heap.fault <==>
      || (exists r :: Fails(actions, r))
      || (exists k :: 0 <= k < |actions| && BadConsume(actions, k))
  {
    RunTracks(actions);
  }

  // ---- runs that cannot fault ---------------------------------------------------------------

  lemma {:induction false} RequestMade(actions: seq<Action>, r: nat)
    requires RequestOf(actions, r).Some?
    ensures exists a :: a in actions && a.Spawn? && a.options == RequestOf(actions, r).value.made
    decreases |actions|
  {
    var before, a := actions[..|actions| - 1], actions[|actions| - 1];
    assert actions == before + [a];
    ActionsLast(before, a, r);
    if RequestOf(before, r).Some? { RequestMade(before, r); }
  }

  lemma {:induction false} FirstBootStays(actions: seq<Action>, k: nat)
    requires k <= |actions| && FirstBoot(actions[..k]).Some?
    ensures FirstBoot(actions) == FirstBoot(actions[..k])
    decreases |actions|
  {
    if k == |actions| {
      assert actions[..k] == actions;
    } else {
      assert actions[..|actions| - 1][..k] == actions[..k];
      FirstBootStays(actions[..|actions| - 1], k);
    }
  }

  /** The listeners of an event of request `r` are being called. */
  predicate Emits(s: State, r: nat) {
    s.consumer.Emitting? && s.consumer.target == r
  }

  /** Only a `destroy` from inside an emit leaves the emit with a freed listener. */
  lemma ListenerStays(s: State, a: Action)
    requires !s.heap.fault && !ListenerGone(s) && !(a.Destroy? && Emits(s, a.r))
    ensures !ListenerGone(Step(s, a))
  {
    match a
    case Advance(r, net) => if r in s.tasks { TaskShape(s, r, net); }
    case Consume =>
      match s.consumer {
        case Got(rec) => CallListens(s, rec);
        case _ =>
      }
    case _ =>
  }

  lemma CallListens(s: State, rec: Addr)
    requires s.consumer.Got?
    ensures !ListenerGone(Call(s, rec))
  {
    match Load(s.heap, rec)
    case Some(Record(handler, args)) =>
      if rec.RecordAt? && Load(s.heap, args).Some? {
        var d := Delivery(rec.m, handler, Load(s.heap, args).value);
        assert !ListenerGone(CallEmit(s, rec, d));
        assert !ListenerGone(CallClose(s, rec, args, d));
      }
    case _ =>
  }

  /** No `destroy` comes from inside an emit on the same emitter. */
  ghost predicate DestroysOutsideEmits(actions: seq<Action>) {
    forall k, r :: 0 <= k < |actions| && actions[k] == Destroy(r) ==> !Emits(Run(actions[..k]), r)
  }

  lemma {:induction false} NoListenerGone(actions: seq<Action>, k: nat)
    requires k <= |actions| && DestroysOutsideEmits(actions)
    ensures Run(actions[..k]).heap.fault || !ListenerGone(Run(actions[..k]))
    decreases k
  {
    if k > 0 {
      NoListenerGone(actions, k - 1);
      assert actions[..k] == actions[..k - 1] + [actions[k - 1]];
      RunLast(actions[..k - 1], actions[k - 1]);
      if !Run(actions[..k - 1]).heap.fault { ListenerStays(Run(actions[..k - 1]), actions[k - 1]); }
    }
  }

  /** So no interleaving faults when the queue could be created, every request has a client and carries
      data, and no listener destroys the emitter that is calling it. */
  lemma FitRunsNeverFault(actions: seq<Action>)
    requires FirstBoot(actions) != Some(false)
    requires forall a :: a in actions && a.Spawn? ==> a.options.client && a.options.data.Some?
    requires DestroysOutsideEmits(actions)
    ensures !Run(actions).heap.fault
  {
    RunTracks(actions);
    forall r ensures !Fails(actions, r) {
      if RequestOf(actions, r).Some? { RequestMade(actions, r); }
    }
    forall k | 0 <= k < |actions| ensures !BadConsume(actions, k) {
      if FirstBoot(actions[..k]).Some? { FirstBootStays(actions, k); }
      NoListenerGone(actions, k);
    }
  }

  // ---- the exceptions are real --------------------------------------------------------------

  /** A single request and up to two steps of its task, as the actions tell it. */
  lemma SingleRequest(options: Options, a: Action, r: nat)
    requires a.Advance? && a.r == 0
    ensures var made, q := [Boot(true), Spawn(0, options)], Request(options, []);
      && RequestOf(made, r) == (if r == 0 then Some(q) else None)
      && RequestOf(made + [a], r) == (if r == 0 then Some(q.(answers := [a.net])) else None)
      && RequestOf(made + [a] + [a], r) == (if r == 0 then Some(q.(answers := [a.net, a.net])) else None)
  {
    var boot, spawn := Boot(true), Spawn(0, options);
    var first, made := [boot], [boot, spawn];
    assert [] + [boot] == first && first + [spawn] == made;
    ActionsLast([], boot, r);
    ActionsLast(first, spawn, r);
    ActionsLast(made, a, r);
    ActionsLast(made + [a], a, r);
    assert [] + [a.net] == [a.net] && [a.net] + [a.net] == [a.net, a.net];
  }

  lemma MissingDataFaults(options: Options, net: Net)
    requires options.client && options.data.None?
    ensures Run([Boot(true), Spawn(0, options), Advance(0, net)]).heap.fault
  {
    var actions := [Boot(true), Spawn(0, options)] + [Advance(0, net)];
    assert actions == [Boot(true), Spawn(0, options), Advance(0, net)];
    SingleRequest(options, Advance(0, net), 0);
    assert Fails(actions, 0);
    RunTracks(actions);
  }

  /** The task's first step goes well. */
  lemma MissingClientFaults(options: Options, net: Net)
    requires !options.client && !options.headers
    ensures !Run([Boot(true), Spawn(0, options), Advance(0, net)]).heap.fault
    ensures Run([Boot(true), Spawn(0, options), Advance(0, net), Advance(0, net)]).heap.fault
  {
    var made, a := [Boot(true), Spawn(0, options)], Advance(0, net);
    assert made + [a] == [Boot(true), Spawn(0, options), a];
    assert made + [a] + [a] == [Boot(true), Spawn(0, options), a, a];
    forall r ensures !Fails(made + [a], r) { SingleRequest(options, a, r); }
    assert !Faulty(made + [a]) by { assert forall k :: 0 <= k < 3 ==> !(made + [a])[k].Consume?; }
    RunTracks(made + [a]);
    SingleRequest(options, a, 0);
    assert Fails(made + [a] + [a], 0);
    RunTracks(made + [a] + [a]);
  }

  lemma HeadersWithoutClientFault(options: Options)
    requires !options.client && options.headers
    ensures Run([Boot(true), Spawn(0, options)]).heap.fault
  {
    var made := [Boot(true), Spawn(0, options)];
    SingleRequest(options, Advance(0, Net(false, 0, 0, 0, 0)), 0);
    assert Fails(made, 0);
    RunTracks(made);
  }

  lemma BootsFirst(created: bool, more: seq<Action>)
    ensures FirstBoot([Boot(created)] + more) == Some(created)
  {
    var all: seq<Action> := [Boot(created)] + more;
    assert all[..1] == [] + [Boot(created)];
    ActionsLast([], Boot(created), 0);
    FirstBootStays(all, 1);
  }

  lemma NullReceiveFaults(before: seq<Action>)
    requires FirstBoot(before) == Some(false)
    ensures Run(before + [Consume]).heap.fault
  {
    BadConsumeLast(before, Consume, |before|);
    RunTracks(before + [Consume]);
  }

  /** Without a queue whatever has happened so far ends with the first receive. */
  lemma MissingQueueFaults(more: seq<Action>)
    ensures Run([Boot(false)] + more + [Consume]).heap.fault
  {
    BootsFirst(false, more);
    NullReceiveFaults([Boot(false)] + more);
  }

  /** Listeners are called if the request has one for the event and the script has left them alone. */
  lemma EmitBegins(s: State, r: nat, slot: Slot)
    requires Inv(s) && s.consumer == Got(RecordAt(FromTask(r, slot))) && slot != Last
    ensures r in s.tasks
    ensures var told :=
        if slot.Second? then "complete" else if s.tasks[r].outcome.Full? then "success" else "fail";
      ConsumeStep(s).consumer ==
        if told in s.tasks[r].made.heard && Destroyed(r) !in s.log
        then Emitting(s.consumer.rec, r) else Emitted(s.consumer.rec)
  {
    RecordInHand(s);
    NameInHand(s, r, slot);
    assert LogAt(s, r) && OrderAt(s, r);
    CallProgress(s, r, slot);
  }

  lemma DestroyThenConsume(s: State, r: nat)
    requires Inv(s) && r in s.tasks && (s.consumer.Emitting? ==> s.consumer.target == r) && s.link.Online?
    ensures !Step(s, Destroy(r)).heap.fault
    ensures Step(Step(s, Destroy(r)), Consume).heap.fault <==> s.consumer.Emitting?
  {
    var s' := DestroyStep(s, r);
    DestroyInv(s, r);
    StepInv(s', Consume);
  }

  /** When an event of request `r` is called and the script then destroys the emitter, the emit reads a
      freed listener exactly if there was a listener to call: the request was made with one for this
      event, and the script had not destroyed the emitter before. */
  lemma DestroyInEmitFaults(actions: seq<Action>, r: nat, slot: Slot)
    requires var s := Run(actions);
      !s.heap.fault && s.consumer == Got(RecordAt(FromTask(r, slot))) && slot != Last
    ensures r in Run(actions).tasks && RequestOf(actions, r).Some?
    ensures var s := Run(actions);
      var told := if slot.Second? then "complete" else if s.tasks[r].outcome.Full? then "success" else "fail";
      Run(actions + [Consume] + [Destroy(r)] + [Consume]).heap.fault <==>
        told in RequestOf(actions, r).value.made.heard && Destroyed(r) !in s.log
    ensures !Run(actions + [Consume] + [Destroy(r)]).heap.fault
  {
    var s := Run(actions);
    RunTracks(actions);
    assert Tracks(s, actions, r);
    EmitBegins(s, r, slot);
    ConsumerShape(s);
    StepInv(s, Consume);
    assert s.link.Online?;
    DestroyThenConsume(ConsumeStep(s), r);
    RunLast(actions, Consume);
    RunLast(actions + [Consume], Destroy(r));
    RunLast(actions + [Consume] + [Destroy(r)], Consume);
  }

  // ---- first in, first out, exactly once -----------------------------------------------------

  /** What the consumer would be handed if it called this record now, read through the heap. */
  function ReadRecord(h: Heap, rec: Addr): Delivery {
    match Load(h, rec)
    case Some(Record(handler, args)) =>
      var payload := Load(h, args);
      Delivery(if rec.RecordAt? then rec.m else FromIsr(0), handler,
               if payload.Some? then payload.value else Uninitialised)
    case _ => Delivery(FromIsr(0), NoHandler, Uninitialised)
  }

  /** The record received but not yet called, then those on the queue. */
  function Outstanding(s: State): seq<Addr> {
    (if s.consumer.Got? then [s.consumer.rec] else []) + s.queue
  }

  function InFlight(s: State): seq<Delivery> {
    seq(|Outstanding(s)|, i requires 0 <= i < |Outstanding(s)| => ReadRecord(s.heap, Outstanding(s)[i]))
  }

  lemma OutstandingRecord(s: State, i: nat)
    requires Inv(s) && i < |Outstanding(s)|
    ensures |s.dispatched| + i < |s.sent|
    ensures ReadRecord(s.heap, Outstanding(s)[i]) == s.sent[|s.dispatched| + i]
  {
    var k := |s.dispatched| + i;
    assert |s.dispatched| == Invoked(s.taken, s.consumer);
    var m := s.sent[k].m;
    assert Outstanding(s)[i] == RecordAt(m);
    assert SentOk(s, k) && TicketOk(s, m);
    assert CellOk(s, RecordAt(m)) && CellOk(s, ArgsAt(m));
  }

  /** Whatever is called, was called in the order of the sends and with the bytes the sender held
      when it sent, although it frees its own copy right after; whatever is sent is called or still
      outstanding; nothing is sent twice; and the queue never exceeds its bound. */
  lemma DeliveredInOrderExactlyOnce(actions: seq<Action>)
    requires !Run(actions).heap.fault
    ensures var s := Run(actions);
      && s.sent == s.dispatched + InFlight(s)
      && |s.queue| <= 128
      && (forall i, j :: 0 <= i < j < |s.sent| ==> s.sent[i].m != s.sent[j].m)
  {
    var s := Run(actions);
    Reachable(actions);
    assert |s.sent| == |s.dispatched| + |Outstanding(s)|;
    forall i: nat | i < |Outstanding(s)|
      ensures InFlight(s)[i] == s.sent[|s.dispatched| + i]
    {
      OutstandingRecord(s, i);
    }
    forall i: nat, j: nat | i < j < |s.sent|
      ensures s.sent[i].m != s.sent[j].m
    {
      assert SentOk(s, i) && SentOk(s, j);
    }
  }

  /** A send of a task: it waits while the queue is full, otherwise its own block is what is sent; it
      fails only without a queue, and then record and payload are freed.  Nothing else changes. */
  lemma TaskSend(actions: seq<Action>, r: nat, slot: Slot, net: Net)
    requires var s := Run(actions); !s.heap.fault && r in s.tasks && s.tasks[r].pc == Posting(slot)
    ensures var s, s', m := Run(actions), Step(Run(actions), Advance(r, net)), FromTask(r, slot);
      var tasks := s.tasks[r := s.tasks[r].(pc := Dropping(slot))];
      if s.link.Online? && |s.queue| == 128 then s' == s
      else if s.link.Online? then
        && s' == s.(tasks := tasks, queue := s.queue + [RecordAt(m)], tickets := s.tickets[m := Sent(|s.sent|)],
                    sent := s.sent + [Delivery(m, TaskHandler(slot), PayloadOf(s, m))])
        && Load(s.heap, OwnBlock(r, slot)) == Some(PayloadOf(s, m))
      else
        && s' == s.(tasks := tasks, heap := s'.heap, tickets := s.tickets[m := Lost])
        && !s'.heap.fault
        && forall a :: Get(s'.heap, a) == if a in {RecordAt(m), ArgsAt(m)} then Freed else Get(s.heap, a)
  {
    var s := Run(actions);
    Reachable(actions);
    assert TicketOk(s, FromTask(r, slot));
    OfferIsOwn(s, r, slot);
    if !Blocked(s) { PostEffect(s, r, slot); }
  }

  lemma OfferIsOwn(s: State, r: nat, slot: Slot)
    requires HeapOk(s) && QueueOk(s) && r in s.tasks && s.tasks[r].pc == Posting(slot) && TaskOk(s.tasks[r])
    requires TicketOf(s, FromTask(r, slot)).NoTicket?
    ensures !Blocked(s) && s.link.Online? ==>
      TaskOffer(s, r, slot) == Delivery(FromTask(r, slot), TaskHandler(slot), PayloadOf(s, FromTask(r, slot)))
    ensures Load(s.heap, OwnBlock(r, slot)) == Some(PayloadOf(s, FromTask(r, slot)))
  {
    if !Blocked(s) { PostEffect(s, r, slot); }
    CellOf(s, r, OwnBlock(r, slot));
  }

  /** A send from an interrupt never waits: without room both its blocks are freed at once and
      nothing else changes. */
  lemma InterruptSend(actions: seq<Action>, n: nat)
    requires var s := Run(actions); !s.heap.fault && n in s.isrs && !s.isrs[n].posted
    ensures var s, s', m := Run(actions), Step(Run(actions), Signal(n)), FromIsr(n);
      var isrs := s.isrs[n := s.isrs[n].(posted := true)];
      if s.link.Online? && |s.queue| < 128 then
        s' == s.(isrs := isrs, queue := s.queue + [RecordAt(m)], tickets := s.tickets[m := Sent(|s.sent|)],
                 sent := s.sent + [Delivery(m, s.isrs[n].handler,
                   if s.isrs[n].args.Some? then Raw(s.isrs[n].args.value) else Uninitialised)])
      else
        && s' == s.(isrs := isrs, heap := s'.heap, tickets := s.tickets[m := Lost])
        && !s'.heap.fault
        && forall a :: Get(s'.heap, a) == if a in {RecordAt(m), ArgsAt(m)} then Freed else Get(s.heap, a)
  {
    var s := Run(actions);
    Reachable(actions);
    assert TicketOk(s, FromIsr(n));
    SignalEffect(s, n);
  }

  /** The first start-up decides, for the whole run, whether sends can succeed. */
  lemma FirstBootDecides(actions: seq<Action>)
    requires !Run(actions).heap.fault
    ensures Run(actions).link.Online? <==> FirstBoot(actions) == Some(true)
    ensures Run(actions).link.Broken? <==> FirstBoot(actions) == Some(false)
  {
    RunTracks(actions);
  }

  // ---- what JavaScript sees -----------------------------------------------------------------

  /** The request's task has exited, its last callback has been called, and that call's record freed. */
  predicate Closed(s: State, r: nat) {
    && r in s.tasks && s.tasks[r].pc.Done? && Close(r) in s.log
    && Get(s.heap, RecordAt(FromTask(r, Last))) == Freed
  }

  lemma {:induction false} CloseIsTheEnd(log: seq<Entry>, r: nat)
    ensures Close(r) in log <==> End in Project(log, r)
  {
    if log != [] {
      CloseIsTheEnd(log[..|log| - 1], r);
      assert log == log[..|log| - 1] + [log[|log| - 1]];
    }
  }

  lemma ClosedIsOver(s: State, r: nat)
    requires Inv(s)
    ensures Closed(s, r) <==> r in s.tasks && s.tasks[r].pc.Done? && FateOf(s, FromTask(r, Last)).Over?
  {
    CloseIsTheEnd(s.log, r);
    assert LogAt(s, r) && TicketOk(s, FromTask(r, Last));
    var story := Story(OutcomeOf(s, r));
    assert story[2] == End && story[..3] == story;
    assert End !in story[..2] && story[..1] <= story[..2] && story[..0] <= story[..2];
    if r in s.tasks { CellOf(s, r, RecordAt(FromTask(r, Last))); }
  }

  /** In every run each request tells a prefix of its story: one of success and fail, then complete,
      then the end; and the whole story once it is closed.  An event finds the emitter alive exactly
      if the script has not destroyed it before. */
  lemma EveryRequestTellsItsStory(actions: seq<Action>, r: nat)
    requires !Run(actions).heap.fault
    ensures var s := Run(actions);
      && Project(s.log, r) <= Story(OutcomeOf(s, r))
      && (Closed(s, r) ==> Project(s.log, r) == Story(OutcomeOf(s, r)))
      && (r in s.emitters <==> r in s.tasks && End !in Project(s.log, r) && Destroyed(r) !in s.log)
      && (forall i :: 0 <= i < |s.log| && s.log[i].Emit? && s.log[i].target == r ==>
            (s.log[i].alive <==> Destroyed(r) !in s.log[..i]))
  {
    var s := Run(actions);
    Reachable(actions);
    ClosedIsOver(s, r);
    assert LogAt(s, r);
    var story := Story(OutcomeOf(s, r));
    assert story[2] == End && story[..3] == story;
    assert End !in story[..2] && story[..1] <= story[..2] && story[..0] <= story[..2];
    forall i: nat | i < |s.log| && s.log[i].Emit? && s.log[i].target == r
      ensures s.log[i].alive <==> Destroyed(r) !in s.log[..i]
    {
      assert AliveAt(s.log, i);
    }
  }

  /** In every run a request's outcome is decided by the network's answers to the first two steps of
      its task, opening and reading, whatever else happens between them: it succeeds exactly when a
      200 reply of known length was read completely.  Without a connection the length is 0. */
  lemma OutcomeFromReplies(actions: seq<Action>, r: nat)
    requires !Run(actions).heap.fault && RequestOf(actions, r).Some?
    ensures var s, answers := Run(actions), RequestOf(actions, r).value.answers;
      && r in s.tasks
      && var outcome := s.tasks[r].outcome;
         if |answers| < 2 then outcome.Undecided?
         else
           var length := if answers[0].connected then answers[0].length else 0;
           && (outcome.Full? <==> answers[1].status == 200 && 0 <= length <= answers[1].read)
           && (outcome.Full? ==> outcome.value == answers[1].body)
           && (outcome.Refused? <==> answers[1].status != 200)
           && !outcome.Undecided?
  {
    RunTracks(actions);
    assert Tracks(Run(actions), actions, r) && !Fails(actions, r);
    assert TaskOk(Run(actions).tasks[r]);
  }

  // ---- ownership ----------------------------------------------------------------------------

  predicate IsLive(s: State, a: Addr) {
    Get(s.heap, a).Live?
  }

  /** With a working queue nothing of a request outlives its close and its task's exit. */
  lemma ClosedRequestOwnsNothing(actions: seq<Action>, r: nat, a: Addr)
    requires !Run(actions).heap.fault && Closed(Run(actions), r) && Owner(a) == Some(r)
    ensures !IsLive(Run(actions), a)
  {
    var s := Run(actions);
    Reachable(actions);
    ClosedIsOver(s, r);
    assert TicketOk(s, FromTask(r, First)) && TicketOk(s, FromTask(r, Second)) && TicketOk(s, FromTask(r, Last));
    assert OrderAt(s, r);
    CellOf(s, r, a);
  }

  /** Without a queue every send fails, and a finished task leaves exactly its config and the two
      event names behind. */
  lemma BrokenQueueLeaks(actions: seq<Action>, r: nat, a: Addr)
    requires var s := Run(actions); !s.heap.fault && s.link.Broken? && r in s.tasks && s.tasks[r].pc.Done?
    requires Owner(a) == Some(r)
    ensures IsLive(Run(actions), a) <==> a in {ConfigAt(r), NameAt(r, First), NameAt(r, Second)}
  {
    var s := Run(actions);
    Reachable(actions);
    assert TicketOk(s, FromTask(r, First)) && TicketOk(s, FromTask(r, Second)) && TicketOk(s, FromTask(r, Last));
    CellOf(s, r, a);
  }

  /** Nothing is left to do. */
  predicate Quiescent(s: State) {
    && s.consumer.Idle? && s.queue == []
    && (forall r :: r in s.tasks ==> s.tasks[r].pc.Done?)
    && (forall n :: n in s.isrs ==> s.isrs[n].posted)
  }

  /** The blocks that survive a run that has come to rest: without a queue the config and the two event
      names of every request, and the payloads that were delivered to a callback that does not free
      them, NULL among these. */
  lemma ConservationAtRest(actions: seq<Action>, a: Addr)
    requires !Run(actions).heap.fault && Quiescent(Run(actions))
    ensures var s := Run(actions);
      IsLive(s, a) <==>
        match a
        case ConfigAt(r) => r in s.tasks && s.link.Broken?
        case NameAt(r, slot) => r in s.tasks && s.link.Broken? && slot != Last
        case ArgsAt(FromIsr(n)) =>
          && n in s.isrs && (exists d :: d in s.sent && d.m == FromIsr(n))
          && (s.isrs[n].handler == NoHandler || s.isrs[n].handler == Foreign(false))
        case _ => false
  {
    Reachable(actions);
    match Owner(a)
    case Some(r) => TaskAtRest(Run(actions), r, a);
    case None => IsrAtRest(Run(actions), a);
  }

  lemma TaskAtRest(s: State, r: nat, a: Addr)
    requires Inv(s) && Quiescent(s) && Owner(a) == Some(r)
    ensures IsLive(s, a) <==>
      r in s.tasks && s.link.Broken? && a in {ConfigAt(r), NameAt(r, First), NameAt(r, Second)}
  {
    assert TicketOk(s, FromTask(r, First)) && TicketOk(s, FromTask(r, Second)) && TicketOk(s, FromTask(r, Last));
    if r in s.tasks { CellOf(s, r, a); } else { assert CellOk(s, a); }
  }

  lemma IsrAtRest(s: State, a: Addr)
    requires Inv(s) && Quiescent(s) && Owner(a).None?
    ensures IsLive(s, a) <==>
      && a.ArgsAt? && a.m.n in s.isrs && (exists d :: d in s.sent && d.m == a.m)
      && (s.isrs[a.m.n].handler == NoHandler || s.isrs[a.m.n].handler == Foreign(false))
  {
    assert CellOk(s, a) && TicketOk(s, a.m);
    SentHasTicket(s, a.m);
  }

  /** A message is among those sent exactly if it has a place there. */
  lemma SentHasTicket(s: State, m: Msg)
    requires TicketsOk(s)
    ensures TicketOf(s, m).Sent? <==> exists d :: d in s.sent && d.m == m
  {
    assert TicketOk(s, m);
    if TicketOf(s, m).Sent? { assert s.sent[TicketOf(s, m).i] in s.sent; }
    forall i | 0 <= i < |s.sent| && s.sent[i].m == m ensures TicketOf(s, m).Sent? { assert SentOk(s, i); }
  }
}
