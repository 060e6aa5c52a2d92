/** What the participants of the callback protocol asked for, read off the actions of a run, and what
    became of it. */
module ProtocolHistory {
  import opened Wrappers
  import opened RequestHeap
  import opened Protocol
  import opened ProtocolInvariant
  import opened ProtocolTheorems

  // ---- what an interrupt hands over ----------------------------------------------------------

  /** A callback and, unless it is NULL, the data that go with it. */
  datatype HandOver = HandOver(handler: Handler, args: Option<seq<bv8>>)

  /** What interrupt `n` has handed over, if it has happened; the two callbacks of a request are the
      request task's own. */
  function InterruptOf(actions: seq<Action>, n: nat): Option<HandOver>
    decreases |actions|
  {
    if actions == [] then None
    else
      var q := InterruptOf(actions[..|actions| - 1], n);
      match actions[|actions| - 1]
      case Interrupt(i, handler, args) =>
        if i == n && q.None? && handler != EmitEvent && handler != CloseRequest
        then Some(HandOver(handler, args)) else q
      case _ => q
  }

  predicate Holds(s: State, n: nat, q: Option<HandOver>) {
    && (n in s.isrs <==> q.Some?)
    && (n in s.isrs ==> s.isrs[n].handler == q.value.handler && s.isrs[n].args == q.value.args)
  }

  lemma HoldsStep(s: State, actions: seq<Action>, a: Action, n: nat)
    requires !s.heap.fault && Holds(s, n, InterruptOf(actions, n))
    ensures Holds(Step(s, a), n, InterruptOf(actions + [a], n))
  {
    assert (actions + [a])[..|actions|] == actions;
    match a
    case Advance(r, net) => if r in s.tasks { TaskShape(s, r, net); }
    case Consume => ConsumerShape(s);
    case _ =>
  }

  /** A run without a fault had none before its last step. */
  lemma FaultFreeBefore(actions: seq<Action>, a: Action)
    requires !Run(actions + [a]).heap.fault
    ensures !Run(actions).heap.fault && Run(actions + [a]) == Step(Run(actions), a)
  {
    RunLast(actions, a);
  }

  lemma {:induction false} RunHolds(actions: seq<Action>, n: nat)
    requires !Run(actions).heap.fault
    ensures Holds(Run(actions), n, InterruptOf(actions, n))
    decreases |actions|
  {
    if actions != [] {
      var before, a := actions[..|actions| - 1], actions[|actions| - 1];
      assert actions == before + [a];
      FaultFreeBefore(before, a);
      RunHolds(before, n);
      HoldsStep(Run(before), before, a, n);
    }
  }

  /** Every send carries what its sender handed over.  An interrupt's carries the callback and the very
      bytes it was raised with, or nothing in particular if it passed NULL.  A task's carries one of
      the two callbacks of a request with the event block or the request's own block. */
  lemma SentAsHandedOver(actions: seq<Action>, i: nat)
    requires !Run(actions).heap.fault && i < |Run(actions).sent|
    ensures var s, d := Run(actions), Run(actions).sent[i];
      if d.m.FromIsr? then
        var q := InterruptOf(actions, d.m.n);
        && q.Some? && d.handler == q.value.handler
        && d.payload == if q.value.args.Some? then Raw(q.value.args.value) else Uninitialised
      else if d.m.slot.Last? then
        d.handler == CloseRequest && d.payload == ReqInfo(d.m.r, ConfigAt(d.m.r), EmitEvent, CloseRequest)
      else
        && d.m.r in s.tasks && d.handler == EmitEvent
        && var outcome := s.tasks[d.m.r].outcome;
           d.payload == CbInfo(d.m.r, NameAt(d.m.r, d.m.slot),
             if d.m.slot.First? && outcome.Full? then Some(outcome.value) else None)
  {
    var s := Run(actions);
    Reachable(actions);
    var m := s.sent[i].m;
    assert SentOk(s, i) && TicketOk(s, m) && Posted(s, m);
    if m.FromIsr? { RunHolds(actions, m.n); }
  }

  /** So what an interrupt hands over is what is called for it, if it is called. */
  lemma CalledAsHandedOver(actions: seq<Action>, i: nat, n: nat)
    requires var s := Run(actions); !s.heap.fault && i < |s.dispatched| && s.dispatched[i].m == FromIsr(n)
    ensures var d, q := Run(actions).dispatched[i], InterruptOf(actions, n);
      && q.Some? && d.handler == q.value.handler
      && (q.value.args.Some? ==> d.payload == Raw(q.value.args.value))
  {
    DeliveredInOrderExactlyOnce(actions);
    assert Run(actions).sent[i] == Run(actions).dispatched[i];
    SentAsHandedOver(actions, i);
  }

  // ---- what the script destroys ----------------------------------------------------------------

  /** The script has called `destroy` on request `r`, after making it. */
  predicate DestroyCalled(actions: seq<Action>, r: nat) {
    exists k :: 0 <= k < |actions| && actions[k] == Destroy(r) && RequestOf(actions[..k], r).Some?
  }

  lemma DestroyCalledLast(actions: seq<Action>, a: Action, r: nat)
    ensures DestroyCalled(actions + [a], r) <==>
      DestroyCalled(actions, r) || (a == Destroy(r) && RequestOf(actions, r).Some?)
  {
    var all := actions + [a];
    assert forall k :: 0 <= k <= |actions| ==> all[..k] == actions[..k];
    assert actions[..|actions|] == actions;
    if DestroyCalled(actions, r) {
      var k :| 0 <= k < |actions| && actions[k] == Destroy(r) && RequestOf(actions[..k], r).Some?;
      assert all[k] == Destroy(r);
    }
    assert all[|actions|] == a;
  }

  lemma CallLogs(s: State, rec: Addr, r: nat)
    ensures Destroyed(r) in Call(s, rec).log <==> Destroyed(r) in s.log
  {
    match Load(s.heap, rec)
    case Some(Record(handler, args)) =>
      if rec.RecordAt? && Load(s.heap, args).Some? {
        var d := Delivery(rec.m, handler, Load(s.heap, args).value);
        assert Destroyed(r) in CallEmit(s, rec, d).log <==> Destroyed(r) in s.log;
        assert Destroyed(r) in CallClose(s, rec, args, d).log <==> Destroyed(r) in s.log;
      }
    case _ =>
  }

  lemma StepLogs(s: State, a: Action, r: nat)
    requires !s.heap.fault
    ensures Destroyed(r) in Step(s, a).log <==> Destroyed(r) in s.log || (a == Destroy(r) && r in s.tasks)
  {
    match a
    case Advance(i, net) => if i in s.tasks { assert TaskStep(s, i, net).log == s.log; }
    case Consume => if s.consumer.Got? { CallLogs(s, s.consumer.rec, r); }
    case _ =>
  }

  /** In every run an emitter has been destroyed exactly if the script has called its `destroy`. */
  lemma {:induction false} DestroyedAsAsked(actions: seq<Action>, r: nat)
    requires !Run(actions).heap.fault
    ensures Destroyed(r) in Run(actions).log <==> DestroyCalled(actions, r)
    decreases |actions|
  {
    if actions != [] {
      var before, a := actions[..|actions| - 1], actions[|actions| - 1];
      assert actions == before + [a];
      FaultFreeBefore(before, a);
      DestroyedAsAsked(before, r);
      RunTracks(before);
      assert Tracks(Run(before), before, r);
      StepLogs(Run(before), a, r);
      DestroyCalledLast(before, a, r);
    }
  }

  // ---- what a request holds ---------------------------------------------------------------------

  /** The task is between the making of its first event and the release of that event's block. */
  predicate AtFirstEvent(pc: Pc) {
    pc == Building(First) || pc == Copying(First) || pc == Posting(First) || pc == Dropping(First)
  }

  /** What a request holds at any time: its own block until its task ends; its strings until the outcome
      is known; its config until it is closed; the read buffer, if the reply has been read, until the
      first event is sent; and an event block while that event is sent. */
  lemma HeldByRequest(actions: seq<Action>, r: nat)
    requires !Run(actions).heap.fault && r in Run(actions).tasks
    ensures var s := Run(actions);
      var pc, made, outcome := s.tasks[r].pc, s.tasks[r].made, s.tasks[r].outcome;
      && (IsLive(s, RpAt(r)) <==> !pc.Done?)
      && Load(s.heap, UrlAt(r)) ==
           (if made.url.Some? && outcome.Undecided? then Some(Text(made.url.value)) else None)
      && Load(s.heap, DataAt(r)) ==
           (if made.data.Some? && outcome.Undecided? then Some(Text(made.data.value)) else None)
      && (IsLive(s, ConfigAt(r)) <==> Close(r) !in s.log)
      && (IsLive(s, BufferAt(r)) <==> (outcome.Short? || outcome.Full?) && AtFirstEvent(pc))
      && (forall slot :: IsLive(s, InfoAt(r, slot)) <==>
            slot != Last && (pc == Copying(slot) || pc == Posting(slot) || pc == Dropping(slot)))
  {
    var s := Run(actions);
    Reachable(actions);
    CellOf(s, r, RpAt(r));
    CellOf(s, r, UrlAt(r));
    CellOf(s, r, DataAt(r));
    CellOf(s, r, BufferAt(r));
    assert TaskOk(s.tasks[r]);
    ConfigUntilClosed(s, r);
    var pc := s.tasks[r].pc;
    forall slot
      ensures IsLive(s, InfoAt(r, slot)) <==>
        slot != Last && (pc == Copying(slot) || pc == Posting(slot) || pc == Dropping(slot))
    {
      CellOf(s, r, InfoAt(r, slot));
    }
  }

  lemma ConfigUntilClosed(s: State, r: nat)
    requires Inv(s) && r in s.tasks
    ensures IsLive(s, ConfigAt(r)) <==> Close(r) !in s.log
  {
    CellOf(s, r, ConfigAt(r));
    CloseIsTheEnd(s.log, r);
    assert LogAt(s, r) && TicketOk(s, FromTask(r, Last));
    var story := Story(OutcomeOf(s, r));
    assert story[2] == End && story[..3] == story;
    assert End !in story[..2] && story[..1] <= story[..2] && story[..0] <= story[..2];
    var t := TicketOf(s, FromTask(r, Last));
    if t.Sent? { assert SentOk(s, t.i); }
  }
}
