/** A freed block stays freed in every run, faulty ones included. */
module ProtocolLifetimes {
  import opened RequestHeap
  import opened Protocol
  import opened ProtocolTheorems

  /** The operations of the heap bring nothing back. */
  lemma OpsKeepFreed(x: Addr)
    ensures forall h, a, b :: Get(h, x).Freed? ==> Get(Malloc(h, a, b), x).Freed?
    ensures forall h, a :: Get(h, x).Freed? ==> Get(Free(h, a), x).Freed?
    ensures forall h, p :: Get(h, x).Freed? ==> Get(FreePtr(h, p), x).Freed?
    ensures forall h, a, b :: Get(h, x).Freed? ==> Get(Store(h, a, b), x).Freed?
  {
  }

  lemma TaskKeepsFreed(s: State, r: nat, net: Net, x: Addr)
    requires r in s.tasks && Get(s.heap, x).Freed?
    ensures Get(TaskStep(s, r, net).heap, x).Freed?
  {
    OpsKeepFreed(x);
    var t := s.tasks[r];
    match t.pc
    case Opening => assert Get(Open(s, r, t, net).heap, x).Freed?;
    case Releasing(content) => assert Get(Release(s, r, t, content, net).heap, x).Freed?;
    case Building(slot) => assert Get(Build(s, r, t, slot).heap, x).Freed?;
    case Copying(slot) => assert Get(Copy(s, r, t, slot).heap, x).Freed?;
    case Posting(slot) => assert Get(Post(s, r, t, slot).heap, x).Freed?;
    case Dropping(slot) => assert Get(Drop(s, r, t, slot).heap, x).Freed?;
    case Done =>
  }

  lemma ConsumerKeepsFreed(s: State, x: Addr)
    requires Get(s.heap, x).Freed?
    ensures Get(ConsumeStep(s).heap, x).Freed?
  {
    OpsKeepFreed(x);
    match s.consumer
    case Idle =>
    case Got(rec) => assert Get(Call(s, rec).heap, x).Freed?;
    case Emitting(rec, target) => assert Get(Return(s, rec, target).heap, x).Freed?;
    case Emitted(rec) => assert Get(CleanUp(s, rec).heap, x).Freed?;
    case Called(_) =>
  }

  lemma StepKeepsFreed(s: State, a: Action, x: Addr)
    requires Get(s.heap, x).Freed?
    ensures Get(Step(s, a).heap, x).Freed?
  {
    OpsKeepFreed(x);
    match a
    case Spawn(r, options) => assert Get(SpawnStep(s, r, options).heap, x).Freed?;
    case Advance(r, net) => if r in s.tasks { TaskKeepsFreed(s, r, net, x); }
    case Interrupt(n, handler, args) => assert Get(InterruptStep(s, n, handler, args).heap, x).Freed?;
    case Signal(n) => assert Get(SignalStep(s, n).heap, x).Freed?;
    case Consume => ConsumerKeepsFreed(s, x);
    case _ =>
  }

  lemma {:induction false} RunKeepsFreed(s: State, actions: seq<Action>, x: Addr)
    requires Get(s.heap, x).Freed?
    ensures Get(RunFrom(s, actions).heap, x).Freed?
    decreases |actions|
  {
    if actions != [] {
      StepKeepsFreed(s, actions[0], x);
      RunKeepsFreed(Step(s, actions[0]), actions[1..], x);
    }
  }

  /** A freed block stays freed whatever happens next, so no block is freed twice in any run without
      a fault, and no allocation returns it again. */
  lemma FreedForGood(actions: seq<Action>, more: seq<Action>, a: Addr)
    requires Get(Run(actions).heap, a) == Freed
    ensures Get(Run(actions + more).heap, a) == Freed
  {
    RunAppend(INIT, actions, more);
    RunKeepsFreed(Run(actions), more, a);
  }
}
