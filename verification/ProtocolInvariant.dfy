/** The invariant of the callback protocol.  Its core is `Expected`: the control state of the
    participants determines the whole heap, address by address, live contents included. */
module ProtocolInvariant {
  import opened Wrappers
  import opened RequestHeap
  import opened Protocol

  // ---- where a participant stands -----------------------------------------------------------

  function Base(slot: Slot): nat {
    match slot
    case First => 2
    case Second => 6
    case Last => 10
  }

  function Rank(pc: Pc): nat {
    match pc
    case Opening => 0
    case Releasing(_) => 1
    case Building(slot) => Base(slot)
    case Copying(slot) => Base(slot) + 1
    case Posting(slot) => Base(slot) + 2
    case Dropping(slot) => Base(slot) + 3
    case Done => 14
  }

  /** The rank of task `r`; 0 also stands for "no such task". */
  function At(s: State, r: nat): nat {
    if r in s.tasks then Rank(s.tasks[r].pc) else 0
  }

  function OutcomeOf(s: State, r: nat): Outcome {
    if r in s.tasks then s.tasks[r].outcome else Undecided
  }

  /** The message's record and payload copy have been allocated. */
  predicate Born(s: State, m: Msg) {
    match m
    case FromTask(r, slot) => At(s, r) > Base(slot) + 1
    case FromIsr(n) => n in s.isrs
  }

  predicate Posted(s: State, m: Msg) {
    match m
    case FromTask(r, slot) => At(s, r) > Base(slot) + 2
    case FromIsr(n) => n in s.isrs && s.isrs[n].posted
  }

  function HandlerOf(s: State, m: Msg): Handler {
    match m
    case FromTask(_, slot) => if slot.Last? then CloseRequest else EmitEvent
    case FromIsr(n) => if n in s.isrs then s.isrs[n].handler else NoHandler
  }

  function RpBlock(r: nat): Block {
    ReqInfo(r, ConfigAt(r), EmitEvent, CloseRequest)
  }

  function PayloadOf(s: State, m: Msg): Block {
    match m
    case FromTask(r, slot) =>
      if slot.Last? then RpBlock(r)
      else CbInfo(r, NameAt(r, slot), EventValue(slot, OutcomeOf(s, r)))
    case FromIsr(n) => if n in s.isrs then IsrPayload(s.isrs[n].args) else Uninitialised
  }

  /** How many received messages had their callback invoked, their payload dealt with, and their
      record freed. */
  function Invoked(taken: nat, c: Consumer): int {
    if c.Got? then taken - 1 else taken
  }

  function Released(taken: nat, c: Consumer): int {
    if c.Got? || c.Emitting? || c.Emitted? then taken - 1 else taken
  }

  function Finished(taken: nat, c: Consumer): int {
    if c.Idle? then taken else taken - 1
  }

  predicate Before(t: Ticket, n: int) {
    t.Sent? && t.i < n
  }

  predicate FreesArgs(handler: Handler) {
    match handler
    case Foreign(frees) => frees
    case NoHandler => false
    case _ => true
  }

  // ---- the heap the control state calls for --------------------------------------------------

  /** How far a message has come: not yet copied; copied; failed to send; on the queue or just
      received; its callback entered; its payload dealt with; its record freed. */
  datatype Fate = Unborn | Held | Undelivered | Waiting | Entered | Settled | Over

  function FateOf(s: State, m: Msg): Fate {
    if !Born(s, m) then Unborn
    else FateBy(TicketOf(s, m), s.taken, s.consumer)
  }

  function FateBy(ticket: Ticket, taken: nat, c: Consumer): Fate {
    match ticket
    case NoTicket => Held
    case Lost => Undelivered
    case Sent(i) =>
      if i < Finished(taken, c) then Over
      else if i < Released(taken, c) then Settled
      else if i < Invoked(taken, c) then Entered
      else Waiting
  }

  /** All that the heap of one request depends on. */
  datatype Standing =
    | Unknown
    | Standing(rank: nat, made: Options, outcome: Outcome,
               first: Fate, second: Fate, last: Fate)

  function StandingOf(s: State, r: nat): Standing {
    if r !in s.tasks then Unknown
    else
      var t := s.tasks[r];
      Standing(Rank(t.pc), t.made, t.outcome,
               FateOf(s, FromTask(r, First)), FateOf(s, FromTask(r, Second)),
               FateOf(s, FromTask(r, Last)))
  }

  function FateAt(q: Standing, slot: Slot): Fate
    requires q.Standing?
  {
    match slot
    case First => q.first
    case Second => q.second
    case Last => q.last
  }

  /** A block a task owns from rank `from` (exclusive) to rank `to` (inclusive). */
  function Window(rank: nat, from: nat, to: nat, b: Block): Cell {
    if rank <= from then Absent else if rank <= to then Live(b) else Freed
  }

  function StringCell(rank: nat, text: Option<string>): Cell {
    if text.None? then Absent else if rank <= 1 then Live(Text(text.value)) else Freed
  }

  function ConfigBlock(q: Standing, r: nat): Block
    requires q.Standing?
  {
    Config(q.made.client,
           if q.made.url.Some? && q.rank <= 1 then Some(UrlAt(r)) else None,
           if q.made.data.Some? && q.rank <= 1 then Some(DataAt(r)) else None)
  }

  function InfoBlock(q: Standing, r: nat, slot: Slot): Block
    requires q.Standing?
  {
    CbInfo(r, NameAt(r, slot), EventValue(slot, q.outcome))
  }

  function RecordCell(fate: Fate, handler: Handler, m: Msg): Cell {
    match fate
    case Unborn => Absent
    case Undelivered => Freed
    case Over => Freed
    case _ => Live(Record(handler, ArgsAt(m)))
  }

  function ArgsCell(fate: Fate, handler: Handler, b: Block): Cell {
    match fate
    case Unborn => Absent
    case Undelivered => Freed
    case Settled => if FreesArgs(handler) then Freed else Live(b)
    case Over => if FreesArgs(handler) then Freed else Live(b)
    case _ => Live(b)
  }

  function TaskHandler(slot: Slot): Handler {
    if slot.Last? then CloseRequest else EmitEvent
  }

  function TaskPayload(q: Standing, r: nat, slot: Slot): Block
    requires q.Standing?
  {
    if slot.Last? then RpBlock(r) else InfoBlock(q, r, slot)
  }

  predicate Handled(fate: Fate) {
    fate.Settled? || fate.Over?
  }

  /** The cells of one request, from its standing alone. */
  function RequestCell(q: Standing, r: nat, a: Addr): Cell
    requires q.Standing?
  {
    match a
    case RpAt(_) => if q.rank == 14 then Freed else Live(RpBlock(r))
    case ConfigAt(_) => if Handled(q.last) then Freed else Live(ConfigBlock(q, r))
    case UrlAt(_) => StringCell(q.rank, q.made.url)
    case DataAt(_) => StringCell(q.rank, q.made.data)
    case BufferAt(_) => if Buffered(q.outcome) then Window(q.rank, 1, 5, Uninitialised) else Absent
    case InfoAt(_, slot) =>
      if slot.Last? then Absent
      else Window(q.rank, Base(slot), Base(slot) + 3, InfoBlock(q, r, slot))
    case NameAt(_, slot) =>
      if slot.Last? || q.rank <= Base(slot) then Absent
      else if Handled(FateAt(q, slot)) then Freed
      else Live(Text(EventName(slot, q.outcome)))
    case RecordAt(FromTask(_, slot)) => RecordCell(FateAt(q, slot), TaskHandler(slot), FromTask(r, slot))
    case ArgsAt(FromTask(_, slot)) =>
      ArgsCell(FateAt(q, slot), TaskHandler(slot), TaskPayload(q, r, slot))
    case _ => Absent
  }

  /** The request a block belongs to, if any. */
  function Owner(a: Addr): Option<nat> {
    match a
    case RecordAt(m) => if m.FromTask? then Some(m.r) else None
    case ArgsAt(m) => if m.FromTask? then Some(m.r) else None
    case _ => Some(a.r)
  }

  function Expected(s: State, a: Addr): Cell {
    match Owner(a)
    case Some(r) =>
      var q := StandingOf(s, r);
      if q.Unknown? then Absent else RequestCell(q, r, a)
    case None =>
      var m := a.m;
      if a.RecordAt? then RecordCell(FateOf(s, m), HandlerOf(s, m), m)
      else ArgsCell(FateOf(s, m), HandlerOf(s, m), PayloadOf(s, m))
  }

  // ---- the invariant ------------------------------------------------------------------------

  predicate CellOk(s: State, a: Addr) {
    Get(s.heap, a) == Expected(s, a)
  }

  ghost predicate HeapOk(s: State) {
    && !s.heap.fault
    && forall a :: CellOk(s, a)
  }

  predicate TaskOk(t: Task) {
    && t.pc != Building(Last)
    && (t.outcome.Undecided? <==> Rank(t.pc) < 2)
  }

  ghost predicate TasksOk(s: State) {
    && (forall r :: r in s.tasks ==> TaskOk(s.tasks[r]))
    && (forall n :: n in s.isrs ==>
          !s.isrs[n].handler.EmitEvent? && !s.isrs[n].handler.CloseRequest?)
    && (s.link.Unset? ==> s.tasks == map[])
    && (!s.link.Online? ==> s.sent == [])
  }

  ghost predicate QueueOk(s: State) {
    && |s.queue| <= QUEUE_LENGTH
    && s.taken + |s.queue| == |s.sent|
    && (forall i :: 0 <= i < |s.queue| ==> s.queue[i] == RecordAt(s.sent[s.taken + i].m))
  }

  predicate OfRequest(m: Msg, r: nat) {
    m.FromTask? && m.r == r
  }

  predicate ConsumerOk(s: State)
    requires s.taken <= |s.sent|
  {
    && (!s.consumer.Idle? ==>
          && s.taken > 0
          && s.consumer.rec == RecordAt(s.sent[s.taken - 1].m)
          && (s.consumer.Emitting? || s.consumer.Emitted? ==> s.sent[s.taken - 1].handler.EmitEvent?)
          && (s.consumer.Emitting? ==> OfRequest(s.sent[s.taken - 1].m, s.consumer.target)))
    && s.dispatched == s.sent[..Invoked(s.taken, s.consumer)]
  }

  predicate SentOk(s: State, i: nat)
    requires i < |s.sent|
  {
    var m := s.sent[i].m;
    && TicketOf(s, m) == Sent(i)
    && s.sent[i] == Delivery(m, HandlerOf(s, m), PayloadOf(s, m))
  }

  predicate TicketOk(s: State, m: Msg) {
    var t := TicketOf(s, m);
    && (t.Sent? ==> t.i < |s.sent| && s.sent[t.i].m == m)
    && (Posted(s, m) <==> !t.NoTicket?)
    && (m.FromTask? && t.Lost? ==> s.link.Broken?)
  }

  ghost predicate TicketsOk(s: State) {
    && (forall i :: 0 <= i < |s.sent| ==> SentOk(s, i))
    && (forall m :: TicketOk(s, m))
  }

  /** `a`, if it was sent, was sent before `b`. */
  predicate Precedes(a: Ticket, b: Ticket) {
    a.Sent? && b.Sent? ==> a.i < b.i
  }

  predicate OrderAt(s: State, r: nat) {
    && Precedes(TicketOf(s, FromTask(r, First)), TicketOf(s, FromTask(r, Second)))
    && Precedes(TicketOf(s, FromTask(r, Second)), TicketOf(s, FromTask(r, Last)))
  }

  ghost predicate OrderOk(s: State) {
    forall r :: OrderAt(s, r)
  }

  /** What a request tells the script. */
  datatype Event = Told(name: string, value: Option<Value>) | End

  function EventOf(e: Entry, r: nat): seq<Event> {
    match e
    case Emit(target, name, value, _) => if target == r then [Told(name, value)] else []
    case Close(target) => if target == r then [End] else []
    case Destroyed(_) => []
  }

  /** The part of the log that request `r` tells. */
  function Project(log: seq<Entry>, r: nat): seq<Event> {
    if log == [] then [] else Project(log[..|log| - 1], r) + EventOf(log[|log| - 1], r)
  }

  /** What a request with this outcome tells, from beginning to end. */
  function Story(outcome: Outcome): seq<Event> {
    [Told(if outcome.Full? then "success" else "fail", if outcome.Full? then Some(outcome.value) else None),
     Told("complete", None),
     End]
  }

  /** How many of the request's three callbacks have been invoked. */
  function Progress(s: State, r: nat): nat {
    if Before(TicketOf(s, FromTask(r, Last)), Invoked(s.taken, s.consumer)) then 3
    else if Before(TicketOf(s, FromTask(r, Second)), Invoked(s.taken, s.consumer)) then 2
    else if Before(TicketOf(s, FromTask(r, First)), Invoked(s.taken, s.consumer)) then 1
    else 0
  }

  predicate LogAt(s: State, r: nat) {
    && Project(s.log, r) == Story(OutcomeOf(s, r))[..Progress(s, r)]
    && (Destroyed(r) in s.log ==> r in s.tasks)
    && (r in s.emitters <==> r in s.tasks && Progress(s, r) < 3 && Destroyed(r) !in s.log)
  }

  /** An event is emitted on a live emitter exactly if the script has not destroyed it before. */
  predicate AliveAt(log: seq<Entry>, i: nat)
    requires i < |log|
  {
    log[i].Emit? ==> (log[i].alive <==> Destroyed(log[i].target) !in log[..i])
  }

  ghost predicate AliveOk(log: seq<Entry>) {
    forall i :: 0 <= i < |log| ==> AliveAt(log, i)
  }

  ghost predicate LogOk(s: State) {
    forall r :: LogAt(s, r)
  }

  ghost predicate Inv(s: State) {
    && HeapOk(s) && TasksOk(s) && QueueOk(s) && ConsumerOk(s)
    && TicketsOk(s) && OrderOk(s) && LogOk(s) && AliveOk(s.log)
  }

  // ---- the steps that fault -----------------------------------------------------------------

  /** Opening a connection without request data reads a NULL string.  Without a client, setting headers
      and, later, asking for the status hand a NULL client to the HTTP library.  Without a queue the
      first receive hands a NULL queue to FreeRTOS.  And an emit whose listeners are freed while it
      calls them reads a freed listener. */
  predicate Crashes(s: State, a: Action) {
    match a
    case Spawn(r, options) => !s.link.Unset? && r !in s.tasks && !options.client && options.headers
    case Advance(r, _) =>
      && r in s.tasks
      && var t := s.tasks[r];
         if t.made.client then t.pc.Opening? && t.made.data.None? else t.pc.Releasing?
    case Consume => (s.link.Broken? && s.consumer.Idle?) || ListenerGone(s)
    case _ => false
  }

  predicate ListenerGone(s: State) {
    s.consumer.Emitting? && s.consumer.target !in s.emitters
  }

  // ---- every step keeps it ------------------------------------------------------------------

  lemma InitInv()
    ensures Inv(INIT)
  {
  }

  /** A step of task `r` that sends nothing. */
  ghost predicate Quiet(s: State, s': State, r: nat) {
    && r in s'.tasks
    && s' == s.(heap := s'.heap, tasks := s.tasks[r := s'.tasks[r]])
    && (forall slot :: Posted(s', FromTask(r, slot)) == Posted(s, FromTask(r, slot)))
    && (OutcomeOf(s', r) == OutcomeOf(s, r) || At(s, r) < 2)
    && TaskOk(s'.tasks[r])
  }

  lemma CellOf(s: State, r: nat, a: Addr)
    requires HeapOk(s) && r in s.tasks && Owner(a) == Some(r)
    ensures Get(s.heap, a) == RequestCell(StandingOf(s, r), r, a)
  {
    assert CellOk(s, a);
  }

  /** Neither the block's owner nor its messages have moved. */
  predicate Untouched(s: State, s': State, a: Addr) {
    && s'.taken == s.taken && s'.consumer == s.consumer
    && match Owner(a)
       case Some(q) =>
         && (q in s'.tasks <==> q in s.tasks)
         && (q in s.tasks ==> s'.tasks[q] == s.tasks[q])
         && TicketOf(s', FromTask(q, First)) == TicketOf(s, FromTask(q, First))
         && TicketOf(s', FromTask(q, Second)) == TicketOf(s, FromTask(q, Second))
         && TicketOf(s', FromTask(q, Last)) == TicketOf(s, FromTask(q, Last))
       case None =>
         && (a.m.n in s'.isrs <==> a.m.n in s.isrs)
         && (a.m.n in s.isrs ==> s'.isrs[a.m.n] == s.isrs[a.m.n])
         && TicketOf(s', a.m) == TicketOf(s, a.m)
  }

  lemma ExpectedFrame(s: State, s': State, a: Addr)
    requires Untouched(s, s', a)
    ensures Expected(s', a) == Expected(s, a)
  {
  }

  lemma QuietHeap(s: State, s': State, r: nat)
    requires HeapOk(s) && Quiet(s, s', r) && !s'.heap.fault
    requires forall a :: Owner(a) == Some(r) ==> Get(s'.heap, a) == RequestCell(StandingOf(s', r), r, a)
    requires forall a :: Owner(a) != Some(r) ==> Get(s'.heap, a) == Get(s.heap, a)
    ensures HeapOk(s')
  {
    forall a
      ensures CellOk(s', a)
    {
      assert CellOk(s, a);
    }
  }

  lemma QuietTickets(s: State, s': State, r: nat)
    requires TicketsOk(s) && r in s.tasks && Quiet(s, s', r)
    ensures TicketsOk(s')
  {
    forall m
      ensures Posted(s', m) == Posted(s, m)
      ensures Posted(s, m) ==> PayloadOf(s', m) == PayloadOf(s, m)
      ensures TicketOk(s', m)
    {
      assert TicketOk(s, m);
      if m.FromTask? && m.r == r {
        assert Posted(s', FromTask(r, m.slot)) == Posted(s, FromTask(r, m.slot));
      }
    }
    forall i: nat | i < |s.sent|
      ensures SentOk(s', i)
    {
      assert SentOk(s, i) && TicketOk(s, s.sent[i].m);
    }
  }

  lemma QuietLog(s: State, s': State, r: nat)
    requires TicketsOk(s) && LogOk(s) && r in s.tasks && Quiet(s, s', r)
    ensures LogOk(s')
  {
    forall q
      ensures LogAt(s', q)
    {
      assert LogAt(s, q);
      if q == r && At(s, r) < 2 {
        forall slot ensures TicketOf(s, FromTask(r, slot)).NoTicket? { assert TicketOk(s, FromTask(r, slot)); }
      }
    }
  }

  lemma QuietRest(s: State, s': State, r: nat)
    requires TasksOk(s) && QueueOk(s) && ConsumerOk(s) && OrderOk(s)
    requires r in s.tasks && Quiet(s, s', r)
    ensures TasksOk(s') && QueueOk(s') && ConsumerOk(s') && OrderOk(s')
  {
    forall q ensures OrderAt(s', q) { assert OrderAt(s, q); }
  }

  lemma QuietInv(s: State, s': State, r: nat)
    requires Inv(s) && r in s.tasks && Quiet(s, s', r) && HeapOk(s')
    ensures Inv(s')
  {
    QuietTickets(s, s', r);
    QuietLog(s, s', r);
    QuietRest(s, s', r);
  }

  // The steps of a task, one by one: first the change of cells that its change of standing calls
  // for, then that the step makes exactly this change.

  lemma OpenCell(q: Standing, r: nat, a: Addr)
    requires q.Standing? && q.rank == 0
    ensures RequestCell(q.(rank := 1), r, a) == RequestCell(q, r, a)
  {
  }

  lemma OpenHeap(s: State, r: nat, net: Net)
    requires HeapOk(s) && r in s.tasks && TaskOk(s.tasks[r]) && s.tasks[r].pc.Opening?
    ensures var s' := TaskStep(s, r, net);
      if s.tasks[r].made.client && s.tasks[r].made.data.None? then s'.heap.fault else Quiet(s, s', r) && HeapOk(s')
  {
    var s', q, t := TaskStep(s, r, net), StandingOf(s, r), s.tasks[r];
    CellOf(s, r, RpAt(r));
    CellOf(s, r, ConfigAt(r));
    CellOf(s, r, DataAt(r));
    if t.made.client && t.made.data.None? { return; }
    forall a | Owner(a) == Some(r)
      ensures Get(s'.heap, a) == RequestCell(StandingOf(s', r), r, a)
    {
      CellOf(s, r, a);
      OpenCell(q, r, a);
    }
    QuietHeap(s, s', r);
  }

  lemma ReleaseCell(q: Standing, r: nat, outcome: Outcome, a: Addr)
    requires q.Standing? && q.rank == 1 && q.first == q.second == q.last == Unborn
    requires Owner(a) == Some(r) && q.outcome.Undecided?
    ensures RequestCell(q.(rank := 2, outcome := outcome), r, a) ==
      if (a == UrlAt(r) && q.made.url.Some?) || (a == DataAt(r) && q.made.data.Some?) then Freed
      else if a == ConfigAt(r) then Live(Config(q.made.client, None, None))
      else if a == BufferAt(r) && Buffered(outcome) then Live(Uninitialised)
      else RequestCell(q, r, a)
  {
  }

  /** The task's step with outcome `outcome` frees the strings and may allocate the read buffer. */
  ghost predicate Releases(s: State, s': State, r: nat, outcome: Outcome)
    requires r in s.tasks
  {
    var t := s.tasks[r];
    && !s'.heap.fault
    && s' == s.(heap := s'.heap, tasks := s.tasks[r := t.(pc := Building(First), outcome := outcome)])
    && forall a :: Get(s'.heap, a) ==
         if (a == UrlAt(r) && t.made.url.Some?) || (a == DataAt(r) && t.made.data.Some?) then Freed
         else if a == ConfigAt(r) then Live(Config(true, None, None))
         else if a == BufferAt(r) && Buffered(outcome) then Live(Uninitialised)
         else Get(s.heap, a)
  }

  /** The heap operations of the step, on the blocks they find. */
  lemma ReleaseCells(h: Heap, r: nat, url: Option<Addr>, data: Option<Addr>, config: Block, buffered: bool)
    requires !h.fault && Get(h, ConfigAt(r)).Live? && Get(h, BufferAt(r)).Absent?
    requires url.Some? ==> url.value == UrlAt(r) && Get(h, UrlAt(r)).Live?
    requires data.Some? ==> data.value == DataAt(r) && Get(h, DataAt(r)).Live?
    ensures var h1 := Store(FreePtr(FreePtr(h, data), url), ConfigAt(r), config);
      var h2 := if buffered then Malloc(h1, BufferAt(r), Uninitialised) else h1;
      && !h2.fault
      && forall a :: Get(h2, a) ==
           if (a == UrlAt(r) && url.Some?) || (a == DataAt(r) && data.Some?) then Freed
           else if a == ConfigAt(r) then Live(config)
           else if a == BufferAt(r) && buffered then Live(Uninitialised)
           else Get(h, a)
  {
  }

  lemma ReleaseEffect(s: State, r: nat, net: Net)
    requires HeapOk(s) && r in s.tasks && TaskOk(s.tasks[r]) && s.tasks[r].pc.Releasing? && s.tasks[r].made.client
    ensures Releases(s, TaskStep(s, r, net), r, Decide(net, s.tasks[r].pc.content))
  {
    CellOf(s, r, RpAt(r));
    CellOf(s, r, ConfigAt(r));
    CellOf(s, r, UrlAt(r));
    CellOf(s, r, DataAt(r));
    CellOf(s, r, BufferAt(r));
    var t := s.tasks[r];
    ReleaseCells(s.heap, r, if t.made.url.Some? then Some(UrlAt(r)) else None,
                 if t.made.data.Some? then Some(DataAt(r)) else None, Config(true, None, None),
                 Buffered(Decide(net, t.pc.content)));
  }

  lemma ReleasedHeap(s: State, s': State, r: nat, outcome: Outcome)
    requires HeapOk(s) && r in s.tasks && TaskOk(s.tasks[r]) && s.tasks[r].pc.Releasing? && s.tasks[r].made.client
    requires Releases(s, s', r, outcome) && !outcome.Undecided?
    ensures Quiet(s, s', r) && HeapOk(s')
  {
    forall a | Owner(a) == Some(r)
      ensures Get(s'.heap, a) == RequestCell(StandingOf(s', r), r, a)
    {
      CellOf(s, r, a);
      ReleaseCell(StandingOf(s, r), r, outcome, a);
    }
    QuietHeap(s, s', r);
  }

  lemma ReleaseHeap(s: State, r: nat, net: Net)
    requires HeapOk(s) && r in s.tasks && TaskOk(s.tasks[r]) && s.tasks[r].pc.Releasing?
    ensures var s' := TaskStep(s, r, net);
      if !s.tasks[r].made.client then s'.heap.fault else Quiet(s, s', r) && HeapOk(s')
  {
    if s.tasks[r].made.client {
      ReleaseEffect(s, r, net);
      ReleasedHeap(s, TaskStep(s, r, net), r, Decide(net, s.tasks[r].pc.content));
    } else {
      CellOf(s, r, RpAt(r));
      CellOf(s, r, ConfigAt(r));
    }
  }

  lemma BuildCell(q: Standing, r: nat, slot: Slot, a: Addr)
    requires q.Standing? && q.rank == Base(slot) && slot != Last && FateAt(q, slot).Unborn?
    requires Owner(a) == Some(r)
    ensures RequestCell(q.(rank := q.rank + 1), r, a) ==
      if a == InfoAt(r, slot) then Live(InfoBlock(q, r, slot))
      else if a == NameAt(r, slot) then Live(Text(EventName(slot, q.outcome)))
      else RequestCell(q, r, a)
  {
  }

  ghost predicate Builds(s: State, s': State, r: nat, slot: Slot)
    requires r in s.tasks
  {
    var t := s.tasks[r];
    && !s'.heap.fault
    && s' == s.(heap := s'.heap, tasks := s.tasks[r := t.(pc := Copying(slot))])
    && forall a :: Get(s'.heap, a) ==
         if a == InfoAt(r, slot) then Live(InfoBlock(StandingOf(s, r), r, slot))
         else if a == NameAt(r, slot) then Live(Text(EventName(slot, t.outcome)))
         else Get(s.heap, a)
  }

  lemma BuildEffect(s: State, r: nat, slot: Slot)
    requires HeapOk(s) && r in s.tasks && s.tasks[r].pc == Building(slot) && slot != Last
    ensures Builds(s, Build(s, r, s.tasks[r], slot), r, slot)
  {
    CellOf(s, r, RpAt(r));
    CellOf(s, r, InfoAt(r, slot));
    CellOf(s, r, NameAt(r, slot));
  }

  lemma BuiltHeap(s: State, s': State, r: nat, slot: Slot)
    requires HeapOk(s) && r in s.tasks && TaskOk(s.tasks[r]) && s.tasks[r].pc == Building(slot)
    requires Builds(s, s', r, slot)
    ensures Quiet(s, s', r) && HeapOk(s')
  {
    forall a | Owner(a) == Some(r)
      ensures Get(s'.heap, a) == RequestCell(StandingOf(s', r), r, a)
    {
      CellOf(s, r, a);
      BuildCell(StandingOf(s, r), r, slot, a);
    }
    QuietHeap(s, s', r);
  }

  lemma BuildHeap(s: State, r: nat, net: Net)
    requires HeapOk(s) && r in s.tasks && TaskOk(s.tasks[r]) && s.tasks[r].pc.Building?
    ensures Quiet(s, TaskStep(s, r, net), r) && HeapOk(TaskStep(s, r, net))
  {
    var slot := s.tasks[r].pc.slot;
    BuildEffect(s, r, slot);
    BuiltHeap(s, TaskStep(s, r, net), r, slot);
  }

  function SetFate(q: Standing, slot: Slot, fate: Fate): (q': Standing)
    requires q.Standing?
    ensures q'.Standing? && FateAt(q', slot) == fate
  {
    match slot
    case First => q.(first := fate)
    case Second => q.(second := fate)
    case Last => q.(last := fate)
  }

  lemma CopyCell(q: Standing, r: nat, slot: Slot, a: Addr)
    requires q.Standing? && q.rank == Base(slot) + 1 && FateAt(q, slot).Unborn?
    requires Owner(a) == Some(r)
    ensures RequestCell(SetFate(q.(rank := q.rank + 1), slot, Held), r, a) ==
      if a == RecordAt(FromTask(r, slot)) then Live(Record(TaskHandler(slot), ArgsAt(FromTask(r, slot))))
      else if a == ArgsAt(FromTask(r, slot)) then Live(TaskPayload(q, r, slot))
      else RequestCell(q, r, a)
  {
  }

  ghost predicate Copies(s: State, s': State, r: nat, slot: Slot)
    requires r in s.tasks
  {
    var t, m := s.tasks[r], FromTask(r, slot);
    && !s'.heap.fault
    && s' == s.(heap := s'.heap, tasks := s.tasks[r := t.(pc := Posting(slot))])
    && forall a :: Get(s'.heap, a) ==
         if a == RecordAt(m) then Live(Record(TaskHandler(slot), ArgsAt(m)))
         else if a == ArgsAt(m) then Live(TaskPayload(StandingOf(s, r), r, slot))
         else Get(s.heap, a)
  }

  lemma CopyEffect(s: State, r: nat, slot: Slot)
    requires HeapOk(s) && r in s.tasks && s.tasks[r].pc == Copying(slot)
    ensures Copies(s, Copy(s, r, s.tasks[r], slot), r, slot)
  {
    CellOf(s, r, RpAt(r));
    CellOf(s, r, OwnBlock(r, slot));
    CellOf(s, r, RecordAt(FromTask(r, slot)));
    CellOf(s, r, ArgsAt(FromTask(r, slot)));
  }

  lemma CopiedHeap(s: State, s': State, r: nat, slot: Slot)
    requires HeapOk(s) && r in s.tasks && TaskOk(s.tasks[r]) && s.tasks[r].pc == Copying(slot)
    requires TicketOf(s, FromTask(r, slot)).NoTicket? && Copies(s, s', r, slot)
    ensures Quiet(s, s', r) && HeapOk(s')
  {
    var q := StandingOf(s, r);
    assert StandingOf(s', r) == SetFate(q.(rank := q.rank + 1), slot, Held);
    forall a | Owner(a) == Some(r)
      ensures Get(s'.heap, a) == RequestCell(StandingOf(s', r), r, a)
    {
      CellOf(s, r, a);
      CopyCell(q, r, slot, a);
    }
    QuietHeap(s, s', r);
  }

  lemma CopyHeap(s: State, r: nat, net: Net)
    requires HeapOk(s) && r in s.tasks && TaskOk(s.tasks[r]) && s.tasks[r].pc.Copying?
    requires TicketOf(s, FromTask(r, s.tasks[r].pc.slot)).NoTicket?
    ensures Quiet(s, TaskStep(s, r, net), r) && HeapOk(TaskStep(s, r, net))
  {
    var slot := s.tasks[r].pc.slot;
    CopyEffect(s, r, slot);
    CopiedHeap(s, TaskStep(s, r, net), r, slot);
  }

  function RankAfterDrop(slot: Slot): nat {
    match slot
    case First => 6
    case Second => 11
    case Last => 14
  }

  lemma DropCell(q: Standing, r: nat, slot: Slot, a: Addr)
    requires q.Standing? && q.rank == Base(slot) + 3
    requires Owner(a) == Some(r)
    ensures RequestCell(q.(rank := RankAfterDrop(slot)), r, a) ==
      if a == OwnBlock(r, slot) then Freed
      else if a == BufferAt(r) && slot.First? && Buffered(q.outcome) then Freed
      else RequestCell(q, r, a)
  {
  }

  ghost predicate Drops(s: State, s': State, r: nat, slot: Slot)
    requires r in s.tasks
  {
    var t := s.tasks[r];
    && !s'.heap.fault && r in s'.tasks
    && s' == s.(heap := s'.heap, tasks := s.tasks[r := t.(pc := s'.tasks[r].pc)])
    && Rank(s'.tasks[r].pc) == RankAfterDrop(slot) && s'.tasks[r].pc != Building(Last)
    && forall a :: Get(s'.heap, a) ==
         if a == OwnBlock(r, slot) || (a == BufferAt(r) && slot.First? && Buffered(t.outcome)) then Freed
         else Get(s.heap, a)
  }

  lemma DropEffect(s: State, r: nat, slot: Slot)
    requires HeapOk(s) && r in s.tasks && s.tasks[r].pc == Dropping(slot)
    ensures Drops(s, Drop(s, r, s.tasks[r], slot), r, slot)
  {
    CellOf(s, r, OwnBlock(r, slot));
    CellOf(s, r, BufferAt(r));
  }

  lemma DroppedHeap(s: State, s': State, r: nat, slot: Slot)
    requires HeapOk(s) && r in s.tasks && TaskOk(s.tasks[r]) && s.tasks[r].pc == Dropping(slot)
    requires Drops(s, s', r, slot)
    ensures Quiet(s, s', r) && HeapOk(s')
  {
    forall a | Owner(a) == Some(r)
      ensures Get(s'.heap, a) == RequestCell(StandingOf(s', r), r, a)
    {
      CellOf(s, r, a);
      DropCell(StandingOf(s, r), r, slot, a);
    }
    QuietHeap(s, s', r);
  }

  lemma DropHeap(s: State, r: nat, net: Net)
    requires HeapOk(s) && r in s.tasks && TaskOk(s.tasks[r]) && s.tasks[r].pc.Dropping?
    ensures Quiet(s, TaskStep(s, r, net), r) && HeapOk(TaskStep(s, r, net))
  {
    var slot := s.tasks[r].pc.slot;
    DropEffect(s, r, slot);
    DroppedHeap(s, TaskStep(s, r, net), r, slot);
  }

  // ---- sends --------------------------------------------------------------------------------

  /** The sender of `m` takes its send step, and the step issues `ticket`. */
  ghost predicate Sends(s: State, s': State, m: Msg, ticket: Ticket) {
    && !Posted(s, m)
    && (m.FromTask? ==>
            forall slot | Base(slot) > Base(m.slot) :: !Posted(s, FromTask(m.r, slot)))
    && (forall x :: Posted(s', x) <==> Posted(s, x) || x == m)
    && (forall x :: TicketOf(s', x) == if x == m then ticket else TicketOf(s, x))
    && (forall x :: HandlerOf(s', x) == HandlerOf(s, x) && PayloadOf(s', x) == PayloadOf(s, x))
    && (forall r :: OutcomeOf(s', r) == OutcomeOf(s, r) && (r in s'.tasks <==> r in s.tasks))
    && s'.link == s.link && s'.taken == s.taken && s'.consumer == s.consumer
    && s'.dispatched == s.dispatched && s'.log == s.log && s'.emitters == s.emitters
  }

  lemma SendsLog(s: State, s': State, m: Msg, ticket: Ticket)
    requires LogOk(s) && TicketsOk(s) && Sends(s, s', m, ticket)
    requires ticket.Sent? ==> ticket.i >= s.taken
    ensures LogOk(s')
  {
    forall r
      ensures LogAt(s', r)
    {
      assert LogAt(s, r);
      assert TicketOk(s, m);
      assert OutcomeOf(s', r) == OutcomeOf(s, r);
      forall slot
        ensures Before(TicketOf(s', FromTask(r, slot)), Invoked(s.taken, s.consumer))
          == Before(TicketOf(s, FromTask(r, slot)), Invoked(s.taken, s.consumer))
      {
      }
    }
  }

  lemma SendsTickets(s: State, s': State, m: Msg, ticket: Ticket)
    requires TicketsOk(s) && OrderOk(s) && Sends(s, s', m, ticket) && s.sent <= s'.sent
    requires ticket == Sent(|s.sent|) || (ticket.Lost? && (m.FromTask? ==> s.link.Broken?))
    requires ticket.Sent? ==>
      s'.sent == s.sent + [Delivery(m, HandlerOf(s, m), PayloadOf(s, m))]
    requires ticket.Lost? ==> s'.sent == s.sent
    ensures TicketsOk(s') && OrderOk(s')
  {
    forall x
      ensures TicketOk(s', x)
    {
      assert TicketOk(s, x);
    }
    forall i: nat | i < |s'.sent|
      ensures SentOk(s', i)
    {
      if i < |s.sent| { assert SentOk(s, i) && TicketOk(s, s.sent[i].m); }
    }
    forall r
      ensures OrderAt(s', r)
    {
      assert OrderAt(s, r);
      forall slot
        ensures TicketOk(s, FromTask(r, slot))
      {
      }
    }
  }

  lemma EnqueueQueue(s: State, s': State, d: Delivery)
    requires QueueOk(s) && ConsumerOk(s) && |s.queue| < QUEUE_LENGTH
    requires s'.taken == s.taken && s'.consumer == s.consumer && s'.dispatched == s.dispatched
    requires s'.sent == s.sent + [d] && s'.queue == s.queue + [RecordAt(d.m)]
    ensures QueueOk(s') && ConsumerOk(s')
  {
    assert s'.sent[..Invoked(s.taken, s.consumer)] == s.sent[..Invoked(s.taken, s.consumer)];
  }

  lemma PostCell(q: Standing, r: nat, slot: Slot, fate: Fate, a: Addr)
    requires q.Standing? && q.rank == Base(slot) + 2 && FateAt(q, slot).Held?
    requires Owner(a) == Some(r) && (fate.Waiting? || fate.Undelivered?)
    ensures RequestCell(SetFate(q.(rank := q.rank + 1), slot, fate), r, a) ==
      if fate.Undelivered? && (a == RecordAt(FromTask(r, slot)) || a == ArgsAt(FromTask(r, slot)))
      then Freed
      else RequestCell(q, r, a)
  {
  }

  lemma PostEffect(s: State, r: nat, slot: Slot)
    requires HeapOk(s) && r in s.tasks && s.tasks[r].pc == Posting(slot) && !Blocked(s)
    requires TicketOf(s, FromTask(r, slot)).NoTicket?
    ensures var s', t, m := Post(s, r, s.tasks[r], slot), s.tasks[r], FromTask(r, slot);
      && !s'.heap.fault && s'.tasks == s.tasks[r := t.(pc := Dropping(slot))] && s'.isrs == s.isrs
      && (forall a :: Get(s'.heap, a) ==
            if !s.link.Online? && (a == RecordAt(m) || a == ArgsAt(m)) then Freed else Get(s.heap, a))
      && (s.link.Online? ==> TaskOffer(s, r, slot) == Delivery(m, HandlerOf(s, m), PayloadOf(s, m)))
  {
    var m := FromTask(r, slot);
    CellOf(s, r, RpAt(r));
    CellOf(s, r, OwnBlock(r, slot));
    CellOf(s, r, RecordAt(m));
    CellOf(s, r, ArgsAt(m));
  }

  lemma PostStanding(s: State, r: nat, slot: Slot)
    requires QueueOk(s) && r in s.tasks && s.tasks[r].pc == Posting(slot) && !Blocked(s)
    requires TicketOf(s, FromTask(r, slot)).NoTicket?
    ensures var s', q := Post(s, r, s.tasks[r], slot), StandingOf(s, r);
      && FateAt(q, slot).Held?
      && StandingOf(s', r) ==
         SetFate(q.(rank := q.rank + 1), slot, if s.link.Online? then Waiting else Undelivered)
  {
  }

  lemma PostOwnCell(s: State, r: nat, slot: Slot, a: Addr)
    requires HeapOk(s) && QueueOk(s) && r in s.tasks && s.tasks[r].pc == Posting(slot) && !Blocked(s)
    requires TicketOf(s, FromTask(r, slot)).NoTicket? && Owner(a) == Some(r)
    ensures CellOk(Post(s, r, s.tasks[r], slot), a)
  {
    PostEffect(s, r, slot);
    PostStanding(s, r, slot);
    CellOf(s, r, a);
    PostCell(StandingOf(s, r), r, slot, if s.link.Online? then Waiting else Undelivered, a);
  }

  lemma PostHeap(s: State, r: nat, slot: Slot)
    requires HeapOk(s) && QueueOk(s) && r in s.tasks && s.tasks[r].pc == Posting(slot) && !Blocked(s)
    requires TicketOf(s, FromTask(r, slot)).NoTicket?
    ensures HeapOk(Post(s, r, s.tasks[r], slot))
  {
    var s' := Post(s, r, s.tasks[r], slot);
    PostEffect(s, r, slot);
    forall a
      ensures CellOk(s', a)
    {
      if Owner(a) == Some(r) {
        PostOwnCell(s, r, slot, a);
      } else {
        assert CellOk(s, a);
        ExpectedFrame(s, s', a);
      }
    }
  }

  lemma PostFields(s: State, r: nat, slot: Slot)
    requires r in s.tasks && s.tasks[r].pc == Posting(slot) && !Blocked(s)
    ensures var s' := Post(s, r, s.tasks[r], slot);
      s' == s.(heap := s'.heap, queue := s'.queue, sent := s'.sent,
               tasks := s.tasks[r := s.tasks[r].(pc := Dropping(slot))],
               tickets := s.tickets[FromTask(r, slot) := if s.link.Online? then Sent(|s.sent|) else Lost])
  {
  }

  lemma SendsByTask(s: State, s': State, r: nat, slot: Slot, ticket: Ticket)
    requires r in s.tasks && s.tasks[r].pc == Posting(slot)
    requires s' == s.(heap := s'.heap, queue := s'.queue, sent := s'.sent,
                      tasks := s.tasks[r := s.tasks[r].(pc := Dropping(slot))],
                      tickets := s.tickets[FromTask(r, slot) := ticket])
    ensures Sends(s, s', FromTask(r, slot), ticket)
  {
    forall x
      ensures Posted(s', x) <==> Posted(s, x) || x == FromTask(r, slot)
    {
    }
  }

  lemma PostSends(s: State, r: nat, slot: Slot)
    requires r in s.tasks && s.tasks[r].pc == Posting(slot) && !Blocked(s)
    ensures Sends(s, Post(s, r, s.tasks[r], slot), FromTask(r, slot),
                  if s.link.Online? then Sent(|s.sent|) else Lost)
  {
    PostFields(s, r, slot);
    SendsByTask(s, Post(s, r, s.tasks[r], slot), r, slot, if s.link.Online? then Sent(|s.sent|) else Lost);
  }

  lemma PostInv(s: State, r: nat, net: Net)
    requires Inv(s) && r in s.tasks && s.tasks[r].pc.Posting?
    ensures Inv(TaskStep(s, r, net))
  {
    if Blocked(s) { return; }
    var s', slot := TaskStep(s, r, net), s.tasks[r].pc.slot;
    assert TicketOk(s, FromTask(r, slot));
    PostSends(s, r, slot);
    PostHeap(s, r, slot);
    PostEffect(s, r, slot);
    if s.link.Online? {
      EnqueueInv(s, s', TaskOffer(s, r, slot));
    } else {
      DiscardInv(s, s', FromTask(r, slot));
    }
  }

  lemma EnqueueInv(s: State, s': State, d: Delivery)
    requires Inv(s) && s.link.Online? && |s.queue| < QUEUE_LENGTH && HeapOk(s') && TasksOk(s')
    requires Sends(s, s', d.m, Sent(|s.sent|))
    requires d == Delivery(d.m, HandlerOf(s, d.m), PayloadOf(s, d.m))
    requires s'.sent == s.sent + [d] && s'.queue == s.queue + [RecordAt(d.m)]
    ensures Inv(s')
  {
    SendsTickets(s, s', d.m, Sent(|s.sent|));
    EnqueueQueue(s, s', d);
    SendsLog(s, s', d.m, Sent(|s.sent|));
  }

  lemma DiscardInv(s: State, s': State, m: Msg)
    requires Inv(s) && (m.FromTask? ==> s.link.Broken?) && HeapOk(s') && TasksOk(s')
    requires Sends(s, s', m, Lost) && s'.sent == s.sent && s'.queue == s.queue
    ensures Inv(s')
  {
    SendsTickets(s, s', m, Lost);
    SendsLog(s, s', m, Lost);
  }

  // ---- interrupts ---------------------------------------------------------------------------

  lemma InterruptHeap(s: State, n: nat, handler: Handler, args: Option<seq<bv8>>)
    requires HeapOk(s) && n !in s.isrs && TicketOf(s, FromIsr(n)).NoTicket?
    requires !handler.EmitEvent? && !handler.CloseRequest?
    ensures HeapOk(InterruptStep(s, n, handler, args))
  {
    var s', m := InterruptStep(s, n, handler, args), FromIsr(n);
    assert CellOk(s, RecordAt(m)) && CellOk(s, ArgsAt(m));
    forall a
      ensures CellOk(s', a)
    {
      assert CellOk(s, a);
      if a != RecordAt(m) && a != ArgsAt(m) { ExpectedFrame(s, s', a); }
    }
  }

  lemma InterruptRest(s: State, s': State, n: nat, i: Isr)
    requires TasksOk(s) && QueueOk(s) && ConsumerOk(s) && TicketsOk(s) && n !in s.isrs && !i.posted
    requires !i.handler.EmitEvent? && !i.handler.CloseRequest?
    requires s' == s.(heap := s'.heap, isrs := s.isrs[n := i])
    ensures TasksOk(s') && QueueOk(s') && ConsumerOk(s') && TicketsOk(s')
  {
    forall x ensures TicketOk(s', x) { assert TicketOk(s, x); }
    forall k: nat | k < |s.sent|
      ensures SentOk(s', k)
    {
      assert SentOk(s, k) && TicketOk(s, s.sent[k].m);
    }
  }

  lemma InterruptInv(s: State, n: nat, handler: Handler, args: Option<seq<bv8>>)
    requires Inv(s)
    ensures Inv(InterruptStep(s, n, handler, args))
  {
    if n in s.isrs || handler.EmitEvent? || handler.CloseRequest? { return; }
    var s' := InterruptStep(s, n, handler, args);
    assert TicketOk(s, FromIsr(n));
    InterruptHeap(s, n, handler, args);
    InterruptRest(s, s', n, Isr(handler, args, false));
    forall r ensures OrderAt(s', r) && LogAt(s', r) { assert OrderAt(s, r) && LogAt(s, r); }
  }

  lemma SignalEffect(s: State, n: nat)
    requires HeapOk(s) && n in s.isrs && !s.isrs[n].posted && TicketOf(s, FromIsr(n)).NoTicket?
    ensures var s', m, room := SignalStep(s, n), FromIsr(n), s.link.Online? && |s.queue| < QUEUE_LENGTH;
      && !s'.heap.fault
      && (forall a :: Get(s'.heap, a) ==
            if !room && (a == RecordAt(m) || a == ArgsAt(m)) then Freed else Get(s.heap, a))
  {
    assert CellOk(s, RecordAt(FromIsr(n))) && CellOk(s, ArgsAt(FromIsr(n)));
  }

  lemma SignalFate(s: State, n: nat)
    requires QueueOk(s) && n in s.isrs && !s.isrs[n].posted && TicketOf(s, FromIsr(n)).NoTicket?
    ensures FateOf(s, FromIsr(n)).Held?
    ensures FateOf(SignalStep(s, n), FromIsr(n)) ==
      if s.link.Online? && |s.queue| < QUEUE_LENGTH then Waiting else Undelivered
    ensures HandlerOf(SignalStep(s, n), FromIsr(n)) == HandlerOf(s, FromIsr(n))
    ensures PayloadOf(SignalStep(s, n), FromIsr(n)) == PayloadOf(s, FromIsr(n))
  {
  }

  lemma SignalHeap(s: State, n: nat)
    requires HeapOk(s) && QueueOk(s) && n in s.isrs && !s.isrs[n].posted
    requires TicketOf(s, FromIsr(n)).NoTicket?
    ensures HeapOk(SignalStep(s, n))
  {
    var s', m := SignalStep(s, n), FromIsr(n);
    SignalEffect(s, n);
    SignalFate(s, n);
    forall a
      ensures CellOk(s', a)
    {
      assert CellOk(s, a);
      if a != RecordAt(m) && a != ArgsAt(m) { ExpectedFrame(s, s', a); }
    }
  }

  lemma SignalSends(s: State, n: nat)
    requires n in s.isrs && !s.isrs[n].posted
    ensures Sends(s, SignalStep(s, n), FromIsr(n),
                  if s.link.Online? && |s.queue| < QUEUE_LENGTH then Sent(|s.sent|) else Lost)
  {
    var s' := SignalStep(s, n);
    forall x
      ensures Posted(s', x) <==> Posted(s, x) || x == FromIsr(n)
    {
    }
  }

  lemma SignalInv(s: State, n: nat)
    requires Inv(s)
    ensures Inv(SignalStep(s, n))
  {
    if n !in s.isrs || s.isrs[n].posted { return; }
    var s', m := SignalStep(s, n), FromIsr(n);
    assert TicketOk(s, m);
    SignalHeap(s, n);
    SignalSends(s, n);
    if s.link.Online? && |s.queue| < QUEUE_LENGTH {
      EnqueueInv(s, s', Delivery(m, s.isrs[n].handler, IsrPayload(s.isrs[n].args)));
    } else {
      DiscardInv(s, s', m);
    }
  }

  // ---- starting up --------------------------------------------------------------------------

  lemma BootInv(s: State, created: bool)
    requires Inv(s)
    ensures Inv(BootStep(s, created))
  {
    var s' := BootStep(s, created);
    forall a ensures CellOk(s', a) { assert CellOk(s, a); }
    forall m ensures TicketOk(s', m) { assert TicketOk(s, m); }
    forall r ensures OrderAt(s', r) && LogAt(s', r) { assert OrderAt(s, r) && LogAt(s, r); }
  }

  lemma SpawnEffect(s: State, r: nat, options: Options)
    requires HeapOk(s) && r !in s.tasks && !s.link.Unset?
    ensures var s', t := SpawnStep(s, r, options), Task(Opening, options, Undecided);
      && !s'.heap.fault
      && (forall a :: Get(s'.heap, a) ==
            if a == RpAt(r) then Live(RpBlock(r))
            else if a == ConfigAt(r) then
              Live(Config(options.client, if options.url.Some? then Some(UrlAt(r)) else None,
                          if options.data.Some? then Some(DataAt(r)) else None))
            else if a == UrlAt(r) && options.url.Some? then Live(Text(options.url.value))
            else if a == DataAt(r) && options.data.Some? then Live(Text(options.data.value))
            else Get(s.heap, a))
  {
    assert CellOk(s, RpAt(r)) && CellOk(s, ConfigAt(r)) && CellOk(s, UrlAt(r)) && CellOk(s, DataAt(r));
  }

  lemma NewStanding(s: State, r: nat, options: Options)
    requires r !in s.tasks && !s.link.Unset?
    ensures StandingOf(SpawnStep(s, r, options), r) ==
      Standing(0, options, Undecided, Unborn, Unborn, Unborn)
  {
  }

  lemma SpawnOwnCell(s: State, r: nat, options: Options, a: Addr)
    requires HeapOk(s) && r !in s.tasks && !s.link.Unset? && Owner(a) == Some(r)
    requires forall slot :: TicketOf(s, FromTask(r, slot)).NoTicket?
    ensures CellOk(SpawnStep(s, r, options), a)
  {
    assert CellOk(s, a);
    SpawnEffect(s, r, options);
    NewStanding(s, r, options);
  }

  lemma SpawnHeap(s: State, r: nat, options: Options)
    requires HeapOk(s) && r !in s.tasks && !s.link.Unset?
    requires forall slot :: TicketOf(s, FromTask(r, slot)).NoTicket?
    ensures HeapOk(SpawnStep(s, r, options))
  {
    var s' := SpawnStep(s, r, options);
    SpawnEffect(s, r, options);
    forall a
      ensures CellOk(s', a)
    {
      assert CellOk(s, a);
      if Owner(a) == Some(r) { SpawnOwnCell(s, r, options, a); } else { ExpectedFrame(s, s', a); }
    }
  }

  lemma SpawnInv(s: State, r: nat, options: Options)
    requires Inv(s)
    ensures Inv(SpawnStep(s, r, options))
  {
    if s.link.Unset? || r in s.tasks { return; }
    var s' := SpawnStep(s, r, options);
    forall slot ensures TicketOf(s, FromTask(r, slot)).NoTicket? { assert TicketOk(s, FromTask(r, slot)); }
    SpawnHeap(s, r, options);
    forall m ensures TicketOk(s', m) { assert TicketOk(s, m); }
    forall i: nat | i < |s.sent| ensures SentOk(s', i) { assert SentOk(s, i); }
    forall q ensures OrderAt(s', q) { assert OrderAt(s, q); }
    forall q ensures LogAt(s', q) { SpawnLog(s, r, options, q); }
  }

  lemma SpawnLog(s: State, r: nat, options: Options, q: nat)
    requires LogOk(s) && r !in s.tasks && !s.link.Unset?
    requires forall slot :: TicketOf(s, FromTask(r, slot)).NoTicket?
    ensures LogAt(SpawnStep(s, r, options), q)
  {
    assert LogAt(s, q);
  }

  // ---- the consumer -------------------------------------------------------------------------

  lemma ReceiveHeap(s: State)
    requires HeapOk(s) && s.consumer.Idle? && s.link.Online? && s.queue != []
    ensures HeapOk(Receive(s))
  {
    var s' := Receive(s);
    forall m ensures FateOf(s', m) == FateOf(s, m) { }
    forall a ensures CellOk(s', a) { assert CellOk(s, a); }
  }

  lemma ReceiveRest(s: State, s': State)
    requires TasksOk(s) && QueueOk(s) && ConsumerOk(s) && TicketsOk(s)
    requires s.consumer.Idle? && s.link.Online? && s.queue != []
    requires s' == s.(queue := s.queue[1..], taken := s.taken + 1, consumer := Got(s.queue[0]))
    ensures TasksOk(s') && QueueOk(s') && ConsumerOk(s') && TicketsOk(s')
  {
    forall m ensures TicketOk(s', m) { assert TicketOk(s, m); }
    forall i: nat | i < |s.sent| ensures SentOk(s', i) { assert SentOk(s, i); }
  }

  lemma ReceiveInv(s: State)
    requires Inv(s) && s.consumer.Idle? && !s.link.Broken?
    ensures Inv(Receive(s))
  {
    if !s.link.Online? || s.queue == [] { return; }
    var s' := Receive(s);
    ReceiveHeap(s);
    ReceiveRest(s, s');
    forall q ensures OrderAt(s', q) && LogAt(s', q) { assert OrderAt(s, q) && LogAt(s, q); }
  }

  /** The consumer moves on with the message it holds. */
  ghost predicate Moves(s: State, s': State) {
    && 0 < s.taken <= |s.sent|
    && s'.tasks == s.tasks && s'.isrs == s.isrs && s'.tickets == s.tickets && s'.link == s.link
    && s'.queue == s.queue && s'.sent == s.sent && s'.taken == s.taken
    && match s.consumer
       case Idle => false
       case Got(rec) => !s'.consumer.Idle? && !s'.consumer.Got? && s'.consumer.rec == rec
       case Emitting(_, _) => false
       case Emitted(rec) => s'.consumer == Called(rec)
       case Called(_) => s'.consumer == Idle
  }

  function Current(s: State): Msg
    requires 0 < s.taken <= |s.sent|
  {
    s.sent[s.taken - 1].m
  }

  lemma OtherFates(s: State, s': State, x: Msg)
    requires Moves(s, s') && TicketOk(s, x) && x != Current(s)
    ensures FateOf(s', x) == FateOf(s, x)
  {
  }

  /** Moving on with one message of a request frees what its next fate calls for. */
  lemma MoveCell(q: Standing, r: nat, slot: Slot, fate: Fate, a: Addr)
    requires q.Standing? && q.rank > Base(slot) && Owner(a) == Some(r)
    requires match FateAt(q, slot)
      case Waiting => fate == if slot.Last? then Settled else Entered
      case Entered => fate == Settled && slot != Last
      case Settled => fate == Over
      case _ => false
    ensures RequestCell(SetFate(q, slot, fate), r, a) ==
      if fate.Over? && a == RecordAt(FromTask(r, slot)) then Freed
      else if fate.Settled? && a == ArgsAt(FromTask(r, slot)) then Freed
      else if fate.Settled? && slot.Last? && a == ConfigAt(r) then Freed
      else if fate.Settled? && slot != Last && a == NameAt(r, slot) then Freed
      else RequestCell(q, r, a)
  {
  }

  lemma MoveStanding(s: State, s': State, r: nat)
    requires Moves(s, s') && r in s.tasks && (forall slot :: TicketOk(s, FromTask(r, slot)))
    ensures StandingOf(s', r) ==
      if Current(s).FromTask? && Current(s).r == r
      then SetFate(StandingOf(s, r), Current(s).slot, FateOf(s', Current(s)))
      else StandingOf(s, r)
  {
    forall slot | FromTask(r, slot) != Current(s)
      ensures FateOf(s', FromTask(r, slot)) == FateOf(s, FromTask(r, slot))
    {
      assert TicketOk(s, FromTask(r, slot));
      OtherFates(s, s', FromTask(r, slot));
    }
  }

  /** The rest of the invariant when nothing new is called. */
  lemma MoveRest(s: State, s': State)
    requires TasksOk(s) && QueueOk(s) && ConsumerOk(s) && TicketsOk(s) && OrderOk(s) && LogOk(s)
    requires Moves(s, s') && !s.consumer.Got?
    requires s'.log == s.log && s'.emitters == s.emitters && s'.dispatched == s.dispatched
    ensures TasksOk(s') && QueueOk(s') && ConsumerOk(s') && TicketsOk(s') && OrderOk(s') && LogOk(s')
  {
    forall m ensures TicketOk(s', m) { assert TicketOk(s, m); }
    forall i: nat | i < |s.sent| ensures SentOk(s', i) { assert SentOk(s, i); }
    forall q ensures OrderAt(s', q) && LogAt(s', q) { assert OrderAt(s, q) && LogAt(s, q); }
  }

  /** The fate of the message in the consumer's hands. */
  function HeldFate(c: Consumer): Fate
    requires !c.Idle?
  {
    match c
    case Got(_) => Waiting
    case Emitting(_, _) => Entered
    case Emitted(_) => Entered
    case Called(_) => Settled
  }

  /** The cell at `a` once message `m` has reached `fate`. */
  function MovedCell(s: State, m: Msg, fate: Fate, a: Addr): Cell {
    match m
    case FromTask(r, slot) =>
      if fate.Over? && a == RecordAt(m) then Freed
      else if fate.Settled? && a == ArgsAt(m) then Freed
      else if fate.Settled? && slot.Last? && a == ConfigAt(r) then Freed
      else if fate.Settled? && slot != Last && a == NameAt(r, slot) then Freed
      else Get(s.heap, a)
    case FromIsr(_) =>
      if a == RecordAt(m) then RecordCell(fate, HandlerOf(s, m), m)
      else if a == ArgsAt(m) then ArgsCell(fate, HandlerOf(s, m), PayloadOf(s, m))
      else Get(s.heap, a)
  }

  /** A call handles a task's message at once only if it is the last one. */
  predicate MovesTo(c: Consumer, m: Msg, fate: Fate) {
    m.FromTask? ==>
      match c
      case Got(_) => fate == if m.slot.Last? then Settled else Entered
      case Emitting(_, _) => false
      case Emitted(_) => fate == Settled && m.slot != Last
      case Called(_) => fate == Over
      case Idle => false
  }

  lemma MoveTaskCell(s: State, s': State, r: nat, a: Addr)
    requires CellOk(s, a) && TicketsOk(s) && Moves(s, s') && Owner(a) == Some(r) && r in s.tasks
    requires Posted(s, Current(s)) && FateOf(s, Current(s)) == HeldFate(s.consumer)
    requires MovesTo(s.consumer, Current(s), FateOf(s', Current(s)))
    requires Get(s'.heap, a) == MovedCell(s, Current(s), FateOf(s', Current(s)), a)
    ensures CellOk(s', a)
  {
    var m, q := Current(s), StandingOf(s, r);
    forall slot ensures TicketOk(s, FromTask(r, slot)) { }
    MoveStanding(s, s', r);
    assert Get(s.heap, a) == RequestCell(q, r, a);
    if m.FromTask? && m.r == r { MoveCell(q, r, m.slot, FateOf(s', m), a); }
  }

  lemma MoveCellOk(s: State, s': State, a: Addr)
    requires CellOk(s, a) && TicketsOk(s) && Moves(s, s')
    requires Posted(s, Current(s)) && FateOf(s, Current(s)) == HeldFate(s.consumer)
    requires MovesTo(s.consumer, Current(s), FateOf(s', Current(s)))
    requires Get(s'.heap, a) == MovedCell(s, Current(s), FateOf(s', Current(s)), a)
    ensures CellOk(s', a)
  {
    match Owner(a)
    case Some(r) => if r in s.tasks { MoveTaskCell(s, s', r, a); }
    case None =>
      if a.m != Current(s) {
        assert TicketOk(s, a.m);
        OtherFates(s, s', a.m);
      }
  }

  lemma MoveHeap(s: State, s': State)
    requires HeapOk(s) && TicketsOk(s) && Moves(s, s') && !s'.heap.fault
    requires Posted(s, Current(s)) && FateOf(s, Current(s)) == HeldFate(s.consumer)
    requires MovesTo(s.consumer, Current(s), FateOf(s', Current(s)))
    requires forall a :: Get(s'.heap, a) == MovedCell(s, Current(s), FateOf(s', Current(s)), a)
    ensures HeapOk(s')
  {
    forall a ensures CellOk(s', a) { assert CellOk(s, a); MoveCellOk(s, s', a); }
  }

  /** What the consumer finds at the record it holds. */
  lemma RecordInHand(s: State)
    requires HeapOk(s) && QueueOk(s) && ConsumerOk(s) && TicketsOk(s) && !s.consumer.Idle?
    ensures 0 < s.taken <= |s.sent|
    ensures var m := Current(s);
      && s.consumer.rec == RecordAt(m) && TicketOf(s, m) == Sent(s.taken - 1) && Posted(s, m)
      && s.sent[s.taken - 1] == Delivery(m, HandlerOf(s, m), PayloadOf(s, m))
      && FateOf(s, m) == HeldFate(s.consumer)
      && Get(s.heap, RecordAt(m)) == Live(Record(HandlerOf(s, m), ArgsAt(m)))
      && Get(s.heap, ArgsAt(m)) == ArgsCell(HeldFate(s.consumer), HandlerOf(s, m), PayloadOf(s, m))
  {
    var m := Current(s);
    assert SentOk(s, s.taken - 1) && TicketOk(s, m);
    assert CellOk(s, RecordAt(m)) && CellOk(s, ArgsAt(m));
  }

  lemma FinishInv(s: State)
    requires Inv(s) && s.consumer.Called?
    ensures Inv(ConsumeStep(s))
  {
    var s' := ConsumeStep(s);
    RecordInHand(s);
    MoveRest(s, s');
    MoveHeap(s, s');
  }

  /** The event's name is live while its message is held. */
  lemma NameInHand(s: State, r: nat, slot: Slot)
    requires HeapOk(s) && slot != Last && Posted(s, FromTask(r, slot))
    requires !Handled(FateOf(s, FromTask(r, slot)))
    ensures Get(s.heap, NameAt(r, slot)) == Live(Text(EventName(slot, OutcomeOf(s, r))))
  {
    CellOf(s, r, NameAt(r, slot));
  }

  lemma CleanUpEffect(s: State)
    requires HeapOk(s) && QueueOk(s) && ConsumerOk(s) && TicketsOk(s) && TasksOk(s)
    requires s.consumer.Emitted?
    ensures 0 < s.taken <= |s.sent|
    ensures var s', m := ConsumeStep(s), Current(s);
      && m.FromTask? && m.slot != Last && !s'.heap.fault && Moves(s, s')
      && s' == s.(heap := s'.heap, consumer := s'.consumer)
      && forall a :: Get(s'.heap, a) == MovedCell(s, m, Settled, a)
  {
    RecordInHand(s);
    var m := Current(s);
    NameInHand(s, m.r, m.slot);
  }

  lemma CleanUpInv(s: State)
    requires Inv(s) && s.consumer.Emitted?
    ensures Inv(ConsumeStep(s))
  {
    var s' := ConsumeStep(s);
    CleanUpEffect(s);
    RecordInHand(s);
    MoveRest(s, s');
    MoveHeap(s, s');
  }

  /** A message's place among its request's three. */
  function Place(slot: Slot): nat {
    match slot
    case First => 0
    case Second => 1
    case Last => 2
  }

  /** A call of message `slot` of request `r` finds exactly the earlier ones called. */
  lemma CallProgress(s: State, r: nat, slot: Slot)
    requires TasksOk(s) && QueueOk(s) && ConsumerOk(s) && TicketsOk(s) && OrderAt(s, r)
    requires s.consumer.Got? && Current(s) == FromTask(r, slot)
    ensures r in s.tasks && Progress(s, r) == Place(slot)
  {
    assert SentOk(s, s.taken - 1) && TicketOk(s, FromTask(r, slot));
    assert TicketOk(s, FromTask(r, First)) && TicketOk(s, FromTask(r, Second)) && TicketOk(s, FromTask(r, Last));
  }

  lemma CallRest(s: State, s': State)
    requires TasksOk(s) && QueueOk(s) && ConsumerOk(s) && TicketsOk(s) && OrderOk(s)
    requires Moves(s, s') && s.consumer.Got?
    requires s'.dispatched == s.dispatched + [s.sent[s.taken - 1]]
    requires s'.consumer.Emitting? || s'.consumer.Emitted? ==> s.sent[s.taken - 1].handler.EmitEvent?
    requires s'.consumer.Emitting? ==> OfRequest(Current(s), s'.consumer.target)
    ensures TasksOk(s') && QueueOk(s') && ConsumerOk(s') && TicketsOk(s') && OrderOk(s')
  {
    forall m ensures TicketOk(s', m) { assert TicketOk(s, m); }
    forall i: nat | i < |s.sent| ensures SentOk(s', i) { assert SentOk(s, i); }
    forall q ensures OrderAt(s', q) { assert OrderAt(s, q); }
    assert s.sent[..s.taken] == s.sent[..s.taken - 1] + [s.sent[s.taken - 1]];
  }

  /** A call that concerns another request, or none, leaves a request's part of the log alone. */
  lemma OtherLog(s: State, s': State, q: nat)
    requires Moves(s, s') && s.consumer.Got? && LogAt(s, q)
    requires forall slot :: TicketOk(s, FromTask(q, slot)) && Current(s) != FromTask(q, slot)
    requires Project(s'.log, q) == Project(s.log, q) && (q in s'.emitters <==> q in s.emitters)
    requires Destroyed(q) in s'.log <==> Destroyed(q) in s.log
    ensures LogAt(s', q)
  {
    forall slot
      ensures Before(TicketOf(s', FromTask(q, slot)), Invoked(s'.taken, s'.consumer))
        == Before(TicketOf(s, FromTask(q, slot)), Invoked(s.taken, s.consumer))
    {
      assert TicketOk(s, FromTask(q, slot)) && Current(s) != FromTask(q, slot);
    }
  }

  lemma ProjectAppend(log: seq<Entry>, e: Entry, r: nat)
    ensures Project(log + [e], r) == Project(log, r) + EventOf(e, r)
    ensures EventOf(e, r) == [] ==> Project(log + [e], r) == Project(log, r)
  {
    assert (log + [e])[..|log|] == log;
  }

  /** The entry a request's message adds to the log. */
  function EntryOf(r: nat, slot: Slot, outcome: Outcome, alive: bool): Entry {
    if slot.Last? then Close(r)
    else Emit(r, EventName(slot, outcome), EventValue(slot, outcome), alive)
  }

  lemma OwnEntry(log: seq<Entry>, r: nat, slot: Slot, outcome: Outcome, alive: bool)
    requires Project(log, r) == Story(outcome)[..Place(slot)]
    ensures var log' := log + [EntryOf(r, slot, outcome, alive)];
      && Project(log', r) == Story(outcome)[..Place(slot) + 1]
      && (Destroyed(r) in log' <==> Destroyed(r) in log)
  {
    ProjectAppend(log, EntryOf(r, slot, outcome, alive), r);
  }

  lemma OwnProgress(s: State, s': State, r: nat, slot: Slot)
    requires TasksOk(s) && QueueOk(s) && ConsumerOk(s) && TicketsOk(s) && OrderAt(s, r)
    requires Moves(s, s') && s.consumer.Got? && Current(s) == FromTask(r, slot)
    ensures r in s.tasks && Progress(s, r) == Place(slot) && Progress(s', r) == Place(slot) + 1
  {
    CallProgress(s, r, slot);
    assert SentOk(s, s.taken - 1);
    assert TicketOk(s, FromTask(r, First)) && TicketOk(s, FromTask(r, Second)) && TicketOk(s, FromTask(r, Last));
  }

  lemma OwnLog(s: State, s': State, r: nat, slot: Slot)
    requires TasksOk(s) && QueueOk(s) && ConsumerOk(s) && TicketsOk(s) && OrderAt(s, r) && LogAt(s, r)
    requires Moves(s, s') && s.consumer.Got? && Current(s) == FromTask(r, slot)
    requires s'.log == s.log + [EntryOf(r, slot, OutcomeOf(s, r), r in s.emitters)]
    requires r in s'.emitters <==> r in s.emitters && slot != Last
    ensures LogAt(s', r)
  {
    OwnProgress(s, s', r, slot);
    OwnEntry(s.log, r, slot, OutcomeOf(s, r), r in s.emitters);
  }

  /** What a call adds to the log. */
  ghost predicate Logs(s: State, s': State, m: Msg) {
    match m
    case FromTask(r, slot) =>
      && s'.log == s.log + [EntryOf(r, slot, OutcomeOf(s, r), r in s.emitters)]
      && s'.emitters == if slot.Last? then s.emitters - {r} else s.emitters
    case FromIsr(_) => s'.log == s.log && s'.emitters == s.emitters
  }

  /** What a call does, apart from the heap. */
  ghost predicate Calls(s: State, s': State)
    requires 0 < s.taken <= |s.sent|
  {
    && !s'.heap.fault && Moves(s, s') && MovesTo(s.consumer, Current(s), FateOf(s', Current(s)))
    && s'.dispatched == s.dispatched + [s.sent[s.taken - 1]]
    && (s'.consumer.Emitting? || s'.consumer.Emitted? ==> s.sent[s.taken - 1].handler.EmitEvent?)
    && (s'.consumer.Emitting? ==> OfRequest(Current(s), s'.consumer.target))
    && Logs(s, s', Current(s))
  }

  lemma CallEmitEffect(s: State)
    requires HeapOk(s) && QueueOk(s) && ConsumerOk(s) && TicketsOk(s) && s.consumer.Got?
    requires 0 < s.taken <= |s.sent| && Current(s).FromTask? && Current(s).slot != Last
    ensures var s' := ConsumeStep(s);
      Calls(s, s') && forall a :: Get(s'.heap, a) == MovedCell(s, Current(s), FateOf(s', Current(s)), a)
  {
    RecordInHand(s);
    NameInHand(s, Current(s).r, Current(s).slot);
  }

  lemma CallCloseEffect(s: State)
    requires HeapOk(s) && QueueOk(s) && ConsumerOk(s) && TicketsOk(s) && s.consumer.Got?
    requires 0 < s.taken <= |s.sent| && Current(s).FromTask? && Current(s).slot.Last?
    ensures var s' := ConsumeStep(s);
      Calls(s, s') && forall a :: Get(s'.heap, a) == MovedCell(s, Current(s), FateOf(s', Current(s)), a)
  {
    RecordInHand(s);
    CellOf(s, Current(s).r, ConfigAt(Current(s).r));
  }

  lemma CallIsrEffect(s: State)
    requires HeapOk(s) && QueueOk(s) && ConsumerOk(s) && TicketsOk(s) && TasksOk(s) && s.consumer.Got?
    requires 0 < s.taken <= |s.sent| && Current(s).FromIsr?
    ensures var s' := ConsumeStep(s);
      Calls(s, s') && forall a :: Get(s'.heap, a) == MovedCell(s, Current(s), FateOf(s', Current(s)), a)
  {
    RecordInHand(s);
  }

  lemma CallEffect(s: State)
    requires HeapOk(s) && QueueOk(s) && ConsumerOk(s) && TicketsOk(s) && TasksOk(s) && s.consumer.Got?
    ensures 0 < s.taken <= |s.sent|
    ensures var s' := ConsumeStep(s);
      Calls(s, s') && forall a :: Get(s'.heap, a) == MovedCell(s, Current(s), FateOf(s', Current(s)), a)
  {
    RecordInHand(s);
    match Current(s)
    case FromTask(_, slot) => if slot.Last? { CallCloseEffect(s); } else { CallEmitEffect(s); }
    case FromIsr(_) => CallIsrEffect(s);
  }

  /** An event finds its emitter as the script has left it. */
  lemma CallAlive(s: State, r: nat, slot: Slot)
    requires TasksOk(s) && QueueOk(s) && ConsumerOk(s) && TicketsOk(s) && OrderAt(s, r) && LogAt(s, r)
    requires s.consumer.Got? && Current(s) == FromTask(r, slot) && AliveOk(s.log)
    ensures AliveOk(s.log + [EntryOf(r, slot, OutcomeOf(s, r), r in s.emitters)])
  {
    CallProgress(s, r, slot);
    AliveAppend(s.log, EntryOf(r, slot, OutcomeOf(s, r), r in s.emitters));
  }

  lemma AliveAppend(log: seq<Entry>, e: Entry)
    requires AliveOk(log) && (e.Emit? ==> (e.alive <==> Destroyed(e.target) !in log))
    ensures AliveOk(log + [e])
  {
    var log' := log + [e];
    assert log'[..|log|] == log;
    forall i: nat | i < |log'|
      ensures AliveAt(log', i)
    {
      if i < |log| { assert AliveAt(log, i) && log'[..i] == log[..i]; }
    }
  }

  lemma CallInv(s: State)
    requires Inv(s) && s.consumer.Got?
    ensures Inv(ConsumeStep(s))
  {
    var s', m := ConsumeStep(s), Current(s);
    CallEffect(s);
    RecordInHand(s);
    CallRest(s, s');
    MoveHeap(s, s');
    if m.FromTask? { CallAlive(s, m.r, m.slot); }
    forall q ensures LogAt(s', q) { assert LogAt(s, q) && OrderAt(s, q); CallLog(s, s', q); }
  }

  lemma CallLog(s: State, s': State, q: nat)
    requires TasksOk(s) && QueueOk(s) && ConsumerOk(s) && TicketsOk(s) && OrderAt(s, q) && LogAt(s, q)
    requires Moves(s, s') && s.consumer.Got? && Logs(s, s', Current(s))
    ensures LogAt(s', q)
  {
    match Current(s)
    case FromTask(r, slot) => if r == q { OwnLog(s, s', q, slot); } else { CallOtherLog(s, s', q); }
    case FromIsr(_) => forall slot ensures TicketOk(s, FromTask(q, slot)) { } OtherLog(s, s', q);
  }

  lemma CallOtherLog(s: State, s': State, q: nat)
    requires TicketsOk(s) && LogAt(s, q) && Moves(s, s') && s.consumer.Got? && Logs(s, s', Current(s))
    requires Current(s).FromTask? && Current(s).r != q
    ensures LogAt(s', q)
  {
    var m := Current(s);
    ProjectAppend(s.log, EntryOf(m.r, m.slot, OutcomeOf(s, m.r), m.r in s.emitters), q);
    forall slot ensures TicketOk(s, FromTask(q, slot)) { }
    OtherLog(s, s', q);
  }

  /** Back from the listeners nothing has changed. */
  lemma ReturnHeap(s: State, s': State)
    requires HeapOk(s) && s.consumer.Emitting? && s' == s.(consumer := Emitted(s.consumer.rec))
    ensures HeapOk(s')
  {
    forall m ensures FateOf(s', m) == FateOf(s, m) { }
    forall a ensures CellOk(s', a) { assert CellOk(s, a); }
  }

  lemma ReturnInv(s: State)
    requires Inv(s) && s.consumer.Emitting? && s.consumer.target in s.emitters
    ensures Inv(ConsumeStep(s))
  {
    var s' := ConsumeStep(s);
    ReturnHeap(s, s');
    forall m ensures TicketOk(s', m) { assert TicketOk(s, m); }
    forall i: nat | i < |s.sent| ensures SentOk(s', i) { assert SentOk(s, i); }
    forall q ensures OrderAt(s', q) && LogAt(s', q) { assert OrderAt(s, q) && LogAt(s, q); }
  }

  lemma ConsumeInv(s: State)
    requires Inv(s)
    ensures if Crashes(s, Consume) then ConsumeStep(s).heap.fault else Inv(ConsumeStep(s))
  {
    match s.consumer
    case Idle => if !Crashes(s, Consume) { ReceiveInv(s); }
    case Got(_) => CallInv(s);
    case Emitting(_, _) => if !Crashes(s, Consume) { ReturnInv(s); }
    case Emitted(_) => CleanUpInv(s);
    case Called(_) => FinishInv(s);
  }

  // ---- the script ---------------------------------------------------------------------------

  /** Neither the heap nor the messages depend on the log. */
  lemma LogApart(s: State, s': State)
    requires HeapOk(s) && TicketsOk(s) && OrderOk(s) && s' == s.(emitters := s'.emitters, log := s'.log)
    ensures HeapOk(s') && TicketsOk(s') && OrderOk(s')
  {
    forall a ensures CellOk(s', a) { assert CellOk(s, a); }
    forall m ensures TicketOk(s', m) { assert TicketOk(s, m); }
    forall i: nat | i < |s.sent| ensures SentOk(s', i) { assert SentOk(s, i); }
    forall q ensures OrderAt(s', q) { assert OrderAt(s, q); }
  }

  lemma DestroyedInLog(log: seq<Entry>, r: nat, q: nat)
    ensures Project(log + [Destroyed(r)], q) == Project(log, q)
    ensures Destroyed(q) in log + [Destroyed(r)] <==> Destroyed(q) in log || q == r
  {
    ProjectAppend(log, Destroyed(r), q);
  }

  lemma DestroyLog(s: State, s': State, r: nat, q: nat)
    requires LogAt(s, q) && r in s.tasks
    requires s' == s.(emitters := s.emitters - {r}, log := s'.log)
    requires Project(s'.log, q) == Project(s.log, q)
    requires Destroyed(q) in s'.log <==> Destroyed(q) in s.log || q == r
    ensures LogAt(s', q)
  {
    assert Progress(s', q) == Progress(s, q);
  }

  lemma DestroyInv(s: State, r: nat)
    requires Inv(s)
    ensures Inv(DestroyStep(s, r))
  {
    if r !in s.tasks { return; }
    var s' := DestroyStep(s, r);
    LogApart(s, s');
    forall q ensures LogAt(s', q) { assert LogAt(s, q); DestroyedInLog(s.log, r, q); DestroyLog(s, s', r, q); }
    AliveAppend(s.log, Destroyed(r));
  }

  // ---- every step ---------------------------------------------------------------------------

  lemma TaskInv(s: State, r: nat, net: Net)
    requires Inv(s) && r in s.tasks
    ensures var s' := TaskStep(s, r, net);
      if Crashes(s, Advance(r, net)) then s'.heap.fault else Inv(s')
  {
    var s' := TaskStep(s, r, net);
    match s.tasks[r].pc
    case Opening =>
      OpenHeap(s, r, net);
      if !Crashes(s, Advance(r, net)) { QuietInv(s, s', r); }
    case Releasing(_) =>
      ReleaseHeap(s, r, net);
      if !Crashes(s, Advance(r, net)) { QuietInv(s, s', r); }
    case Building(_) => BuildHeap(s, r, net); QuietInv(s, s', r);
    case Copying(slot) =>
      assert TicketOk(s, FromTask(r, slot));
      CopyHeap(s, r, net);
      QuietInv(s, s', r);
    case Posting(_) => PostInv(s, r, net);
    case Dropping(_) => DropHeap(s, r, net); QuietInv(s, s', r);
    case Done =>
  }

  lemma StepInv(s: State, a: Action)
    requires Inv(s)
    ensures if Crashes(s, a) then Step(s, a).heap.fault else Inv(Step(s, a))
  {
    match a
    case Boot(created) => BootInv(s, created);
    case Spawn(r, options) => if !Crashes(s, a) { SpawnInv(s, r, options); }
    case Advance(r, net) => if r in s.tasks { TaskInv(s, r, net); }
    case Interrupt(n, handler, args) => InterruptInv(s, n, handler, args);
    case Signal(n) => SignalInv(s, n);
    case Consume => ConsumeInv(s);
    case Destroy(r) => DestroyInv(s, r);
  }
}
