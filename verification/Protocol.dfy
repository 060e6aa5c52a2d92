/** The asynchronous callback protocol as a transition system.

    Any number of HTTP request tasks and interrupt senders copy a payload, put a record on one
    bounded queue and free their own copy; one consumer receives, calls and frees.  `Step` runs one
    shared-memory step of one participant, so a list of actions is one interleaving and the
    theorems about `Run` hold for every interleaving.  A participant that cannot move (a blocked
    send, an empty queue, a finished task) leaves the state as it is. */
module Protocol {
  import opened Wrappers
  import opened RequestHeap

  const QUEUE_LENGTH: nat := 128

  /** How a request ended: not a 200 reply; a reply that does not fit the read buffer or could not be
      read; or a complete reply, wrapped in the JavaScript value handed to `success`. */
  datatype Outcome = Undecided | Refused | Short | Full(value: Value)

  datatype Pc =
    | Opening
    | Releasing(content: int)
    | Building(slot: Slot)
    | Copying(slot: Slot)
    | Posting(slot: Slot)
    | Dropping(slot: Slot)
    | Done

  /** What a request is made with: whether the url gives an HTTP client, whether there are headers to
      set, the names of the events it registers listeners for, and its two strings. */
  datatype Options =
    Options(client: bool, headers: bool, heard: set<string>, url: Option<string>, data: Option<string>)

  datatype Task = Task(pc: Pc, made: Options, outcome: Outcome)

  datatype Isr = Isr(handler: Handler, args: Option<seq<bv8>>, posted: bool)

  /** The consumer waits; holds a record; is calling the listeners of request `target`'s event, which
      `js_emit_event` goes through one after the other; is back from the emit; or from the callback. */
  datatype Consumer =
    | Idle
    | Got(rec: Addr)
    | Emitting(rec: Addr, target: nat)
    | Emitted(rec: Addr)
    | Called(rec: Addr)

  /** Whether the queue exists and both send functions are installed. */
  datatype Link = Unset | Online | Broken

  /** One hand-over: who sent it, which callback, and the payload's contents. */
  datatype Delivery = Delivery(m: Msg, handler: Handler, payload: Block)

  /** What happens to a request's emitter: an event is emitted on it (and whether it still was as the
      request made it), the request ends it, or the script calls its `destroy`. */
  datatype Entry =
    | Emit(target: nat, name: string, value: Option<Value>, alive: bool)
    | Close(target: nat)
    | Destroyed(target: nat)

  /** History: the position a message took among all successful sends, or that its send failed. */
  datatype Ticket = NoTicket | Sent(i: nat) | Lost

  datatype State = State(
    link: Link,
    heap: Heap,
    tasks: map<nat, Task>,
    isrs: map<nat, Isr>,
    queue: seq<Addr>,
    consumer: Consumer,
    emitters: set<nat>,
    // history
    tickets: map<Msg, Ticket>,
    sent: seq<Delivery>,
    taken: nat,
    dispatched: seq<Delivery>,
    log: seq<Entry>)

  const INIT: State :=
    State(Unset, Heap(map[], false), map[], map[], [], Idle, {}, map[], [], 0, [], [])

  /** The network's answers, as far as the task looks at them. */
  datatype Net = Net(connected: bool, length: int, status: int, read: int, body: Value)

  datatype Action =
    | Boot(created: bool)
    | Spawn(r: nat, options: Options)
    | Advance(r: nat, net: Net)
    | Interrupt(n: nat, handler: Handler, args: Option<seq<bv8>>)
    | Signal(n: nat)
    | Consume
    | Destroy(r: nat)

  function Fault(s: State): State {
    s.(heap := Crash(s.heap))
  }

  function TicketOf(s: State, m: Msg): Ticket {
    if m in s.tickets then s.tickets[m] else NoTicket
  }

  // ---- sending ------------------------------------------------------------------------------

  /** Allocation and payload copy of a send; a NULL payload is left uninitialised. */
  function CopyOut(h: Heap, m: Msg, handler: Handler, payload: Block): Heap {
    Malloc(Malloc(h, RecordAt(m), Record(handler, ArgsAt(m))), ArgsAt(m), payload)
  }

  function FreeRecord(h: Heap, rec: Addr): Heap {
    match Load(h, rec)
    case Some(Record(_, args)) => Free(Free(h, args), rec)
    case _ => Crash(h)
  }

  function Enqueue(s: State, d: Delivery): State
  {
    s.(queue := s.queue + [RecordAt(d.m)],
       tickets := s.tickets[d.m := Sent(|s.sent|)],
       sent := s.sent + [d])
  }

  function Discard(s: State, m: Msg): State {
    s.(heap := FreeRecord(s.heap, RecordAt(m)), tickets := s.tickets[m := Lost])
  }

  predicate Blocked(s: State) {
    s.link.Online? && |s.queue| >= QUEUE_LENGTH
  }

  // ---- the request task ---------------------------------------------------------------------

  function EventName(slot: Slot, outcome: Outcome): string {
    if slot.Second? then "complete" else if outcome.Full? then "success" else "fail"
  }

  function EventValue(slot: Slot, outcome: Outcome): Option<Value> {
    if slot.First? && outcome.Full? then Some(outcome.value) else None
  }

  predicate Buffered(outcome: Outcome) {
    outcome.Short? || outcome.Full?
  }

  /** `success` takes a 200 reply whose length is known and that was read completely. */
  function Decide(net: Net, content: int): Outcome {
    if net.status != 200 then Refused
    else
      var read := if content < 0 then 0 else net.read;
      if content < 0 || read < content then Short else Full(net.body)
  }

  function SetTask(s: State, r: nat, t: Task): State {
    s.(tasks := s.tasks[r := t])
  }

  /** Opening the connection measures `config->data` with `strlen`, so it must not be NULL. */
  function Open(s: State, r: nat, t: Task, net: Net): State {
    match Load(s.heap, RpAt(r))
    case Some(ReqInfo(_, config, _, _)) =>
      (match Load(s.heap, config)
       case Some(Config(client, _, data)) =>
         if client && (data.None? || Load(s.heap, data.value).None?) then Fault(s)
         else
           var content := if client && net.connected then net.length else 0;
           SetTask(s, r, t.(pc := Releasing(content)))
       case _ => Fault(s))
    case _ => Fault(s)
  }

  /** The status is asked of the client before the client is compared with NULL. */
  function Release(s: State, r: nat, t: Task, content: int, net: Net): State {
    match Load(s.heap, RpAt(r))
    case Some(ReqInfo(_, config, _, _)) =>
      (match Load(s.heap, config)
       case Some(Config(client, url, data)) =>
         if !client then Fault(s)
         else
           var outcome := Decide(net, content);
           var h := Store(FreePtr(FreePtr(s.heap, data), url), config, Config(client, None, None));
           var h' := if Buffered(outcome) then Malloc(h, BufferAt(r), Uninitialised) else h;
           SetTask(s.(heap := h'), r, t.(pc := Building(First), outcome := outcome))
       case _ => Fault(s))
    case _ => Fault(s)
  }

  function Build(s: State, r: nat, t: Task, slot: Slot): State {
    match Load(s.heap, RpAt(r))
    case Some(ReqInfo(target, _, _, _)) =>
      var info := CbInfo(target, NameAt(r, slot), EventValue(slot, t.outcome));
      var h := Malloc(s.heap, InfoAt(r, slot), info);
      var h' := Malloc(h, NameAt(r, slot), Text(EventName(slot, t.outcome)));
      SetTask(s.(heap := h'), r, t.(pc := Copying(slot)))
    case _ => Fault(s)
  }

  /** The block the task passes to `js_send_callback`: its event block, and finally `rp` itself. */
  function OwnBlock(r: nat, slot: Slot): Addr {
    if slot.Last? then RpAt(r) else InfoAt(r, slot)
  }

  function Copy(s: State, r: nat, t: Task, slot: Slot): State {
    match Load(s.heap, RpAt(r))
    case Some(ReqInfo(_, _, onEvent, onClose)) =>
      (match Load(s.heap, OwnBlock(r, slot))
       case Some(payload) =>
         var handler := if slot.Last? then onClose else onEvent;
         SetTask(s.(heap := CopyOut(s.heap, FromTask(r, slot), handler, payload)),
                 r, t.(pc := Posting(slot)))
       case None => Fault(s))
    case _ => Fault(s)
  }

  /** What the sender itself holds at the moment of the send: its callback and its own block. */
  function TaskOffer(s: State, r: nat, slot: Slot): Delivery {
    var own := Load(s.heap, OwnBlock(r, slot));
    var handler := match Load(s.heap, RpAt(r))
      case Some(ReqInfo(_, _, onEvent, onClose)) => if slot.Last? then onClose else onEvent
      case _ => NoHandler;
    Delivery(FromTask(r, slot), handler, if own.Some? then own.value else Uninitialised)
  }

  /** A task's send waits for room as long as the queue exists. */
  function Post(s: State, r: nat, t: Task, slot: Slot): State {
    var t' := t.(pc := Dropping(slot));
    if Blocked(s) then s
    else if s.link.Online? then SetTask(Enqueue(s, TaskOffer(s, r, slot)), r, t')
    else SetTask(Discard(s, FromTask(r, slot)), r, t')
  }

  function Drop(s: State, r: nat, t: Task, slot: Slot): State {
    var h := Free(s.heap, OwnBlock(r, slot));
    var h' := if slot.First? && Buffered(t.outcome) then Free(h, BufferAt(r)) else h;
    var pc := match slot
      case First => Building(Second)
      case Second => Copying(Last)
      case Last => Done;
    SetTask(s.(heap := h'), r, t.(pc := pc))
  }

  function TaskStep(s: State, r: nat, net: Net): State
    requires r in s.tasks
  {
    var t := s.tasks[r];
    match t.pc
    case Opening => Open(s, r, t, net)
    case Releasing(content) => Release(s, r, t, content, net)
    case Building(slot) => Build(s, r, t, slot)
    case Copying(slot) => Copy(s, r, t, slot)
    case Posting(slot) => Post(s, r, t, slot)
    case Dropping(slot) => Drop(s, r, t, slot)
    case Done => s
  }

  // ---- starting up --------------------------------------------------------------------------

  function BootStep(s: State, created: bool): State {
    if s.link.Unset? then s.(link := if created then Online else Broken) else s
  }

  /** The `request` handler: config, its two strings, the thread block, a new emitter, a new task.
      JavaScript runs only after start-up. */
  function SpawnStep(s: State, r: nat, options: Options): State {
    if s.link.Unset? || r in s.tasks then s
    else
      var url, data := options.url, options.data;
      var h := if url.Some? then Malloc(s.heap, UrlAt(r), Text(url.value)) else s.heap;
      var h1 := if data.Some? then Malloc(h, DataAt(r), Text(data.value)) else h;
      var config := Config(options.client,
                           if url.Some? then Some(UrlAt(r)) else None,
                           if data.Some? then Some(DataAt(r)) else None);
      var h2 := Malloc(h1, ConfigAt(r), config);
      var h3 := Malloc(h2, RpAt(r), ReqInfo(r, ConfigAt(r), EmitEvent, CloseRequest));
      SetTask(s.(heap := h3, emitters := s.emitters + {r}), r, Task(Opening, options, Undecided))
  }

  /** Headers are set on the client, which may be NULL, while the request is made. */
  function RequestStep(s: State, r: nat, options: Options): State {
    if !s.link.Unset? && r !in s.tasks && !options.client && options.headers then Fault(s)
    else SpawnStep(s, r, options)
  }

  // ---- interrupt senders --------------------------------------------------------------------

  function IsrPayload(args: Option<seq<bv8>>): Block {
    if args.Some? then Raw(args.value) else Uninitialised
  }

  function InterruptStep(s: State, n: nat, handler: Handler, args: Option<seq<bv8>>): State {
    if n in s.isrs || handler.EmitEvent? || handler.CloseRequest? then s
    else s.(heap := CopyOut(s.heap, FromIsr(n), handler, IsrPayload(args)),
            isrs := s.isrs[n := Isr(handler, args, false)])
  }

  /** An interrupt never waits: a full queue is a failed send. */
  function SignalStep(s: State, n: nat): State {
    if n !in s.isrs || s.isrs[n].posted then s
    else
      var i := s.isrs[n];
      var s' := s.(isrs := s.isrs[n := i.(posted := true)]);
      if s.link.Online? && |s.queue| < QUEUE_LENGTH
      then Enqueue(s', Delivery(FromIsr(n), i.handler, IsrPayload(i.args)))
      else Discard(s', FromIsr(n))
  }

  // ---- the consumer -------------------------------------------------------------------------

  /** The loop receives from the queue whether or not it could be created. */
  function Receive(s: State): State {
    if s.link.Broken? then Fault(s)
    else if s.link.Online? && |s.queue| > 0
    then s.(queue := s.queue[1..], taken := s.taken + 1, consumer := Got(s.queue[0]))
    else s
  }

  function Dispatch(s: State, rec: Addr, d: Delivery, next: Consumer): State {
    s.(dispatched := s.dispatched + [d], consumer := next)
  }

  /** The emitter is as the request made it, with a listener for this event. */
  predicate Listening(s: State, r: nat, name: string) {
    r in s.emitters && r in s.tasks && name in s.tasks[r].made.heard
  }

  /** `request_callback_func` up to the calls of the listeners, if there are any. */
  function CallEmit(s: State, rec: Addr, d: Delivery): State {
    match d.payload
    case CbInfo(target, name, value) =>
      (match Load(s.heap, name)
       case Some(Text(chars)) =>
         Dispatch(s.(log := s.log + [Emit(target, chars, value, target in s.emitters)]),
                  rec, d, if Listening(s, target, chars) then Emitting(rec, target) else Emitted(rec))
       case _ => Fault(s))
    case _ => Fault(s)
  }

  /** `request_callback_free`. */
  function CallClose(s: State, rec: Addr, args: Addr, d: Delivery): State {
    match d.payload
    case ReqInfo(target, config, _, _) =>
      (match Load(s.heap, config)
       case Some(Config(_, url, data)) =>
         var h := Free(FreePtr(FreePtr(s.heap, url), data), config);
         Dispatch(s.(heap := Free(h, args), emitters := s.emitters - {target},
                     log := s.log + [Close(target)]),
                  rec, d, Called(rec))
       case _ => Fault(s))
    case _ => Fault(s)
  }

  function Call(s: State, rec: Addr): State {
    match Load(s.heap, rec)
    case Some(Record(handler, args)) =>
      if !rec.RecordAt? || Load(s.heap, args).None? then Fault(s)
      else
        var d := Delivery(rec.m, handler, Load(s.heap, args).value);
        (match handler
         case EmitEvent => CallEmit(s, rec, d)
         case CloseRequest => CallClose(s, rec, args, d)
         case Foreign(frees) =>
           var h := if frees then Free(s.heap, args) else s.heap;
           Dispatch(s.(heap := h), rec, d, Called(rec))
         case NoHandler => Dispatch(s, rec, d, Called(rec)))
    case _ => Fault(s)
  }

  /** After each call `js_emit_event` reads the listener it has called, to find the next one. */
  function Return(s: State, rec: Addr, target: nat): State {
    if target in s.emitters then s.(consumer := Emitted(rec)) else Fault(s)
  }

  /** The rest of `request_callback_func`: it frees the event's name and the event block. */
  function CleanUp(s: State, rec: Addr): State {
    match Load(s.heap, rec)
    case Some(Record(_, args)) =>
      (match Load(s.heap, args)
       case Some(CbInfo(_, name, _)) =>
         s.(heap := Free(Free(s.heap, name), args), consumer := Called(rec))
       case _ => Fault(s))
    case _ => Fault(s)
  }

  function ConsumeStep(s: State): State {
    match s.consumer
    case Idle => Receive(s)
    case Got(rec) => Call(s, rec)
    case Emitting(rec, target) => Return(s, rec, target)
    case Emitted(rec) => CleanUp(s, rec)
    case Called(rec) => s.(heap := Free(s.heap, rec), consumer := Idle)
  }

  // ---- the script ---------------------------------------------------------------------------

  /** The script calls `destroy` on the object that `request` returned. */
  function DestroyStep(s: State, r: nat): State {
    if r in s.tasks then s.(emitters := s.emitters - {r}, log := s.log + [Destroyed(r)]) else s
  }

  // ---- runs ---------------------------------------------------------------------------------

  /** One step; a faulted run goes no further. */
  function Step(s: State, a: Action): State {
    if s.heap.fault then s
    else
      match a
      case Boot(created) => BootStep(s, created)
      case Spawn(r, options) => RequestStep(s, r, options)
      case Advance(r, net) => if r in s.tasks then TaskStep(s, r, net) else s
      case Interrupt(n, handler, args) => InterruptStep(s, n, handler, args)
      case Signal(n) => SignalStep(s, n)
      case Consume => ConsumeStep(s)
      case Destroy(r) => DestroyStep(s, r)
  }

  function RunFrom(s: State, actions: seq<Action>): State
    decreases |actions|
  {
    if actions == [] then s else RunFrom(Step(s, actions[0]), actions[1..])
  }

  function Run(actions: seq<Action>): State {
    RunFrom(INIT, actions)
  }
}
