/** The C heap as the request protocol uses it.
    An allocation is named by the code that makes it: which request (or interrupt), and which
    `malloc` or `strdup`.  A name is never handed out twice, so "freed" is a permanent state, and
    every misuse (a second free, an access to a block that is not live, a second allocation under
    one name, a cast to the wrong structure) raises the `fault` flag instead of being assumed away. */
module RequestHeap {
  import opened Wrappers

  /** The three messages of one request, in program order. */
  datatype Slot = First | Second | Last

  datatype Msg =
    | FromTask(r: nat, slot: Slot)
    | FromIsr(n: nat)

  datatype Addr =
    | RpAt(r: nat)                  // request_tdinfo_t
    | ConfigAt(r: nat)              // request_config_t
    | UrlAt(r: nat)                 // config->url
    | DataAt(r: nat)                // config->data
    | BufferAt(r: nat)              // read buffer
    | InfoAt(r: nat, slot: Slot)    // request_cbinfo_t of the sending task
    | NameAt(r: nat, slot: Slot)    // strdup'ed callback_name
    | RecordAt(m: Msg)              // js_mq_callback
    | ArgsAt(m: Msg)                // jmc->args, the copied payload

  type Value = nat                  // a JavaScript value, opaque

  /** What a queue record asks the consumer to call.  `Foreign` is any other callback; the consumer
      never frees a payload itself, so whether it is freed is up to the callback. */
  datatype Handler = EmitEvent | CloseRequest | Foreign(frees: bool) | NoHandler

  datatype Block =
    | Text(chars: string)
    | Config(client: bool, url: Option<Addr>, data: Option<Addr>)
    | ReqInfo(target: nat, config: Addr, onEvent: Handler, onClose: Handler)
    | CbInfo(target: nat, name: Addr, value: Option<Value>)
    | Record(handler: Handler, args: Addr)
    | Raw(bytes: seq<bv8>)
    | Uninitialised

  datatype Cell = Absent | Live(block: Block) | Freed

  datatype Heap = Heap(cells: map<Addr, Cell>, fault: bool)

  function Get(h: Heap, a: Addr): Cell {
    if a in h.cells then h.cells[a] else Absent
  }

  function Put(h: Heap, a: Addr, c: Cell): Heap {
    h.(cells := h.cells[a := c])
  }

  function Crash(h: Heap): Heap {
    h.(fault := true)
  }

  function Malloc(h: Heap, a: Addr, b: Block): (h': Heap)
    ensures !h'.fault <==> !h.fault && Get(h, a).Absent?
  {
    if Get(h, a).Absent? then Put(h, a, Live(b)) else Crash(h)
  }

  function Free(h: Heap, a: Addr): (h': Heap)
    ensures !h'.fault <==> !h.fault && Get(h, a).Live?
  {
    if Get(h, a).Live? then Put(h, a, Freed) else Crash(h)
  }

  /** `free(p)` for a pointer that may be NULL. */
  function FreePtr(h: Heap, p: Option<Addr>): Heap {
    if p.Some? then Free(h, p.value) else h
  }

  function Store(h: Heap, a: Addr, b: Block): (h': Heap)
    ensures !h'.fault <==> !h.fault && Get(h, a).Live?
  {
    if Get(h, a).Live? then Put(h, a, Live(b)) else Crash(h)
  }

  /** The block at `a`, or `None` when reading there would be a fault. */
  function Load(h: Heap, a: Addr): Option<Block> {
    if Get(h, a).Live? then Some(Get(h, a).block) else None
  }
}
