# micronode: callback protocol, list, timers, emitter and buffer

micronode runs JavaScript on a microcontroller: one task owns the engine, and everything that
happens elsewhere (HTTP requests, interrupts, timers) reaches it as a callback. This project models
the parts of it that hold state, and proves what they guarantee.

- **Callback protocol** (`RequestHeap`, `Protocol`, `ProtocolInvariant`, `ProtocolTheorems`,
  `ProtocolHistory`, `ProtocolLifetimes`, `ProtocolProgress`). Request tasks and interrupts allocate a record, copy a
  payload, post the record on a queue of 128 and free their own copy; one consumer receives, calls
  and frees. It is a transition system over an explicit heap: a list of actions is one interleaving,
  so each theorem about `Run(actions)` holds for every interleaving of any number of participants. A
  misuse of memory is not excluded by assumption but raises a fault flag. An allocation is named by the
  `malloc` that makes it and a name is never reused, so "live", "freed" and "freed twice" are
  facts of a state. The invariant determines the content of every heap cell from where the
  participants stand.
- **Linked list** (`LinkedList`, `ListClients`, over `Sequences`): the intrusive doubly linked list
  and its iterator as classes with the C pointer fields. `nodes` is the sequence they stand for.
- **Timers** (`Timers`, `TimerModule`): the registry as a value with all its runs, callbacks that
  create and clear timers included, and the handlers over the linked list proved against it.
- **Event emitter** (`Events`, `Emission`, `EmitterModule`): the operations on a table of names and
  listeners, its relation to a map that remembers insertion order, emits whose listeners change the
  emitter, and the two-level chain of nodes itself. Nodes carry a `freed` flag that every read of a
  field and every `Free` requires to be unset.
- **Buffer** (`Bytes`, `Buffers`) and **UTF-8 scanner** (`Utf8`). Where the C code would touch memory
  outside the buffer the result says so (`Outside`) instead of being excluded.

`dafny verify dfyconfig.toml` checks everything.

## What the code does that one might not expect

Each is proved as an exact condition, on the code as it is.

- A request without `data` faults in its task's first step, because the length of a NULL string is
  taken to open the connection. A request without a usable url has no HTTP client and faults in the
  second, where the status is asked of the client before the client is compared with NULL, or when
  it is made if it has headers to set. If the queue could not be created, the script runs all the
  same and the first receive is from a NULL queue. And a script that destroys a request's emitter
  while an event's listeners are being called makes the emit read a freed listener. Nothing else in
  the protocol faults (`FaultsExactly`). That `esp_http_client_get_status_code`,
  `esp_http_client_set_header` and `xQueueReceive` do not accept a NULL handle, as those of ESP-IDF
  and FreeRTOS do not, is an assumption: the libraries are not part of this model.
- When the queue could not be created every send fails, and until the first receive a finished
  request leaves its config and both event names allocated: a failed send frees record and payload, not what the payload
  points at (`BrokenQueueLeaks`).
- The consumer frees a record but not its payload, so a payload handed to a NULL callback, or to
  one that does not free it, stays allocated (`ConservationAtRest`).
- A timer callback that clears the id it was called for leaves the code reading a freed timer,
  whether the timer repeats or not; `clearTimer` looks at the low 8 bits of its argument only, so
  clearing the id plus 256 does it too (`DanglingExactlyOnSelfClear`).
- Ids wrap after 255 timers, and an expiry looks its timer up by id: it calls the expired timer's
  function exactly when no older live timer shares the id (`ExpiryCalls`).
- `removeListener` of the first of several listeners drops all of them, the others without being
  freed (`RemoveListenerExactly`, `EmitterModule.Emitter.RemoveListener`).
- A listener that takes itself out of the event that is being emitted is freed before the emit reads
  its successor (`Emission.DanglesExactly`); removing by function does so exactly for the first
  listener with the function (`Emission.RemovesItself`). Listeners cut off by the removal of the
  head are still called (`Emission.CutOffAreCalled`), and so are those added meanwhile
  (`Emission.TameEmit`).
- `concat` onto an empty buffer leaves it empty (`Buffers.Buffer.Concat`), and `fill` with an empty
  source never ends (`Buffers.Buffer.Fill`).
- The 32-bit bounds test of the integer accesses lets offsets through whose sum with the width wraps
  (`Buffers.Buffer.ReadBytes`, `Buffers.Buffer.WriteBytes`), and `toString` tests no bounds at all
  (`Buffers.Buffer.ToHex`, `Buffers.Buffer.ToAscii`, `Buffers.Buffer.ToUtf8`).
- The UTF-8 scanner takes a three-byte form cut off after a wrong second byte, overlong forms and
  surrogates (`Utf8.StructuralOnly`).
- The list's documentation promises a `free` for removed values; as in the code it happens only
  when a destructor is installed.

## Model

| member | source | states |
|---|---|---|
| `ProtocolInvariant.StepInv` | libs/mnode_module_httpclient.c:119-276 | every step of every participant keeps the invariant that determines the whole heap, unless a NULL string, client or queue is used or a freed listener read, and then it faults |
| `ProtocolInvariant.PostInv` | libs/mnode_callback.c:48-79 | a task's send keeps the invariant whether it is queued, waits or fails |
| `ProtocolInvariant.SignalInv` | libs/mnode_callback.c:16-46 | so does a send from an interrupt, including its clean-up when the queue is full |
| `ProtocolInvariant.ConsumeInv` | libs/mnode_exec.c:131-140 | so does each part of the receive, call and free loop, with the two exceptions: a receive from a queue that was not created, and the step to the next listener of a destroyed emitter |
| `ProtocolTheorems.Reachable` | libs/mnode_exec.c:65-140 | every state that a fault-free interleaving reaches satisfies the invariant |
| `ProtocolTheorems.FaultsExactly` | libs/mnode_module_httpclient.c:125-150 | a run faults if and only if: the task of a request with a client but no data is given a step, or that of a request without a client two, or such a request has headers; or something is received although the first start-up created no queue; or an emit goes on to its next listener after its emitter was destroyed |
| `ProtocolTheorems.FitRunsNeverFault` | libs/mnode_module_httpclient.c:299-348 | if the queue is created, every request has a client and carries data, and no listener's emit has its own emitter destroyed meanwhile, no interleaving faults |
| `ProtocolTheorems.MissingDataFaults` | libs/mnode_module_httpclient.c:125-133 | each exception is real: a client without data, |
| `ProtocolTheorems.MissingClientFaults` | libs/mnode_module_httpclient.c:149-150 | no client, where the task's first step goes well, |
| `ProtocolTheorems.HeadersWithoutClientFault` | libs/mnode_module_httpclient.c:91-107 | headers without a client, |
| `ProtocolTheorems.MissingQueueFaults` | libs/mnode_exec.c:113-133 | no queue, whatever else happens before the first receive, |
| `ProtocolTheorems.DestroyInEmitFaults` | libs/mnode_event.c:243-254 | and a `destroy` while an event is called, which faults exactly if the request was made with a listener for that event and the script had not destroyed the emitter before |
| `ProtocolTheorems.DeliveredInOrderExactlyOnce` | libs/mnode_exec.c:17-32 | in every run the callbacks called so far, followed by those outstanding as the heap holds them now, are exactly the successful sends in order, with the bytes the sender held when it sent; no message is sent twice; the queue holds at most 128 |
| `ProtocolTheorems.TaskSend` | libs/mnode_exec.c:17-23 | a task's send waits exactly while the queue is full, sends the task's own block, and fails only without a queue, freeing record and payload; it changes nothing else |
| `ProtocolTheorems.InterruptSend` | libs/mnode_callback.c:32-42 | an interrupt's send succeeds exactly when there is room, then carrying the interrupt's bytes, and otherwise frees record and payload and changes nothing else, in the heap or out of it |
| `ProtocolHistory.SentAsHandedOver` | libs/mnode_callback.c:16-79 | every message sent carries what its sender handed over, read off the run's actions: an interrupt's the callback and the very bytes it was raised with; a task's one of the request's two callbacks with the event block or the request's own block |
| `ProtocolHistory.CalledAsHandedOver` | libs/mnode_callback.c:26-28 | so the callback and the bytes an interrupt hands over are those that the consumer calls for it |
| `ProtocolTheorems.FirstBootDecides` | libs/mnode_exec.c:113-117 | whether sends can succeed is decided by the creation of the queue, for the whole run |
| `ProtocolTheorems.EveryRequestTellsItsStory` | libs/mnode_module_httpclient.c:150-273 | in every run each request's events are a prefix of: one of success and fail, complete, close; and all of it once the request is closed; an event finds its emitter alive exactly if the script has not called `destroy` on it before (libs/mnode_event.c:428) |
| `ProtocolHistory.DestroyedAsAsked` | libs/mnode_event.c:428-433 | in every run an emitter counts as destroyed exactly if the script has called `destroy` on it after making the request |
| `ProtocolTheorems.OutcomeFromReplies` | libs/mnode_module_httpclient.c:125-208 | in every run a request's outcome follows from the network's answers to the first two steps of its task, whatever happens in between: it succeeds exactly when a 200 reply was read completely, with that reply's body, where the length is the one fetched when the connection was opened, or 0 if it was not, and must not be negative; it is refused exactly without a 200 |
| `ProtocolLifetimes.FreedForGood` | libs/mnode_exec.c:137 | in every run a freed block stays freed: it is neither freed nor allocated again |
| `ProtocolTheorems.ClosedRequestOwnsNothing` | libs/mnode_module_httpclient.c:32-55 | with a working queue no record, payload, name, event block, config, url, data or buffer of a request is live after its close and its task's exit |
| `ProtocolHistory.HeldByRequest` | libs/mnode_module_httpclient.c:144-273 | at any time of any run: its url and data are live, with the text given, until the outcome is known; its config until it is closed; the read buffer, exactly for replies that were read, until the first event is sent; an event block while that event is sent; its own block until the task ends |
| `ProtocolTheorems.BrokenQueueLeaks` | libs/mnode_callback.c:70-75 | without a queue a finished task leaves exactly its config and two event names |
| `ProtocolTheorems.ConservationAtRest` | libs/mnode_module_httpclient.c:26-29 | when nothing is left to do, the live blocks are exactly the config and the two event names of every request if there is no queue, and the payloads delivered to a NULL callback or to one that does not free them |
| `ProtocolProgress.StepUsesUp` | libs/mnode_exec.c:17-23 | every step of a task, of an interrupt's send or of the consumer that has an effect lowers a number the state determines |
| `ProtocolProgress.EveryScheduleEnds` | libs/mnode_exec.c:131-140 | so from every reachable state, in whatever order the participants run, only that many of their steps have an effect |
| `ProtocolProgress.AtRestExactlyWhenNothingMoves` | libs/mnode_exec.c:17-32 | the bounded queue cannot lock the system up: in every reachable state no step has an effect exactly when nothing is left to do and there is a queue to wait at |
| `ProtocolProgress.AlwaysComesToRest` | libs/mnode_callback.c:65-68 | with a queue and fit requests such a schedule exists however the network answers, its answers depending on all that happened before |
| `ProtocolProgress.RestIsComplete` | libs/mnode_module_httpclient.c:270-275 | at rest with a working queue every request has told its whole story and owns nothing |
| `LinkedList.Node.constructor` | deps/list/src/list_node.c:14-23 | a new node is detached and holds the value |
| `LinkedList.List.constructor` | deps/list/src/clist.c:14-25 | a new list is empty, without destructor or match function |
| `LinkedList.List.RPush` | deps/list/src/clist.c:52-68 | appends the node to the sequence and keeps the pointers in step; NULL changes nothing |
| `LinkedList.List.LPush` | deps/list/src/clist.c:115-131 | prepends the node |
| `LinkedList.List.RPop` | deps/list/src/clist.c:74-88 | takes the last node out, fully detached, or returns NULL |
| `LinkedList.List.LPop` | deps/list/src/clist.c:94-108 | takes the first node out, fully detached, or returns NULL |
| `LinkedList.List.Remove` | deps/list/src/clist.c:188-202 | removes the node at any position, frees it once, and its value when a destructor is installed |
| `LinkedList.List.Destroy` | deps/list/src/clist.c:31-45 | frees every node once in order, reading none after it is freed, and then the list |
| `LinkedList.List.Find` | deps/list/src/clist.c:137-158 | the leftmost node whose value equals the one looked for or, with a match function, is matched by it (the value looked for being its first argument), or NULL when there is none |
| `LinkedList.List.At` | deps/list/src/clist.c:164-182 | element i, element len + i for negative i, NULL otherwise, over all 32-bit indices |
| `LinkedList.Iterator.constructor` | deps/list/src/list_iterator.c:15-21 | starts at the end that the direction names |
| `LinkedList.Iterator.FromNode` | deps/list/src/list_iterator.c:28-36 | starts at the node given |
| `LinkedList.Iterator.Next` | deps/list/src/list_iterator.c:43-52 | returns the node it stands on, having stepped past it |
| `LinkedList.Unlinked` | deps/list/src/clist.c:190-196 | once its neighbours bypass a node the others form a linked list |
| `ListClients.RemoveWhere` | deps/list/src/list_iterator.c:43-52 | iterating in either direction and removing by any predicate visits every original node once, in order, leaves exactly the filtered list and frees exactly the rest |
| `ListClients.StaysOrGoes` | deps/list/src/list_iterator.c:43-52 | so a node stays exactly if its value is not selected, and is freed exactly if it is |
| `ListClients.RemovedInRound` | deps/list/src/clist.c:188-202 | removing the node just returned leaves the kept part and the rest of the traversal as they were |
| `ListClients.Perform` | deps/list/src/clist.c:52-131 | every run of pushes, pops and removals is the same run on a plain sequence, and what was there and what was pushed is what is there and what was taken out |
| `ListClients.RunsConserve` | deps/list/src/clist.c:52-131 | the same conservation for the runs on a plain sequence, which `Perform` carries over to the list |
| `ListClients.PerformOne` | deps/list/src/clist.c:52-202 | a push puts its value at its end, a pop takes out what stands at its end, and a removal by index exactly that element |
| `ListClients.FirstInFirstOut` | deps/list/src/clist.c:52-108 | in any interleaving of pushes at the tail and pops at the head, values come out in the order they went in, after those that were there |
| `ListClients.FirstInFirstOutBackwards` | deps/list/src/clist.c:74-131 | and likewise with pushes at the head and pops at the tail |
| `ListClients.Mirrored` | deps/list/src/clist.c:74-131 | the two ends of the plain sequence that `Perform` refines are mirror images of each other |
| `Timers.IdsHandedOut` | libs/mnode_module_timer.c:51-70 | the k-th id, from 0, is k mod 255 + 1 in every run and across every wraparound; any 255 consecutive ids differ |
| `Timers.TimersAreAsAsked` | libs/mnode_module_timer.c:46-99 | in every run the timers created are exactly those asked for, in order, by JavaScript or from a running timer's callback, each with the function and the kind, repeating or not, that was asked for |
| `Timers.SetTakesEffect` | libs/mnode_module_timer.c:46-99 | a timer that is set is live and running at once, last in the list, with its function and kind, the id due to it, and one more reference to the function |
| `Timers.ReferencesBalance` | libs/mnode_module_timer.c:112-119 | in every run each function's acquires minus releases is how often it occurs among the live timers' functions, and the list is in order of creation |
| `Timers.LifeOfATimer` | libs/mnode_module_timer.c:29-40 | a one-shot is called at most once and is gone after its call; any other timer lives exactly until it is cleared |
| `Timers.ExpiryCalls` | libs/mnode_module_timer.c:21-44 | an expiry calls one function: the expired timer's exactly when no older live timer shares its id, else that of the oldest such timer |
| `Timers.OneShotExpiresOnce` | libs/mnode_module_timer.c:89 | a one-shot does not run on after it has expired, also when an older timer with its id was called instead |
| `Timers.DanglingExactlyOnSelfClear` | libs/mnode_module_timer.c:31-38 | a freed timer is read exactly when a callback clears a number whose low 8 bits are the id it was called for |
| `Timers.ClearRemovesOldest` | libs/mnode_module_timer.c:101-124 | clearTimer removes exactly the oldest live timer whose id is the low 8 bits of the number given |
| `Timers.RecentIdsDistinct` | libs/mnode_module_timer.c:46-124 | while every live timer is among the last 255 created, live ids are pairwise distinct and each expiry or clear hits the timer it means |
| `Timers.NoTimerIsLost` | libs/mnode_module_timer.c:21-44 | in such a run every live timer is still running, FreeRTOS having started it |
| `Timers.ScriptRemoves` | libs/mnode_module_timer.c:31 | whatever else a callback creates or clears, its own timer stays findable until its own id is cleared |
| `TimerModule.TimerState.SetInterval` | libs/mnode_module_timer.c:46-71 | appends a repeating timer with the function given, as the registry's value says, and returns its id, the counter's value past 0 |
| `TimerModule.TimerState.SetTimeout` | libs/mnode_module_timer.c:73-99 | appends a one-shot likewise |
| `TimerModule.TimerState.ClearById` | libs/mnode_module_timer.c:101-124 | removes from the list exactly what the registry's value says |
| `TimerModule.TimerState.TimeoutCallback` | libs/mnode_module_timer.c:21-44 | with a callback that creates and clears timers, its own included, the list ends as the registry's value says, up to the read of a freed timer |
| `TimerModule.TimerState.LetExpire` | libs/mnode_module_timer.c:61 | the expiry of a FreeRTOS timer, looked up by the id it was created with, does what the registry's value says |
| `TimerModule.TimerState.Replay` | libs/mnode_module_timer.c:21-124 | any run of handlers and expiries over the linked list, from the empty registry, ends where the registry's value does |
| `TimerModule.TimerState.FindTimer` | libs/mnode_module_timer.c:25-30 | the scan finds the first node with the id |
| `Events.RemoveListenerExactly` | libs/mnode_event.c:85-101 | removing a listener takes out exactly the first match if and only if it is not the head of several |
| `Events.StepRefines` | libs/mnode_event.c:167-231 | an operation agrees with an insertion-ordered map from names to listeners if and only if it removes no head of several listeners |
| `Events.HistoryRefines` | libs/mnode_event.c:263-350 | a history agrees with the map after each of its operations if and only if none of them removes a head of several listeners |
| `Events.EmitAfterHistory` | libs/mnode_event.c:233-261 | after such a history emit succeeds exactly when the event exists and calls its listeners in registration order, and the names come in order of first registration |
| `Events.EmitAfterOp` | libs/mnode_event.c:263-350 | after any history, each operation changes what an emit of its own event calls as it should (added at the end; the first match taken out, or all when that is the head; none; unknown) and nothing of any other event; new names come last |
| `Events.NamesStayDistinct` | libs/mnode_event.c:103-135 | event names stay distinct in every history |
| `Emission.DanglesExactly` | libs/mnode_event.c:243-254 | an emit reads a freed listener exactly when the listener it is calling is freed during that call, and goes no further |
| `Emission.TameEmit` | libs/mnode_event.c:243-254 | while no listener is taken out of the emitted event, whatever else happens, the listeners called are exactly those it has in the end, in order |
| `Emission.ScriptsArePerformed` | libs/mnode_event.c:243-254 | an emit begins with the first listener, and the table it leaves is the old one after the whole scripts of the listeners called, in the order of the calls |
| `Emission.RemovesItself` | libs/mnode_event.c:85-101 | a listener that removes its own function is freed by that exactly when no earlier listener of the event has the function |
| `Emission.CutOffAreCalled` | libs/mnode_event.c:85-101 | when the head is removed during a later listener's call, the emit goes on through the listeners that are cut off, none of them freed |
| `EmitterModule.FindListener` | libs/mnode_event.c:50-65 | the first listener node with the function, or NULL |
| `EmitterModule.AppendListener` | libs/mnode_event.c:67-83 | the node becomes the chain's last |
| `EmitterModule.Unlink` | libs/mnode_event.c:85-101 | a node other than the head leaves the chain; with the head everything leaves |
| `EmitterModule.FreeChain` | libs/mnode_event.c:156-161 | frees every node of a chain once, reading none afterwards |
| `EmitterModule.Emitter.FindEvent` | libs/mnode_event.c:103-116 | the event with the name, or NULL |
| `EmitterModule.Emitter.AppendEvent` | libs/mnode_event.c:118-135 | the event becomes the last |
| `EmitterModule.Emitter.AddListener` | libs/mnode_event.c:167-210 | adds the listener, creating the event at the end if it is new; says what either failed allocation leaves |
| `EmitterModule.Emitter.RemoveListener` | libs/mnode_event.c:279-308 | removes as the table says and frees exactly the node found |
| `EmitterModule.FreedByIs` | libs/mnode_event.c:156-161 | the listeners that an operation frees are: of the events of its name (or all, for `destroy`) every one, or for `removeListener` the first with the function |
| `EmitterModule.Emitter.RemoveAllListeners` | libs/mnode_event.c:212-231 | empties the event, which stays, and frees exactly its listeners |
| `EmitterModule.Emitter.RemoveEventNode` | libs/mnode_event.c:137-165 | the event leaves the chain of events; it, its name and exactly its listeners are freed |
| `EmitterModule.Emitter.DropEvent` | libs/mnode_event.c:325-350 | removes the event with the name, if there is one |
| `EmitterModule.Emitter.Destroy` | libs/mnode_event.c:406-426 | terminates with every event, its name and exactly the reachable listeners freed, each once |
| `EmitterModule.Emitter.Replay` | libs/mnode_event.c:263-350 | any history over the chains of nodes ends where the table of the same history does |
| `EmitterModule.Emitter.EmitEvent` | libs/mnode_event.c:233-261 | for any scripts that the listeners run on the emitter when they are called, it calls, leaves behind and reads after its free what `Emission.EmitWith` says; without scripts it calls exactly the event's listeners, once each and in order; it passes exactly when the event exists |
| `EmitterModule.Emitter.EventNames` | libs/mnode_event.c:370-404 | fills an array of the right length with the names in order |
| `Buffers.Buffer.ReadBytes` | libs/mnode_buffer.c.bak:68-117 | the number of the window's bytes: byte by byte in the order asked for, congruent to it and in the two's complement range if signed, the number itself if not; undefined outside the buffer; memory outside it is read exactly when the sum of offset and width wraps into it |
| `Buffers.Buffer.WriteBytes` | libs/mnode_buffer.c.bak:119-173 | each byte of the window becomes its byte of the value in the order asked for, all else is unchanged, and the offset beyond is returned; the same bounds as for reads |
| `Buffers.Buffer.WriteThenRead` | libs/mnode_buffer.c.bak:68-173 | reading back gives the value modulo 256^bytes in the same order and its byte reversal in the opposite one, signed reads its two's complement value |
| `Bytes.DecodeEncode` | libs/mnode_buffer.c.bak:98-104 | decoding an encoded number gives it modulo 256^n |
| `Bytes.EncodeDecode` | libs/mnode_buffer.c.bak:165-170 | encoding a decoded byte sequence gives it back |
| `Bytes.ReversalInvolutes` | libs/mnode_buffer.c.bak:94-104 | reversing the bytes twice gives the value back modulo 256^n |
| `Bytes.ReversalDigit` | libs/mnode_buffer.c.bak:94-104 | the j-th lowest byte of the reversal is the j-th highest of the value |
| `Bytes.SignedRange` | libs/mnode_buffer.c.bak:106-114 | the signed reading is the two's complement value |
| `Buffers.CastIsSigned` | libs/mnode_buffer.c.bak:106-114 | the three C casts compute it |
| `Buffers.WideIsTwoNarrow` | libs/mnode_buffer.c.bak:205-208 | a 32-bit big-endian read is its two 16-bit reads combined |
| `Buffers.BoundsTest` | libs/mnode_buffer.c.bak:91-92 | the 32-bit bounds test admits exactly the windows inside the buffer, unless the sum wraps |
| `Buffers.Buffer.Fill` | libs/mnode_buffer.c.bak:605-717 | every byte of the window is the source's byte at its place modulo the source's length: the number's four bytes, the other buffer's, or the string's; the window is from the offset, or 0, to the end, clipped to the buffer; all else is unchanged; it ends exactly if the source is not empty or there is nothing to fill |
| `Buffers.Buffer.FillThenRead` | libs/mnode_buffer.c.bak:626-642 | after filling with a number every whole 4-byte slot reads back as it |
| `Buffers.Buffer.Copy` | libs/mnode_buffer.c.bak:468-530 | moves exactly the slice asked for, which ends with the buffer if the end is -1, and returns its length, or moves nothing, for all arguments |
| `Buffers.Buffer.Concat` | libs/mnode_buffer.c.bak:439-466 | appends the target's bytes, its own included; an empty buffer stays empty, and one that cannot grow as it is |
| `Buffers.Buffer.ToHex` | libs/mnode_buffer.c.bak:357-391 | the hex text of the slice, undefined for an empty one or when the text cannot be allocated; memory outside is read exactly when the slice leaves the buffer |
| `Buffers.HexToInt` | libs/mnode_buffer.c.bak:268-283 | the value of two hex digits in either case |
| `Buffers.DigitValue` | libs/mnode_buffer.c.bak:275-277 | where a digit counts 0 to 9, a letter of either case 10 to 15, and anything else 0 |
| `Buffers.HexRoundTrip` | libs/mnode_buffer.c.bak:260-283 | decoding each pair of the hex text gives the slice back |
| `Buffers.HexIsUpperCase` | libs/mnode_buffer.c.bak:260-266 | the text has digits and upper-case letters only |
| `Buffers.HexInjective` | libs/mnode_buffer.c.bak:359-375 | different slices have different hex texts |
| `Buffers.Buffer.ToAscii` | libs/mnode_buffer.c.bak:330-356 | each byte of the slice without its high bit, up to its first zero, which the scanner always accepts, or undefined when the copy cannot be allocated; a slice that leaves the buffer is safe exactly when a zero comes first |
| `Buffers.Buffer.ToUtf8` | libs/mnode_buffer.c.bak:319-329 | the slice exactly when the scanner accepts it; one that leaves the buffer is read outside exactly if bytes could stand there with which it would accept |
| `Utf8.IsUtf8` | libs/mnode_utils.c:295-350 | true exactly for complete 1-, 2- and 3-byte units followed by at most one that is cut off |
| `Utf8.AcceptsExactly` | libs/mnode_utils.c:301-347 | the same for the scan as a function |
| `Utf8.ReadsBeyondExactly` | libs/mnode_utils.c:295-350 | asked to scan more bytes than there are, the scanner reads beyond them exactly when its answer depends on what stands there |
| `Utf8.PrefixClosed` | libs/mnode_utils.c:314-332 | every prefix of an accepted string is accepted |
| `Utf8.StructuralTextAccepted` | libs/mnode_utils.c:303-341 | every text of 1-, 2- and 3-byte forms is accepted, judged by the ranges of lead bytes and continuations only |
| `Utf8.RfcTextAccepted` | libs/mnode_utils.c:303-341 | every text of section 4 of RFC 3629 without four-byte characters is accepted |
| `Utf8.BadFormRejected` | libs/mnode_utils.c:307-346 | a continuation in the place of a lead byte, a longer form, or a complete form with a missing continuation is rejected wherever it begins and whatever follows |
| `Utf8.FourByteFormRejected` | libs/mnode_utils.c:342-346 | a four-byte form is rejected wherever it begins |
| `Utf8.AsciiAccepted` | libs/mnode_utils.c:303-306 | bytes below 128 are always accepted |
| `Utf8.StructuralOnly` | libs/mnode_utils.c:312-341 | three kinds of ill-formed text that are accepted |

## Left out

- The protocol's C functions are steps of a transition system and not methods, because what matters is how they interleave; between two steps of one participant the others may take any number.
- JavaScript values, the engine and its garbage collector: values are opaque numbers; a callback is what it does to the modelled state.
- The network: status, lengths and body of a reply are arbitrary inputs of each step, and so is whether a request's url gives an HTTP client and whether it has headers.
- Failing allocations in the send path, in the `request` handler and in the request task, and failing task creation: assumed to succeed. Those of `js_add_event_listener` and `concat` are modelled.
- References to the reply's `data_value` and to emitter listeners: released more often than acquired in the code, so no balance is claimed.
- Start-up of the queue and its two send functions is one step, since only the script that runs after it registers the interrupts that send; a script that ends in an error, which deletes the queue under running tasks, is not modelled.
- Of what a script may do to a request's emitter the protocol models `destroy` only, at any time; which events have listeners is fixed when the request is made. Listeners added and removed are the subject of `Emission`.
- The lock around calls into the engine: a binary semaphore, so a nested call would wait for itself; calls are taken as made.
- EmitterModule.Emitter.EmitEvent: what a listener does is a list of the emitter's own operations whose allocations succeed; an emit from inside a listener is not among them, since the lock would make it wait for itself.
- TimerModule.TimerState.TimeoutCallback: a handler runs to its end before the next one starts, apart from what its own callback does; the timer task has no lock against the engine's task.
- Timers.NoTimerIsLost: creating and starting a FreeRTOS timer is taken to succeed; FreeRTOS refuses a period of 0 ticks, which a delay below one tick gives.
- Timers.ClearTimer: the argument is taken as a whole number of which the low 8 bits count; C leaves the conversion of a number above 255 to `uint8_t` undefined.
- `setTimeout` is reachable for clearing only under the misspelt name `clearTimeou`; names of globals are not modelled.
- Buffers.Buffer.WriteBytes: the value is taken as 32 bits, after the conversion from a JavaScript number; once memory outside is touched nothing is said of the contents.
- Buffers.Buffer.Fill: a buffer that fills itself does so beyond the bytes it copies, as `memcpy` asks; the string copy that the code does not free is not counted.
- Buffers.Buffer.Copy: within one buffer the two windows are disjoint, as `memcpy` asks.
- The or of disjoint bits in the read loop is written as a sum, shifts and masks as division and remainder by powers of two.
- The list's 32-bit length does not wrap.
- TCP, WiFi, GPIO, file system, `require` and console: input and output, or short branch logic.
