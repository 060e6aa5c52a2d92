/** The timer registry of mnode_module_timer.c as operations on a value, and what holds of every run
    of them.  A timer's `handle` stands for its FreeRTOS timer object; `pvTimerGetTimerID` returns
    the 8-bit id the handle was created with. */
module Timers {
  import opened Sequences

  type Func = nat

  datatype Timer = Timer(func: Func, id: nat, handle: nat, repeat: bool)

  datatype Registry = Registry(
    timers: seq<Timer>,       // timerIdList
    counter: nat,             // timerId, a uint8_t
    refs: map<Func, int>,     // acquires minus releases of each function
    armed: set<nat>,          // FreeRTOS timers that are running
    // history
    minted: seq<Timer>,       // every timer ever created
    calls: seq<nat>,          // handles of the timers whose function was called
    called: seq<Func>,        // and the functions
    cleared: set<nat>,        // handles removed by clearTimer
    dangling: bool)           // a freed timer was read

  const EMPTY: Registry := Registry([], 0, map[], {}, [], [], [], {}, false)

  /** What a callback may do to the registry. */
  datatype Op = Set(func: Func, repeat: bool) | Clear(id: nat)

  /** A call from JavaScript, or the expiry of a FreeRTOS timer whose callback runs `script`. */
  datatype Event = Do(op: Op) | Expire(handle: nat, script: seq<Op>)

  function Refs(st: Registry, f: Func): int {
    if f in st.refs then st.refs[f] else 0
  }

  function NextId(counter: nat): nat {
    if counter == 0 then 1 else counter
  }

  function Mint(st: Registry, f: Func, repeat: bool): Registry {
    var t := Timer(f, NextId(st.counter), |st.minted|, repeat);
    st.(timers := st.timers + [t],
        counter := (t.id + 1) % 256,
        refs := st.refs[f := Refs(st, f) + 1],
        armed := st.armed + {t.handle},
        minted := st.minted + [t])
  }

  function FirstWithId(ts: seq<Timer>, id: nat): (k: nat)
    ensures k <= |ts|
    ensures k < |ts| ==> ts[k].id == id
    ensures forall j :: 0 <= j < k ==> ts[j].id != id
  {
    IndexWhere((t: Timer) => t.id == id, ts)
  }

  /** Release the function, stop and delete the FreeRTOS timer, free the timer, unlink the node. */
  function Drop(st: Registry, k: nat): Registry
    requires k < |st.timers|
  {
    var t := st.timers[k];
    st.(timers := RemoveAt(st.timers, k),
        refs := st.refs[t.func := Refs(st, t.func) - 1],
        armed := st.armed - {t.handle})
  }

  /** The number given to `clearTimer` becomes a uint8_t before it is looked up. */
  function ClearTimer(st: Registry, id: nat): Registry {
    var k := FirstWithId(st.timers, id % 256);
    if k == |st.timers| then st
    else Drop(st, k).(cleared := st.cleared + {st.timers[k].handle})
  }

  function Perform(st: Registry, op: Op): Registry {
    match op
    case Set(f, repeat) => Mint(st, f, repeat)
    case Clear(id) => ClearTimer(st, id)
  }

  function PerformAll(st: Registry, ops: seq<Op>): Registry {
    if ops == [] then st else Perform(PerformAll(st, ops[..|ops| - 1]), ops[|ops| - 1])
  }

  function IndexOf(ts: seq<Timer>, handle: nat): (k: nat)
    ensures k <= |ts|
    ensures k < |ts| ==> ts[k].handle == handle
    ensures k == |ts| ==> forall j :: 0 <= j < |ts| ==> ts[j].handle != handle
  {
    IndexWhere((t: Timer) => t.handle == handle, ts)
  }

  /** The call of a timer's function, up to what that function does. */
  function Call(st: Registry, t: Timer): Registry {
    st.(calls := st.calls + [t.handle], called := st.called + [t.func])
  }

  /** `timeout_callback`: the first timer with the id is called; a one-shot is dropped afterwards.
      The timer is read again after the call, so it must still be there. */
  function Fire(st: Registry, id: nat, script: seq<Op>): Registry {
    var k := FirstWithId(st.timers, id);
    if k == |st.timers| then st
    else
      var t := st.timers[k];
      var st' := PerformAll(Call(st, t), script);
      var k' := IndexOf(st'.timers, t.handle);
      if k' == |st'.timers| then st'.(dangling := true)
      else if t.repeat then st' else Drop(st', k')
  }

  /** FreeRTOS runs a callback only for a running timer, and stops a one-shot before it does. */
  function Expiry(st: Registry, h: nat, script: seq<Op>): Registry {
    if h !in st.armed || h >= |st.minted| then st
    else
      var t := st.minted[h];
      Fire(if t.repeat then st else st.(armed := st.armed - {h}), t.id, script)
  }

  function Step(st: Registry, e: Event): Registry {
    if st.dangling then st
    else
      match e
      case Do(op) => Perform(st, op)
      case Expire(h, script) => Expiry(st, h, script)
  }

  function Run(es: seq<Event>): Registry {
    if es == [] then EMPTY else Step(Run(es[..|es| - 1]), es[|es| - 1])
  }

  // ---- the invariant ------------------------------------------------------------------------

  predicate IdsOk(st: Registry) {
    && (forall i :: 0 <= i < |st.minted| ==>
          st.minted[i].handle == i && st.minted[i].id == i % 255 + 1)
    && st.counter < 256
    && NextId(st.counter) == |st.minted| % 255 + 1
  }

  /** The list holds created timers, in the order of their creation. */
  predicate OrderOk(st: Registry) {
    && (forall i :: 0 <= i < |st.timers| ==>
          st.timers[i].handle < |st.minted| && st.timers[i] == st.minted[st.timers[i].handle])
    && (forall i, j :: 0 <= i < j < |st.timers| ==> st.timers[i].handle < st.timers[j].handle)
  }

  predicate IsLive(st: Registry, h: nat) {
    exists i :: 0 <= i < |st.timers| && st.timers[i].handle == h
  }

  function Holders(ts: seq<Timer>, f: Func): nat {
    if ts == [] then 0 else Holders(ts[..|ts| - 1], f) + if ts[|ts| - 1].func == f then 1 else 0
  }

  /** A timer's life: it ends by clearTimer or, for a one-shot, by being called; `busy` is the timer
      whose callback is running, which still has its drop ahead. */
  predicate LifeOk(st: Registry, h: nat, busy: int) {
    && (IsLive(st, h) <==>
          h < |st.minted| && h !in st.cleared && (st.minted[h].repeat || h == busy || h !in st.calls))
    && (h < |st.minted| && !st.minted[h].repeat ==> multiset(st.calls)[h] <= 1)
    && (h in st.armed ==> IsLive(st, h))
    && (h in st.calls || h in st.cleared ==> h < |st.minted|)
  }

  ghost predicate Inv(st: Registry, busy: int) {
    && IdsOk(st) && OrderOk(st)
    && (forall f :: Refs(st, f) == Holders(st.timers, f))
    && (forall h :: LifeOk(st, h, busy))
  }

  lemma HoldersAppend(ts: seq<Timer>, t: Timer, f: Func)
    ensures Holders(ts + [t], f) == Holders(ts, f) + if t.func == f then 1 else 0
  {
    assert (ts + [t])[..|ts|] == ts;
  }

  lemma HoldersRemove(ts: seq<Timer>, k: nat, f: Func)
    requires k < |ts|
    ensures Holders(ts, f) == Holders(RemoveAt(ts, k), f) + if ts[k].func == f then 1 else 0
  {
    var n := |ts| - 1;
    if k == n {
      assert RemoveAt(ts, k) == ts[..n];
    } else {
      HoldersRemove(ts[..n], k, f);
      assert RemoveAt(ts, k)[..n - 1] == RemoveAt(ts[..n], k);
    }
  }

  lemma MintLive(st: Registry, f: Func, repeat: bool, h: nat)
    ensures IsLive(Mint(st, f, repeat), h) <==> IsLive(st, h) || h == |st.minted|
  {
    var ts, ts' := st.timers, Mint(st, f, repeat).timers;
    if IsLive(st, h) {
      var i :| 0 <= i < |ts| && ts[i].handle == h;
      assert ts'[i].handle == h;
    }
    assert ts'[|ts|].handle == |st.minted|;
  }

  lemma MintLife(st: Registry, f: Func, repeat: bool, busy: int, h: nat)
    requires OrderOk(st) && LifeOk(st, h, busy) && LifeOk(st, |st.minted|, busy) && busy < |st.minted|
    ensures LifeOk(Mint(st, f, repeat), h, busy)
  {
    MintLive(st, f, repeat, h);
  }

  /** The id after the one that creation `n` gets, with its 8-bit wrap past 0. */
  lemma NextIdStep(n: nat)
    ensures NextId((n % 255 + 2) % 256) == (n + 1) % 255 + 1
  {
  }

  lemma MintRefs(st: Registry, f: Func, repeat: bool, g: Func)
    requires Refs(st, f) == Holders(st.timers, f) && Refs(st, g) == Holders(st.timers, g)
    ensures Refs(Mint(st, f, repeat), g) == Holders(Mint(st, f, repeat).timers, g)
  {
    HoldersAppend(st.timers, Timer(f, NextId(st.counter), |st.minted|, repeat), g);
  }

  lemma MintRest(st: Registry, f: Func, repeat: bool)
    requires IdsOk(st) && OrderOk(st) && forall g :: Refs(st, g) == Holders(st.timers, g)
    ensures var st' := Mint(st, f, repeat);
      && IdsOk(st') && OrderOk(st') && (forall g :: Refs(st', g) == Holders(st'.timers, g))
  {
    var st' := Mint(st, f, repeat);
    NextIdStep(|st.minted|);
    forall g ensures Refs(st', g) == Holders(st'.timers, g) { MintRefs(st, f, repeat, g); }
  }

  lemma MintInv(st: Registry, f: Func, repeat: bool, busy: int)
    requires Inv(st, busy) && busy < |st.minted|
    ensures Inv(Mint(st, f, repeat), busy)
  {
    var st' := Mint(st, f, repeat);
    var n := |st.minted|;
    MintRest(st, f, repeat);
    forall h
      ensures LifeOk(st', h, busy)
    {
      assert LifeOk(st, h, busy) && LifeOk(st, n, busy);
      MintLife(st, f, repeat, busy, h);
    }
  }

  lemma DropLiveBefore(st: Registry, k: nat, h: nat)
    requires OrderOk(st) && k < |st.timers| && IsLive(Drop(st, k), h)
    ensures IsLive(st, h) && h != st.timers[k].handle
  {
    var ts, r := st.timers, RemoveAt(st.timers, k);
    var i :| 0 <= i < |r| && r[i].handle == h;
    var j := if i < k then i else i + 1;
    assert r[i] == ts[j];
    if j < k {
      assert ts[j].handle < ts[k].handle;
    } else {
      assert ts[k].handle < ts[j].handle;
    }
  }

  lemma DropLive(st: Registry, k: nat, h: nat)
    requires OrderOk(st) && k < |st.timers|
    ensures IsLive(Drop(st, k), h) <==> IsLive(st, h) && h != st.timers[k].handle
  {
    var ts := st.timers;
    if IsLive(Drop(st, k), h) { DropLiveBefore(st, k, h); }
    if IsLive(st, h) && h != ts[k].handle {
      var i :| 0 <= i < |ts| && ts[i].handle == h;
      assert RemoveAt(ts, k)[if i < k then i else i - 1] == ts[i];
    }
  }

  /** Dropping keeps everything but the life of the dropped timer. */
  lemma DropRest(st: Registry, k: nat, busy: int)
    requires Inv(st, busy) && k < |st.timers|
    ensures var st' := Drop(st, k);
      && IdsOk(st') && OrderOk(st') && (forall f :: Refs(st', f) == Holders(st'.timers, f))
  {
    var st' := Drop(st, k);
    assert forall i :: 0 <= i < |st'.timers| ==> st'.timers[i] == st.timers[if i < k then i else i + 1];
    forall f ensures Refs(st', f) == Holders(st'.timers, f) { HoldersRemove(st.timers, k, f); }
  }

  lemma ClearInv(st: Registry, id: nat, busy: int)
    requires Inv(st, busy)
    ensures Inv(ClearTimer(st, id), busy)
  {
    var k := FirstWithId(st.timers, id % 256);
    if k == |st.timers| { return; }
    DropRest(st, k, busy);
    forall f ensures Refs(ClearTimer(st, id), f) == Holders(ClearTimer(st, id).timers, f) {
      assert Refs(Drop(st, k), f) == Holders(Drop(st, k).timers, f);
    }
    forall h ensures LifeOk(ClearTimer(st, id), h, busy) {
      assert LifeOk(st, h, busy);
      ClearLife(st, id, h, busy);
    }
  }

  lemma ClearLife(st: Registry, id: nat, h: nat, busy: int)
    requires OrderOk(st) && LifeOk(st, h, busy) && FirstWithId(st.timers, id % 256) < |st.timers|
    ensures LifeOk(ClearTimer(st, id), h, busy)
  {
    var k := FirstWithId(st.timers, id % 256);
    DropLive(st, k, h);
    assert IsLive(ClearTimer(st, id), h) <==> IsLive(Drop(st, k), h);
  }

  lemma PerformInv(st: Registry, op: Op, busy: int)
    requires Inv(st, busy) && busy < |st.minted|
    ensures Inv(Perform(st, op), busy) && |Perform(st, op).minted| >= |st.minted|
  {
    match op
    case Set(f, repeat) => MintInv(st, f, repeat, busy);
    case Clear(id) => ClearInv(st, id, busy);
  }

  lemma {:induction false} PerformAllInv(st: Registry, ops: seq<Op>, busy: int)
    requires Inv(st, busy) && busy < |st.minted|
    ensures Inv(PerformAll(st, ops), busy) && |PerformAll(st, ops).minted| >= |st.minted|
  {
    if ops != [] {
      PerformAllInv(st, ops[..|ops| - 1], busy);
      PerformInv(PerformAll(st, ops[..|ops| - 1]), ops[|ops| - 1], busy);
    }
  }

  // ---- a callback's script ------------------------------------------------------------------

  /** Timer `h` is live and the oldest live one with its id. */
  predicate IsOldest(st: Registry, h: nat) {
    var k := IndexOf(st.timers, h);
    k < |st.timers| && FirstWithId(st.timers, st.timers[k].id) == k
  }

  lemma FirstIs(ts: seq<Timer>, id: nat, k: nat)
    requires k < |ts| && ts[k].id == id && forall j :: 0 <= j < k ==> ts[j].id != id
    ensures FirstWithId(ts, id) == k
  {
  }

  lemma IndexIs(ts: seq<Timer>, h: nat, k: nat)
    requires k < |ts| && ts[k].handle == h
    requires forall i, j :: 0 <= i < j < |ts| ==> ts[i].handle < ts[j].handle
    ensures IndexOf(ts, h) == k
  {
  }

  lemma GoneAfterRemove(ts: seq<Timer>, k: nat)
    requires k < |ts| && forall i, j :: 0 <= i < j < |ts| ==> ts[i].handle < ts[j].handle
    ensures IndexOf(RemoveAt(ts, k), ts[k].handle) == |RemoveAt(ts, k)|
  {
    var r := RemoveAt(ts, k);
    forall i | 0 <= i < |r| ensures r[i].handle != ts[k].handle {
      var j := if i < k then i else i + 1;
      assert r[i] == ts[j] && (j < k || k < j);
    }
  }

  lemma StaysAfterRemove(ts: seq<Timer>, c: nat, k: nat)
    requires c < |ts| && k < |ts| && c != k && FirstWithId(ts, ts[k].id) == k
    requires forall i, j :: 0 <= i < j < |ts| ==> ts[i].handle < ts[j].handle
    ensures var r, t, k' := RemoveAt(ts, c), ts[k], if k < c then k else k - 1;
      IndexOf(r, t.handle) == k' && k' < |r| && r[k'] == t && FirstWithId(r, t.id) == k'
  {
    var r, t := RemoveAt(ts, c), ts[k];
    forall i | 0 <= i < |r| ensures r[i] == ts[if i < c then i else i + 1] { }
    var k' := if k < c then k else k - 1;
    forall i, j | 0 <= i < j < |r| ensures r[i].handle < r[j].handle {
      assert r[i] == ts[if i < c then i else i + 1] && r[j] == ts[if j < c then j else j + 1];
    }
    IndexIs(r, t.handle, k');
    FirstIs(r, t.id, k');
  }

  /** Removing another timer, or this one, at position `c`. */
  lemma OldestAfterRemove(ts: seq<Timer>, c: nat, k: nat)
    requires c < |ts| && k < |ts| && FirstWithId(ts, ts[k].id) == k
    requires forall i, j :: 0 <= i < j < |ts| ==> ts[i].handle < ts[j].handle
    ensures var r, t, k' := RemoveAt(ts, c), ts[k], if k < c then k else k - 1;
      if c == k then IndexOf(r, t.handle) == |r|
      else IndexOf(r, t.handle) == k' && k' < |r| && r[k'] == t && FirstWithId(r, t.id) == k'
  {
    if c == k { GoneAfterRemove(ts, k); } else { StaysAfterRemove(ts, c, k); }
  }

  /** The operation clears the timers' id `id`, or the script has one that does. */
  predicate Clears(op: Op, id: nat) {
    op.Clear? && op.id % 256 == id
  }

  predicate ClearsId(ops: seq<Op>, id: nat) {
    exists op :: op in ops && Clears(op, id)
  }

  lemma ClearsLast(ops: seq<Op>, op: Op, id: nat)
    ensures ClearsId(ops + [op], id) <==> ClearsId(ops, id) || Clears(op, id)
  {
    assert op in ops + [op];
  }

  /** The first `i + 1` operations of a script. */
  lemma PrefixOfScript(st: Registry, ops: seq<Op>, i: nat, id: nat)
    requires i < |ops|
    ensures PerformAll(st, ops[..i + 1]) == Perform(PerformAll(st, ops[..i]), ops[i])
    ensures ClearsId(ops[..i + 1], id) <==> ClearsId(ops[..i], id) || Clears(ops[i], id)
  {
    assert ops[..i + 1][..i] == ops[..i] && ops[..i + 1] == ops[..i] + [ops[i]];
    ClearsLast(ops[..i], ops[i], id);
  }

  /** One operation of the script: an oldest timer stays oldest, unless its own id is cleared, which
      removes exactly it. */
  lemma OldestKept(st: Registry, op: Op, h: nat)
    requires OrderOk(st) && OrderOk(Perform(st, op)) && IsOldest(st, h)
    ensures var st', t := Perform(st, op), st.minted[h];
      if Clears(op, t.id) then IndexOf(st'.timers, h) == |st'.timers|
      else IsOldest(st', h)
  {
    var ts := st.timers;
    var k := IndexOf(ts, h);
    match op
    case Set(f, repeat) =>
      IndexIs(Mint(st, f, repeat).timers, h, k);
      FirstIs(Mint(st, f, repeat).timers, ts[k].id, k);
    case Clear(id) =>
      var c := FirstWithId(ts, id % 256);
      if c < |ts| { OldestAfterRemove(ts, c, k); }
  }

  lemma {:induction false} GoneStaysGone(st: Registry, ops: seq<Op>, h: nat, busy: int)
    requires Inv(st, busy) && busy < |st.minted| && h < |st.minted| && !IsLive(st, h)
    ensures !IsLive(PerformAll(st, ops), h)
  {
    if ops == [] { return; }
    var n := |ops| - 1;
    var st1 := PerformAll(st, ops[..n]);
    GoneStaysGone(st, ops[..n], h, busy);
    PerformAllInv(st, ops[..n], busy);
    match ops[n]
    case Set(f, repeat) => MintLive(st1, f, repeat, h);
    case Clear(id) =>
      var k := FirstWithId(st1.timers, id % 256);
      if k < |st1.timers| {
        DropLive(st1, k, h);
        assert IsLive(ClearTimer(st1, id), h) <==> IsLive(Drop(st1, k), h);
      }
  }

  lemma IndexLive(st: Registry, h: nat)
    ensures IsLive(st, h) <==> IndexOf(st.timers, h) < |st.timers|
  {
  }

  /** A script removes the oldest timer with an id exactly when it clears that id. */
  lemma {:induction false} ScriptRemoves(st: Registry, ops: seq<Op>, h: nat, busy: int)
    requires Inv(st, busy) && busy < |st.minted| && IsOldest(st, h)
    ensures var st', id := PerformAll(st, ops), st.minted[h].id;
      if ClearsId(ops, id) then IndexOf(st'.timers, h) == |st'.timers| else IsOldest(st', h)
  {
    if ops == [] { return; }
    var n := |ops| - 1;
    var id := st.minted[h].id;
    var st1 := PerformAll(st, ops[..n]);
    assert ops == ops[..n] + [ops[n]];
    ClearsLast(ops[..n], ops[n], id);
    ScriptRemoves(st, ops[..n], h, busy);
    PerformAllInv(st, ops[..n], busy);
    if ClearsId(ops[..n], id) {
      IndexLive(st1, h);
      GoneStaysGone(st1, [ops[n]], h, busy);
      assert PerformAll(st1, [ops[n]]) == Perform(st1, ops[n]) by {
        assert [ops[n]][..0] == [];
      }
      IndexLive(PerformAll(st, ops), h);
    } else {
      PerformInv(st1, ops[n], busy);
      OldestKept(st1, ops[n], h);
    }
  }

  // ---- every event keeps the invariant -------------------------------------------------------

  lemma {:induction false} ScriptHistory(st: Registry, ops: seq<Op>)
    ensures var st' := PerformAll(st, ops);
      st'.calls == st.calls && st'.called == st.called && st'.dangling == st.dangling && st.minted <= st'.minted
  {
    if ops != [] { ScriptHistory(st, ops[..|ops| - 1]); }
  }

  /** The timer's function is called: from now on it is the busy one. */
  lemma CallStarts(st: Registry, k: nat)
    requires Inv(st, -1) && k < |st.timers|
    ensures Inv(Call(st, st.timers[k]), st.timers[k].handle)
  {
    var h := st.timers[k].handle;
    var st' := Call(st, st.timers[k]);
    assert IsLive(st, h);
    assert multiset(st'.calls) == multiset(st.calls) + multiset{h};
    forall g ensures LifeOk(st', g, h) {
      assert LifeOk(st, g, -1) && LifeOk(st, h, -1);
      assert IsLive(st', g) <==> IsLive(st, g);
      assert g in st'.calls <==> g in st.calls || g == h;
    }
    forall f ensures Refs(st', f) == Holders(st'.timers, f) { assert Refs(st, f) == Holders(st.timers, f); }
  }

  /** It has returned: a repeating timer goes on, a one-shot is dropped. */
  lemma CallEnds(st: Registry, k: nat)
    requires k < |st.timers| && Inv(st, st.timers[k].handle) && st.timers[k].handle in st.calls
    ensures Inv(if st.timers[k].repeat then st else Drop(st, k), -1)
  {
    var h := st.timers[k].handle;
    var st' := if st.timers[k].repeat then st else Drop(st, k);
    if !st.timers[k].repeat { DropRest(st, k, h); }
    forall g ensures LifeOk(st', g, -1) {
      assert LifeOk(st, g, h);
      DropLive(st, k, g);
    }
  }

  /** The timer that a callback for `id` calls, and its state when it returns. */
  lemma FireInv(st: Registry, id: nat, script: seq<Op>)
    requires Inv(st, -1) && !st.dangling && FirstWithId(st.timers, id) < |st.timers|
    ensures var st', t := Fire(st, id, script), st.timers[FirstWithId(st.timers, id)];
      && (st'.dangling <==> ClearsId(script, id))
      && (!st'.dangling ==> Inv(st', -1))
      && st'.calls == st.calls + [t.handle] && st'.called == st.called + [t.func] && st.minted <= st'.minted
  {
    var k := FirstWithId(st.timers, id);
    var t := st.timers[k];
    var st1 := Call(st, t);
    CallStarts(st, k);
    IndexIs(st.timers, t.handle, k);
    ScriptRemoves(st1, script, t.handle, t.handle);
    ScriptHistory(st1, script);
    PerformAllInv(st1, script, t.handle);
    var st2 := PerformAll(st1, script);
    var k' := IndexOf(st2.timers, t.handle);
    if k' < |st2.timers| {
      assert st2.timers[k'] == t;
      CallEnds(st2, k');
    }
  }

  /** The registry a callback leaves: as its script left it if the called timer is gone, and else after
      dealing with the timer at `k'`, where it now stands. */
  lemma FireAfterScript(st: Registry, id: nat, script: seq<Op>, k': nat)
    requires Inv(st, -1) && !st.dangling && FirstWithId(st.timers, id) < |st.timers|
    requires var t := st.timers[FirstWithId(st.timers, id)];
      var st' := PerformAll(Call(st, t), script);
      !ClearsId(script, id) ==> k' < |st'.timers| && st'.timers[k'] == t
    ensures var t := st.timers[FirstWithId(st.timers, id)];
      var st' := PerformAll(Call(st, t), script);
      Fire(st, id, script) ==
        if ClearsId(script, id) then st'.(dangling := true) else if t.repeat then st' else Drop(st', k')
  {
    var k := FirstWithId(st.timers, id);
    var st1 := Call(st, st.timers[k]);
    FireInv(st, id, script);
    ScriptHistory(st1, script);
    if !ClearsId(script, id) {
      CallStarts(st, k);
      PerformAllInv(st1, script, st.timers[k].handle);
      IndexIs(PerformAll(st1, script).timers, st.timers[k].handle, k');
    }
  }

  /** A script that clears the called timer's id takes that timer out; any other leaves it. */
  lemma GoneExactly(st: Registry, id: nat, script: seq<Op>)
    requires Inv(st, -1) && FirstWithId(st.timers, id) < |st.timers|
    ensures var t := st.timers[FirstWithId(st.timers, id)];
      var ts := PerformAll(Call(st, t), script).timers;
      ClearsId(script, id) <==> forall i :: 0 <= i < |ts| ==> ts[i] != t
  {
    var k := FirstWithId(st.timers, id);
    var t := st.timers[k];
    var st1 := Call(st, t);
    CallStarts(st, k);
    IndexIs(st.timers, t.handle, k);
    ScriptRemoves(st1, script, t.handle, t.handle);
    ScriptHistory(st1, script);
    PerformAllInv(st1, script, t.handle);
    var ts := PerformAll(st1, script).timers;
    if !ClearsId(script, id) { assert ts[IndexOf(ts, t.handle)] == t; }
  }

  lemma DisarmInv(st: Registry, h: nat, busy: int)
    requires Inv(st, busy)
    ensures Inv(st.(armed := st.armed - {h}), busy)
  {
    var st' := st.(armed := st.armed - {h});
    forall g ensures LifeOk(st', g, busy) {
      assert LifeOk(st, g, busy);
      assert IsLive(st', g) <==> IsLive(st, g);
    }
    forall f ensures Refs(st', f) == Holders(st'.timers, f) { assert Refs(st, f) == Holders(st.timers, f); }
  }

  lemma StepInv(st: Registry, e: Event)
    requires Inv(st, -1) && !st.dangling
    ensures !Step(st, e).dangling ==> Inv(Step(st, e), -1)
  {
    match e
    case Do(op) => PerformInv(st, op, -1);
    case Expire(h, script) =>
      if h in st.armed && h < |st.minted| {
        var t := st.minted[h];
        DisarmInv(st, h, -1);
        var st' := if t.repeat then st else st.(armed := st.armed - {h});
        if FirstWithId(st'.timers, t.id) < |st'.timers| { FireInv(st', t.id, script); }
      }
  }

  lemma {:induction false} RunInv(es: seq<Event>)
    requires !Run(es).dangling
    ensures Inv(Run(es), -1)
  {
    if es != [] {
      var before := Run(es[..|es| - 1]);
      assert !before.dangling;
      RunInv(es[..|es| - 1]);
      StepInv(before, es[|es| - 1]);
    }
  }

  // ---- the guarantees -----------------------------------------------------------------------

  /** The k-th id handed out, counting from 0, is (k mod 255) + 1, across all wraparounds of the
      8-bit counter; so any 255 consecutive ids differ, and none is 0. */
  lemma IdsHandedOut(es: seq<Event>, k: nat)
    requires !Run(es).dangling && k < |Run(es).minted|
    ensures var minted := Run(es).minted;
      && minted[k].id == k % 255 + 1
      && forall j :: k < j < k + 255 && j < |minted| ==> minted[j].id != minted[k].id
  {
    RunInv(es);
    forall j | k < j < k + 255 ensures j % 255 != k % 255 { ResiduesDiffer(k, j); }
  }

  lemma ResiduesDiffer(k: nat, j: nat)
    requires k < j < k + 255
    ensures j % 255 != k % 255
  {
    var q := j / 255 - k / 255;
    assert j - k == 255 * q + (j % 255 - k % 255);
  }

  function FuncsOf(ts: seq<Timer>): seq<Func> {
    seq(|ts|, i requires 0 <= i < |ts| => ts[i].func)
  }

  lemma {:induction false} HoldersCount(ts: seq<Timer>, f: Func)
    ensures Holders(ts, f) == multiset(FuncsOf(ts))[f]
  {
    if ts != [] {
      var n := |ts| - 1;
      HoldersCount(ts[..n], f);
      assert FuncsOf(ts) == FuncsOf(ts[..n]) + [ts[n].func];
    }
  }

  /** In every run the references held are exactly one for each live timer of the function, and the
      list is in order of creation. */
  lemma ReferencesBalance(es: seq<Event>, f: Func)
    requires !Run(es).dangling
    ensures (if f in Run(es).refs then Run(es).refs[f] else 0) == multiset(FuncsOf(Run(es).timers))[f]
    ensures forall i, j :: 0 <= i < j < |Run(es).timers| ==>
      Run(es).timers[i].handle < Run(es).timers[j].handle
  {
    RunInv(es);
    assert Refs(Run(es), f) == Holders(Run(es).timers, f);
    HoldersCount(Run(es).timers, f);
  }

  /** A one-shot is called at most once in its life and is gone after its call; otherwise a timer
      lives from its creation until it is cleared. */
  lemma LifeOfATimer(es: seq<Event>, h: nat)
    requires !Run(es).dangling && h < |Run(es).minted|
    ensures var st := Run(es); var t := st.minted[h];
      && (IsLive(st, h) <==> h !in st.cleared && (t.repeat || h !in st.calls))
      && (!t.repeat ==> multiset(st.calls)[h] <= 1)
  {
    RunInv(es);
    assert LifeOk(Run(es), h, -1);
  }

  /** No live timer created before `h` has its id. */
  predicate Unshadowed(st: Registry, h: nat) {
    && h < |st.minted|
    && forall i :: 0 <= i < |st.timers| && st.timers[i].handle < h ==> st.timers[i].id != st.minted[h].id
  }

  lemma OldestWithId(st: Registry, id: nat, i: nat)
    requires OrderOk(st) && i < |st.timers|
    ensures st.timers[i].id == id && Unshadowed(st, st.timers[i].handle) <==> i == FirstWithId(st.timers, id)
  {
    var k := FirstWithId(st.timers, id);
    if i == k {
      forall j | 0 <= j < |st.timers| && st.timers[j].handle < st.timers[i].handle
        ensures st.timers[j].id != id
      {
        assert j < i;
      }
    }
  }

  lemma ArmedFires(st: Registry, h: nat, script: seq<Op>)
    requires Inv(st, -1) && !st.dangling && h in st.armed
    ensures h < |st.minted|
    ensures var id := st.minted[h].id; var k := FirstWithId(st.timers, id); var st' := Expiry(st, h, script);
      && k < |st.timers|
      && st'.calls == st.calls + [st.timers[k].handle] && st'.called == st.called + [st.timers[k].func]
      && (st'.dangling <==> ClearsId(script, id))
  {
    assert LifeOk(st, h, -1);
    var i :| 0 <= i < |st.timers| && st.timers[i].handle == h;
    var id := st.minted[h].id;
    assert FirstWithId(st.timers, id) <= i;
    DisarmInv(st, h, -1);
    FireInv(if st.minted[h].repeat then st else st.(armed := st.armed - {h}), id, script);
  }

  /** An expiry calls exactly one function: that of the expired timer if and only if no older live
      timer shares its id, and otherwise that of the oldest such timer. */
  lemma ExpiryCalls(es: seq<Event>, h: nat, script: seq<Op>)
    requires !Run(es).dangling && h in Run(es).armed
    ensures h < |Run(es).minted|
    ensures var st, st' := Run(es), Run(es + [Expire(h, script)]);
      exists g: nat :: g < |st.minted| && st'.calls == st.calls + [g] && st'.called == st.called + [st.minted[g].func]
        && IsLive(st, g) && Unshadowed(st, g) && st.minted[g].id == st.minted[h].id
        && (g == h <==> Unshadowed(st, h))
  {
    var st := Run(es);
    RunInv(es);
    assert (es + [Expire(h, script)])[..|es|] == es;
    ArmedFires(st, h, script);
    var id := st.minted[h].id;
    var k := FirstWithId(st.timers, id);
    var g := st.timers[k].handle;
    assert IsLive(st, g);
    OldestWithId(st, id, k);
    assert LifeOk(st, h, -1);
    var i :| 0 <= i < |st.timers| && st.timers[i].handle == h;
    OldestWithId(st, id, i);
  }

  /** A freed timer is read exactly when a callback clears the id it was called for, by itself or by
      a number that has the same low 8 bits. */
  lemma DanglingExactlyOnSelfClear(es: seq<Event>, h: nat, script: seq<Op>)
    requires !Run(es).dangling && h in Run(es).armed
    ensures h < |Run(es).minted|
    ensures Run(es + [Expire(h, script)]).dangling <==> ClearsId(script, Run(es).minted[h].id)
  {
    RunInv(es);
    assert (es + [Expire(h, script)])[..|es|] == es;
    ArmedFires(Run(es), h, script);
  }

  /** `clearTimer(id)` removes the oldest live timer whose id is the low 8 bits of the number, or
      nothing when there is none. */
  lemma ClearRemovesOldest(es: seq<Event>, id: nat, h: nat)
    requires !Run(es).dangling
    ensures var st, st' := Run(es), Run(es + [Do(Clear(id))]);
      IsLive(st', h) <==>
        IsLive(st, h) && !(Unshadowed(st, h) && st.minted[h].id == id % 256)
  {
    var st := Run(es);
    RunInv(es);
    assert (es + [Do(Clear(id))])[..|es|] == es;
    ClearLive(st, id, h);
  }

  lemma ClearLive(st: Registry, id: nat, h: nat)
    requires OrderOk(st)
    ensures IsLive(ClearTimer(st, id), h) <==>
      IsLive(st, h) && !(Unshadowed(st, h) && st.minted[h].id == id % 256)
  {
    var k := FirstWithId(st.timers, id % 256);
    if k < |st.timers| {
      DropLive(st, k, h);
      OldestWithId(st, id % 256, k);
      assert IsLive(ClearTimer(st, id), h) <==> IsLive(Drop(st, k), h);
    }
    if IsLive(st, h) {
      var i :| 0 <= i < |st.timers| && st.timers[i].handle == h;
      OldestWithId(st, id % 256, i);
    }
  }

  /** Every live timer is among the last 255 created. */
  predicate Recent(st: Registry) {
    forall i :: 0 <= i < |st.timers| ==> |st.minted| - st.timers[i].handle <= 255
  }

  /** Then ids are pairwise distinct, so every expiry and every clear hits the timer it means. */
  lemma RecentIdsDistinct(es: seq<Event>)
    requires !Run(es).dangling && Recent(Run(es))
    ensures var st := Run(es);
      && (forall i, j :: 0 <= i < j < |st.timers| ==> st.timers[i].id != st.timers[j].id)
      && (forall i :: 0 <= i < |st.timers| ==> Unshadowed(st, st.timers[i].handle))
  {
    var st := Run(es);
    RunInv(es);
    forall i, j | 0 <= i < j < |st.timers|
      ensures st.timers[i].id != st.timers[j].id
    {
      ResiduesDiffer(st.timers[i].handle, st.timers[j].handle);
    }
  }

  // ---- timers are as they were asked for ----------------------------------------------------

  function Sets(ops: seq<Op>): seq<Op> {
    Filter((op: Op) => op.Set?, ops)
  }

  /** The timers that the events of a run ask for, in order: by calls from JavaScript, and by the
      callbacks of timers that were running when they expired.  After the read of a freed timer the
      model goes no further. */
  function Requested(es: seq<Event>): seq<Op> {
    if es == [] then []
    else
      var before := es[..|es| - 1];
      Requested(before) +
        if Run(before).dangling then []
        else
          match es[|es| - 1]
          case Do(op) => Sets([op])
          case Expire(h, script) => if h in Run(before).armed then Sets(script) else []
  }

  /** These settings are those of the timers. */
  predicate AsAsked(ts: seq<Timer>, asked: seq<Op>) {
    && |ts| == |asked|
    && forall k :: 0 <= k < |ts| ==> asked[k] == Set(ts[k].func, ts[k].repeat)
  }

  lemma SetsLast(ops: seq<Op>, op: Op)
    ensures Sets(ops + [op]) == Sets(ops) + if op.Set? then [op] else []
  {
    FilterAppend((o: Op) => o.Set?, ops, [op]);
    assert [op][1..] == [];
  }

  lemma AskedOne(st: Registry, op: Op, asked: seq<Op>)
    requires AsAsked(st.minted, asked)
    ensures AsAsked(Perform(st, op).minted, asked + if op.Set? then [op] else [])
  {
  }

  lemma {:induction false} AskedAll(st: Registry, ops: seq<Op>, asked: seq<Op>)
    requires AsAsked(st.minted, asked)
    ensures AsAsked(PerformAll(st, ops).minted, asked + Sets(ops))
  {
    if ops == [] {
      assert asked + Sets(ops) == asked;
    } else {
      var n := |ops| - 1;
      AskedAll(st, ops[..n], asked);
      AskedOne(PerformAll(st, ops[..n]), ops[n], asked + Sets(ops[..n]));
      assert ops == ops[..n] + [ops[n]];
      SetsLast(ops[..n], ops[n]);
      var more: seq<Op> := if ops[n].Set? then [ops[n]] else [];
      assert asked + Sets(ops[..n]) + more == asked + (Sets(ops[..n]) + more);
    }
  }

  lemma AskedExpiry(st: Registry, h: nat, script: seq<Op>, asked: seq<Op>)
    requires Inv(st, -1) && !st.dangling && AsAsked(st.minted, asked)
    ensures AsAsked(Expiry(st, h, script).minted, asked + if h in st.armed then Sets(script) else [])
  {
    if h in st.armed {
      ArmedFires(st, h, script);
      var t := st.minted[h];
      var st1 := if t.repeat then st else st.(armed := st.armed - {h});
      var called := st1.timers[FirstWithId(st1.timers, t.id)];
      AskedAll(Call(st1, called), script, asked);
    } else {
      assert asked + [] == asked;
    }
  }

  lemma AskedStep(st: Registry, e: Event, asked: seq<Op>)
    requires Inv(st, -1) && !st.dangling && AsAsked(st.minted, asked)
    ensures AsAsked(Step(st, e).minted, asked + match e
      case Do(op) => Sets([op])
      case Expire(h, script) => if h in st.armed then Sets(script) else [])
  {
    match e
    case Do(op) =>
      AskedOne(st, op, asked);
      SetsLast([], op);
      assert [] + [op] == [op];
    case Expire(h, script) => AskedExpiry(st, h, script, asked);
  }

  /** In every run the timers created are exactly those asked for, in order, each with the function and
      the kind asked for, whether JavaScript asked at its own time or from a timer's callback. */
  lemma {:induction false} TimersAreAsAsked(es: seq<Event>)
    ensures var minted := Run(es).minted;
      && |minted| == |Requested(es)|
      && forall k :: 0 <= k < |minted| ==> Requested(es)[k] == Set(minted[k].func, minted[k].repeat)
  {
    if es != [] {
      var before := es[..|es| - 1];
      TimersAreAsAsked(before);
      assert AsAsked(Run(before).minted, Requested(before));
      if Run(before).dangling {
        assert Requested(es) == Requested(before);
      } else {
        RunInv(before);
        AskedStep(Run(before), es[|es| - 1], Requested(before));
        assert AsAsked(Run(es).minted, Requested(es));
      }
    }
  }

  /** A timer that JavaScript sets is live and running at once, with the function and the kind it was
      set with, at the end of the list, and with one more reference to its function. */
  lemma SetTakesEffect(es: seq<Event>, f: Func, repeat: bool)
    requires !Run(es).dangling
    ensures var st, st' := Run(es), Run(es + [Do(Set(f, repeat))]);
      && |st'.timers| == |st.timers| + 1 && st'.timers[..|st.timers|] == st.timers
      && var t := st'.timers[|st.timers|];
         && t.func == f && t.repeat == repeat && t.id == |st.minted| % 255 + 1
         && st'.minted == st.minted + [t] && t.handle == |st.minted| && st'.armed == st.armed + {t.handle}
         && IsLive(st', t.handle)
         && f in st'.refs && st'.refs[f] == (if f in st.refs then st.refs[f] else 0) + 1
  {
    RunInv(es);
    assert (es + [Do(Set(f, repeat))])[..|es|] == es;
    MintLive(Run(es), f, repeat, |Run(es).minted|);
  }

  lemma {:induction false} ArmsOnlyNew(st: Registry, ops: seq<Op>, h: nat)
    requires h < |st.minted| && h !in st.armed
    ensures h !in PerformAll(st, ops).armed
  {
    if ops != [] {
      ArmsOnlyNew(st, ops[..|ops| - 1], h);
      ScriptHistory(st, ops[..|ops| - 1]);
    }
  }

  /** A one-shot does not run again after it has expired, even if its callback never came because an
      older timer shares its id. */
  lemma OneShotExpiresOnce(es: seq<Event>, h: nat, script: seq<Op>)
    requires !Run(es).dangling && h in Run(es).armed
    ensures h < |Run(es).minted|
    ensures !Run(es).minted[h].repeat ==> h !in Run(es + [Expire(h, script)]).armed
  {
    var st := Run(es);
    RunInv(es);
    assert (es + [Expire(h, script)])[..|es|] == es;
    ArmedFires(st, h, script);
    if !st.minted[h].repeat {
      var st1 := st.(armed := st.armed - {h});
      ArmsOnlyNew(Call(st1, st1.timers[FirstWithId(st1.timers, st.minted[h].id)]), script, h);
    }
  }

  // ---- no timer is lost ---------------------------------------------------------------------

  /** Every live timer but `h` is still running, so its callback will come. */
  predicate ArmedBut(st: Registry, h: int) {
    forall i :: 0 <= i < |st.timers| && st.timers[i].handle != h ==> st.timers[i].handle in st.armed
  }

  lemma ArmedPerform(st: Registry, op: Op, h: int)
    requires OrderOk(st) && ArmedBut(st, h)
    ensures ArmedBut(Perform(st, op), h)
  {
    match op
    case Set(_, _) =>
    case Clear(id) =>
      var k := FirstWithId(st.timers, id % 256);
      if k < |st.timers| { ArmedDrop(st, k, h); }
  }

  lemma ArmedDrop(st: Registry, k: nat, h: int)
    requires OrderOk(st) && k < |st.timers| && ArmedBut(st, h)
    ensures ArmedBut(Drop(st, k), h)
    ensures st.timers[k].handle == h ==> ArmedBut(Drop(st, k), -1)
  {
    var r := RemoveAt(st.timers, k);
    assert forall i :: 0 <= i < |r| ==> r[i] == st.timers[if i < k then i else i + 1];
  }

  lemma {:induction false} ArmedPerformAll(st: Registry, ops: seq<Op>, h: int, busy: int)
    requires Inv(st, busy) && busy < |st.minted| && ArmedBut(st, h)
    ensures ArmedBut(PerformAll(st, ops), h)
  {
    if ops != [] {
      ArmedPerformAll(st, ops[..|ops| - 1], h, busy);
      PerformAllInv(st, ops[..|ops| - 1], busy);
      ArmedPerform(PerformAll(st, ops[..|ops| - 1]), ops[|ops| - 1], h);
    }
  }

  lemma ArmedFire(st: Registry, k: nat, script: seq<Op>)
    requires Inv(st, -1) && !st.dangling && k < |st.timers| && FirstWithId(st.timers, st.timers[k].id) == k
    requires ArmedBut(st, if st.timers[k].repeat then -1 else st.timers[k].handle)
    requires !Fire(st, st.timers[k].id, script).dangling
    ensures ArmedBut(Fire(st, st.timers[k].id, script), -1)
  {
    var t := st.timers[k];
    var but := if t.repeat then -1 else t.handle;
    var st1 := Call(st, t);
    CallStarts(st, k);
    PerformAllInv(st1, script, t.handle);
    ArmedPerformAll(st1, script, but, t.handle);
    var st2 := PerformAll(st1, script);
    var k' := IndexOf(st2.timers, t.handle);
    if !t.repeat { ArmedDrop(st2, k', but); }
  }

  lemma ArmedStep(st: Registry, e: Event)
    requires Inv(st, -1) && !st.dangling && !Step(st, e).dangling && ArmedBut(st, -1)
    requires forall i :: 0 <= i < |st.timers| ==> Unshadowed(st, st.timers[i].handle)
    ensures ArmedBut(Step(st, e), -1)
  {
    match e
    case Do(op) => ArmedPerform(st, op, -1);
    case Expire(h, script) =>
      if h in st.armed && h < |st.minted| { ArmedExpiry(st, h, script); }
  }

  lemma ArmedExpiry(st: Registry, h: nat, script: seq<Op>)
    requires Inv(st, -1) && !st.dangling && !Expiry(st, h, script).dangling && ArmedBut(st, -1)
    requires forall i :: 0 <= i < |st.timers| ==> Unshadowed(st, st.timers[i].handle)
    requires h in st.armed && h < |st.minted|
    ensures ArmedBut(Expiry(st, h, script), -1)
  {
    assert LifeOk(st, h, -1);
    var i :| 0 <= i < |st.timers| && st.timers[i].handle == h;
    assert st.timers[i] == st.minted[h];
    OldestWithId(st, st.minted[h].id, i);
    DisarmInv(st, h, -1);
    ArmedFire(if st.timers[i].repeat then st else st.(armed := st.armed - {h}), i, script);
  }

  /** While every live timer is among the last 255 created, none is ever lost: each live timer is
      still running. */
  lemma {:induction false} NoTimerIsLost(es: seq<Event>)
    requires !Run(es).dangling && forall n :: 0 <= n <= |es| ==> Recent(Run(es[..n]))
    ensures forall i :: 0 <= i < |Run(es).timers| ==> Run(es).timers[i].handle in Run(es).armed
  {
    if es == [] { return; }
    var before := es[..|es| - 1];
    forall n | 0 <= n <= |before| ensures Recent(Run(before[..n])) { assert before[..n] == es[..n]; }
    assert before[..|before|] == before;
    NoTimerIsLost(before);
    RunInv(before);
    RecentIdsDistinct(before);
    ArmedStep(Run(before), es[|es| - 1]);
    assert ArmedBut(Run(es), -1);
  }
}
