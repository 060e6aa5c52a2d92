/** mnode_module_timer.c itself: the handlers and the FreeRTOS callback over the linked list, each
    proved to do to the registry's value what module Timers says. */
module TimerModule {
  import opened Sequences
  import opened LinkedList
  import opened Timers

  class TimerState {
    const list: List<Timer>       // timerIdList
    var timerId: nat              // uint8_t
    var refs: map<Func, int>
    var armed: set<nat>           // the FreeRTOS timers that are running
    var minted: seq<Timer>        // what each FreeRTOS timer was created with
    ghost var calls: seq<nat>
    ghost var called: seq<Func>   // the functions that were called
    ghost var cleared: set<nat>
    var dangling: bool            // the C code has read a timer it freed; the model goes no further

    ghost predicate Valid()
      reads this, list, list.nodes
    {
      && list.Valid() && !list.free
      && timerId < 256
    }

    ghost function View(): Registry
      reads this, list, list.nodes
    {
      Registry(Vals(list.nodes), timerId, refs, armed, minted, calls, called, cleared, dangling)
    }

    constructor ()
      ensures Valid() && fresh(list) && View() == EMPTY
    {
      list := new List<Timer>();
      timerId := 0;
      refs := map[];
      armed := {};
      minted := [];
      calls := [];
      called := [];
      cleared := {};
      dangling := false;
      new;
      assert Vals(list.nodes) == [];
    }

    method Register(timer: Timer, ghost was: set<Node<Timer>>) returns (ghost node: Node<Timer>)
      requires list.Valid() && !list.free && (forall n :: n in list.nodes ==> n in was)
      modifies list, was
      ensures list.Valid() && !list.free && fresh(node) && list.nodes == old(list.nodes) + [node]
      ensures list.freed == old(list.freed) && node.val == timer
      ensures Vals(list.nodes) == Vals(old(list.nodes)) + [timer]
    {
      var n := new Node(timer);
      node := n;
      var _ := list.RPush(n);
      assert Vals(list.nodes) == Vals(old(list.nodes)) + [timer];
    }

    method AddTimer(func: Func, repeat: bool, ghost was: set<Node<Timer>>)
      returns (id: nat, ghost node: Node<Timer>)
      requires Valid() && (forall n :: n in list.nodes ==> n in was)
      modifies this, list, was
      ensures Valid() && View() == Mint(old(View()), func, repeat)
      ensures id == NextId(old(timerId)) && fresh(node) && list.nodes == old(list.nodes) + [node]
      ensures node.val == Timer(func, id, |old(minted)|, repeat) && minted == old(minted) + [node.val]
      ensures list.freed == old(list.freed)
    {
      if timerId == 0 {
        timerId := 1;
      }
      var timer := Timer(func, timerId, |minted|, repeat);
      node := Register(timer, was);
      id := timerId;
      Account(timer);
    }

    /** Acquires the function, creates and starts the FreeRTOS timer, and steps the id counter. */
    method Account(timer: Timer)
      modifies this`refs, this`armed, this`minted, this`timerId
      ensures refs == old(refs)[timer.func := (if timer.func in old(refs) then old(refs)[timer.func] else 0) + 1]
      ensures armed == old(armed) + {timer.handle}
      ensures minted == old(minted) + [timer] && timerId == (old(timerId) + 1) % 256
    {
      refs := refs[timer.func := (if timer.func in refs then refs[timer.func] else 0) + 1];
      armed := armed + {timer.handle};
      minted := minted + [timer];
      timerId := (timerId + 1) % 256;
    }

    method SetInterval(func: Func, ghost was: set<Node<Timer>>) returns (id: nat, ghost node: Node<Timer>)
      requires Valid() && (forall n :: n in list.nodes ==> n in was)
      modifies this, list, was
      ensures Valid() && View() == Mint(old(View()), func, true)
      ensures id == (if old(timerId) == 0 then 1 else old(timerId))
      ensures fresh(node) && list.nodes == old(list.nodes) + [node]
      ensures node.val.func == func && node.val.repeat == true && node.val.id == id
      ensures minted == old(minted) + [node.val] && armed == old(armed) + {node.val.handle}
      ensures list.freed == old(list.freed)
    {
      id, node := AddTimer(func, true, was);
    }

    method SetTimeout(func: Func, ghost was: set<Node<Timer>>) returns (id: nat, ghost node: Node<Timer>)
      requires Valid() && (forall n :: n in list.nodes ==> n in was)
      modifies this, list, was
      ensures Valid() && View() == Mint(old(View()), func, false)
      ensures id == (if old(timerId) == 0 then 1 else old(timerId))
      ensures fresh(node) && list.nodes == old(list.nodes) + [node]
      ensures node.val.func == func && node.val.repeat == false && node.val.id == id
      ensures minted == old(minted) + [node.val] && armed == old(armed) + {node.val.handle}
      ensures list.freed == old(list.freed)
    {
      id, node := AddTimer(func, false, was);
    }

    /** The scan both `timeout_callback` and `clearTimer` begin with. */
    method FindTimer(id: nat) returns (node: Node?<Timer>)
      requires Valid()
      ensures var k := FirstWithId(Vals(list.nodes), id);
        if k == |list.nodes| then node == null else node == list.nodes[k]
    {
      var it := new Iterator<Timer>(list, FromHead);
      node := it.Next();
      ghost var i := 0;
      while node != null && node.val.id != id
        invariant i <= |list.nodes| && node == NodeAt(list.nodes, FromHead, i)
        invariant node != null ==> it.next == NodeAt(list.nodes, FromHead, i + 1)
        invariant it.direction == FromHead && fresh(it)
        invariant forall j :: 0 <= j < i ==> Vals(list.nodes)[j].id != id
        decreases |list.nodes| - i
      {
        node := it.Next();
        i := i + 1;
      }
      if node != null { FirstIs(Vals(list.nodes), id, i); }
    }

    method Release(timer: Timer)
      modifies this`refs, this`armed
      ensures refs == old(refs)[timer.func := (if timer.func in old(refs) then old(refs)[timer.func] else 0) - 1]
      ensures armed == old(armed) - {timer.handle}
    {
      refs := refs[timer.func := (if timer.func in refs then refs[timer.func] else 0) - 1];
      armed := armed - {timer.handle};
    }

    /** Releases the timer's function, deletes its FreeRTOS timer, and removes its node. */
    method DropTimer(node: Node<Timer>, ghost was: set<Node<Timer>>) returns (ghost k: nat)
      requires Valid() && node in list.nodes && (forall n :: n in list.nodes ==> n in was)
      modifies this`refs, this`armed, list, was
      ensures Valid() && k < |old(list.nodes)| && old(list.nodes)[k] == node
      ensures list.nodes == RemoveAt(old(list.nodes), k) && list.freed == old(list.freed) + [node]
      ensures View() == Drop(old(View()), k)
    {
      Release(node.val);
      k := list.Remove(node);
      ValsRemoveAt(old(list.nodes), k);
    }

    /** `clearTimer`. */
    method ClearById(id: nat, ghost was: set<Node<Timer>>)
      requires Valid() && (forall n :: n in list.nodes ==> n in was)
      modifies this, list, was
      ensures Valid() && View() == ClearTimer(old(View()), id)
      ensures var k := FirstWithId(Vals(old(list.nodes)), id % 256);
        if k == |old(list.nodes)| then list.nodes == old(list.nodes) && list.freed == old(list.freed)
        else
          && list.nodes == RemoveAt(old(list.nodes), k)
          && list.freed == old(list.freed) + [old(list.nodes)[k]]
    {
      var node := FindTimer(id % 256);
      if node != null {
        ghost var k := DropTimer(node, was);
        assert k == FirstWithId(Vals(old(list.nodes)), id % 256);
        cleared := cleared + {node.val.handle};
      }
    }

    method DoSet(func: Func, repeat: bool, ghost was: set<Node<Timer>>) returns (ghost now: set<Node<Timer>>)
      requires Valid() && (forall n :: n in list.nodes ==> n in was)
      modifies this, list, was
      ensures Valid() && View() == Mint(old(View()), func, repeat) && Covers(was, now)
      ensures (forall n :: n in old(list.nodes) ==> n in list.nodes) && list.freed == old(list.freed)
    {
      ghost var node: Node<Timer>;
      var id;
      if repeat {
        id, node := SetInterval(func, was);
      } else {
        id, node := SetTimeout(func, was);
      }
      now := was + {node};
    }

    /** A handler called from JavaScript: a node stays in the list unless it is freed, which only
        clearing its id can do. */
    method DoOp(op: Op, ghost was: set<Node<Timer>>) returns (ghost now: set<Node<Timer>>)
      requires Valid() && (forall n :: n in list.nodes ==> n in was)
      modifies this, list, was
      ensures Valid() && View() == Perform(old(View()), op) && Covers(was, now)
      ensures forall n :: n in old(list.nodes) ==> n in list.nodes || (n in list.freed && Clears(op, n.val.id))
      ensures forall n :: n in old(list.freed) ==> n in list.freed
    {
      match op
      case Set(func, repeat) => now := DoSet(func, repeat, was);
      case Clear(id) =>
        now := was;
        OthersStay(list.nodes, id % 256);
        ClearById(id, was);
    }

    lemma OthersStay(nodes: seq<Node<Timer>>, id: nat)
      ensures var k := FirstWithId(Vals(nodes), id);
        k < |nodes| ==>
          && nodes[k].val.id == id
          && (forall n :: n in nodes && n != nodes[k] ==> n in RemoveAt(nodes, k))
          && (forall n :: n in RemoveAt(nodes, k) ==> n in nodes)
    {
      var k := FirstWithId(Vals(nodes), id);
      if k < |nodes| {
        assert nodes == nodes[..k] + [nodes[k]] + nodes[k + 1..];
        assert nodes[k].val.id == id;
      }
    }

    /** The function the callback calls: it may create and clear timers, its own included. */
    method RunScript(script: seq<Op>, node: Node<Timer>, ghost was: set<Node<Timer>>)
      returns (ghost now: set<Node<Timer>>)
      requires Valid() && (forall n :: n in list.nodes ==> n in was)
      requires node in list.nodes
      modifies this, list, was
      ensures Valid() && View() == PerformAll(old(View()), script)
      ensures node in list.nodes || (node in list.freed && ClearsId(script, node.val.id))
      ensures Covers(was, now)
    {
      now := was;
      for i := 0 to |script|
        invariant Valid() && View() == PerformAll(old(View()), script[..i])
        invariant node in list.nodes || (node in list.freed && ClearsId(script[..i], node.val.id))
        invariant forall n :: n in list.nodes ==> n in now
        invariant was <= now && fresh(now - was)
      {
        PrefixOfScript(old(View()), script, i, node.val.id);
        now := DoOp(script[i], now);
      }
      assert script[..|script|] == script;
    }

    /** The footprint of the list's nodes, grown by new ones. */
    twostate predicate Covers(was: set<Node<Timer>>, new now: set<Node<Timer>>)
      reads this, list
    {
      && was <= now && fresh(now - was)
      && forall n :: n in list.nodes ==> n in now
    }

    /** `js_call_func_obj`, as the registry records it. */
    ghost method CallFunction(timer: Timer)
      modifies this`calls, this`called
      ensures calls == old(calls) + [timer.handle] && called == old(called) + [timer.func]
      ensures View() == Call(old(View()), timer)
    {
      calls, called := calls + [timer.handle], called + [timer.func];
    }

    /** `timeout_callback` for the FreeRTOS timer with this id, whose function runs `script`. */
    method TimeoutCallback(id: nat, script: seq<Op>, ghost was: set<Node<Timer>>)
      returns (ghost now: set<Node<Timer>>)
      requires Valid() && (forall n :: n in list.nodes ==> n in was)
      requires Inv(View(), -1) && !dangling
      modifies this, list, was
      ensures Valid() && View() == Fire(old(View()), id, script)
      ensures Covers(was, now)
    {
      now := was;
      ghost var st := View();
      var node := FindTimer(id);
      if node != null {
        CallFunction(node.val);
        now := RunScript(script, node, was);
        FinishCallback(node, id, script, st, now);
      }
    }

    /** What follows the call: a one-shot is dropped.  The code looks at the timer again for this, so
        if the node has been freed, it reads freed memory. */
    method FinishCallback(node: Node<Timer>, ghost id: nat, ghost script: seq<Op>, ghost st: Registry,
                          ghost was: set<Node<Timer>>)
      requires Valid() && (forall n :: n in list.nodes ==> n in was)
      requires Inv(st, -1) && !st.dangling && FirstWithId(st.timers, id) < |st.timers|
      requires node.val == st.timers[FirstWithId(st.timers, id)]
      requires View() == PerformAll(Call(st, node.val), script)
      requires node in list.nodes || (node in list.freed && ClearsId(script, id))
      modifies this, list, was
      ensures Valid() && View() == Fire(st, id, script)
      ensures forall n :: n in list.nodes ==> n in was
    {
      FreedExactly(node, id, script, st);
      ghost var at := 0;
      if node in list.freed {
        dangling := true;
      } else {
        at := DropOneShot(node, was);
      }
      FireAfterScript(st, id, script, at);
    }

    /** The node of the called timer is freed exactly if the script has cleared the timer's id. */
    lemma FreedExactly(node: Node<Timer>, id: nat, script: seq<Op>, st: Registry)
      requires Valid() && (node in list.nodes || (node in list.freed && ClearsId(script, id)))
      requires Inv(st, -1) && FirstWithId(st.timers, id) < |st.timers|
      requires node.val == st.timers[FirstWithId(st.timers, id)]
      requires View() == PerformAll(Call(st, node.val), script)
      ensures node in list.freed <==> ClearsId(script, id)
    {
      if node in list.nodes {
        GoneExactly(st, id, script);
        var i :| 0 <= i < |list.nodes| && list.nodes[i] == node;
        assert View().timers[i] == node.val;
      }
    }

    method DropOneShot(node: Node<Timer>, ghost was: set<Node<Timer>>) returns (ghost at: nat)
      requires Valid() && node in list.nodes && forall n :: n in list.nodes ==> n in was
      modifies this`refs, this`armed, list, was
      ensures Valid() && at < |old(View()).timers| && old(View()).timers[at] == node.val
      ensures View() == if node.val.repeat then old(View()) else Drop(old(View()), at)
      ensures forall n :: n in list.nodes ==> n in was
    {
      if node.val.repeat {
        at :| at < |list.nodes| && list.nodes[at] == node;
      } else {
        at := DropTimer(node, was);
      }
    }

    /** FreeRTOS lets a running timer expire: a one-shot stops, and the callback gets the id. */
    method LetExpire(h: nat, script: seq<Op>, ghost was: set<Node<Timer>>)
      returns (ghost now: set<Node<Timer>>)
      requires Valid() && (forall n :: n in list.nodes ==> n in was)
      requires Inv(View(), -1) && !dangling
      modifies this, list, was
      ensures Valid() && View() == Expiry(old(View()), h, script)
      ensures Covers(was, now)
    {
      if h !in armed || h >= |minted| {
        return was;
      }
      ghost var st := View();
      DisarmInv(st, h, -1);
      if !minted[h].repeat {
        armed := armed - {h};
      }
      now := TimeoutCallback(minted[h].id, script, was);
    }

    /** One event: a handler called from JavaScript, or an expiry. */
    method Handle(e: Event, ghost was: set<Node<Timer>>) returns (ghost now: set<Node<Timer>>)
      requires Valid() && (forall n :: n in list.nodes ==> n in was)
      requires dangling || Inv(View(), -1)
      modifies this, list, was
      ensures Valid() && View() == Step(old(View()), e)
      ensures Covers(was, now)
    {
      if dangling {
        return was;
      }
      match e
      case Do(op) => now := DoOp(op, was);
      case Expire(h, script) => now := LetExpire(h, script, was);
    }

    /** The handlers over the linked list, run on any events from the empty registry, end where the
        registry's value does. */
    method Replay(es: seq<Event>)
      requires Valid() && View() == EMPTY && list.nodes == []
      modifies this, list
      ensures Valid() && View() == Run(es)
    {
      ghost var now: set<Node<Timer>> := {};
      assert es[..0] == [];
      for i := 0 to |es|
        invariant Valid() && View() == Run(es[..i])
        invariant fresh(now) && forall n :: n in list.nodes ==> n in now
      {
        if !dangling { RunInv(es[..i]); }
        assert es[..i + 1][..i] == es[..i];
        now := Handle(es[i], now);
      }
      assert es[..|es|] == es;
    }
  }
}
