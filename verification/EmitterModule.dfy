/** mnode_event.c itself: a chain of events, each with a chain of listeners, relinked and freed in
    place.  Whatever the code reads of a node goes through a function that requires the node not to
    have been freed, and `Free` requires it too, so what verifies here frees each node at most once
    and looks at none afterwards. */
module EmitterModule {
  import opened Sequences
  import opened Events
  import opened Emission

  class Listener {
    const func: Func
    var next: Listener?
    ghost const owner: EventNode
    var freed: bool               // kept so that a read after the free can be told

    constructor (func: Func, ghost owner: EventNode)
      ensures this.func == func && this.owner == owner && next == null && !freed
    {
      this.func := func;
      this.owner := owner;
      next := null;
      freed := false;
    }

    function Func(): Func
      requires !freed
      reads this
    {
      func
    }

    function Next(): Listener?
      requires !freed
      reads this
    {
      next
    }

    method Free()
      requires !freed
      modifies this`freed
      ensures freed
    {
      freed := true;
    }
  }

  class EventNode {
    const name: string
    var listeners: Listener?
    var next: EventNode?
    ghost var freed: bool
    ghost var nameFreed: bool     // the copy of the name is a block of its own

    constructor (name: string)
      ensures this.name == name && listeners == null && next == null && !freed && !nameFreed
    {
      this.name := name;
      listeners := null;
      next := null;
      freed := false;
      nameFreed := false;
    }

    function Name(): string
      requires !freed && !nameFreed
      reads this
    {
      name
    }

    method FreeName()
      requires !freed && !nameFreed
      modifies this`nameFreed
      ensures nameFreed
    {
      nameFreed := true;
    }

    function Next(): EventNode?
      requires !freed
      reads this
    {
      next
    }

    function Listeners(): Listener?
      requires !freed
      reads this
    {
      listeners
    }

    method Free()
      requires !freed
      modifies this`freed
      ensures freed
    {
      freed := true;
    }
  }

  function ListenerAt(c: seq<Listener>, a: nat): Listener? {
    if a < |c| then c[a] else null
  }

  function Funcs(c: seq<Listener>): (fs: seq<Func>)
    ensures |fs| == |c|
    ensures forall a :: 0 <= a < |c| ==> fs[a] == c[a].func
  {
    seq(|c|, a requires 0 <= a < |c| => c[a].func)
  }

  /** `c` is a chain of live listener nodes of event `e`. */
  ghost predicate Links(e: EventNode, c: seq<Listener>)
    reads c
  {
    && Distinct(c)
    && (forall a {:trigger c[a].next} :: 0 <= a < |c| ==> c[a].next == ListenerAt(c, a + 1))
    && (forall a :: 0 <= a < |c| ==> !c[a].freed && c[a].owner == e)
  }

  ghost predicate Chain(e: EventNode, c: seq<Listener>)
    reads e`listeners, c
  {
    e.listeners == ListenerAt(c, 0) && Links(e, c)
  }

  // ---- the listeners of one event -----------------------------------------------------------

  /** `find_listener`: the first one with the function. */
  method FindListener(e: EventNode, func: Func, ghost c: seq<Listener>) returns (l: Listener?)
    requires !e.freed && Chain(e, c)
    ensures l == ListenerAt(c, FindFunc(Funcs(c), func))
  {
    l := e.Listeners();
    ghost var a := 0;
    while l != null && l.Func() != func
      invariant a <= |c| && l == ListenerAt(c, a)
      invariant forall b :: 0 <= b < a ==> Funcs(c)[b] != func
      decreases |c| - a
    {
      l := l.Next();
      a := a + 1;
    }
    FuncIs(Funcs(c), func, a);
  }

  lemma FuncIs(fs: seq<Func>, f: Func, k: nat)
    requires k <= |fs| && (k < |fs| ==> fs[k] == f) && forall j :: 0 <= j < k ==> fs[j] != f
    ensures FindFunc(fs, f) == k
  {
  }

  method AppendListener(e: EventNode, l: Listener, ghost c: seq<Listener>)
    requires !e.freed && Chain(e, c)
    requires l !in c && l.next == null && !l.freed && l.owner == e
    modifies e`listeners, c`next
    ensures Chain(e, c + [l])
  {
    if e.Listeners() == null {
      e.listeners := l;
      return;
    }
    var last := e.Listeners();
    ghost var a := 0;
    while last.Next() != null
      invariant a < |c| && last == c[a]
      decreases |c| - a
    {
      last := last.Next();
      a := a + 1;
    }
    last.next := l;
  }

  /** `remove_listener` as written: when the node is the head the whole chain is dropped. */
  method Unlink(e: EventNode, l: Listener, ghost c: seq<Listener>, ghost j: nat)
    requires !e.freed && Chain(e, c) && j < |c| && c[j] == l
    modifies e`listeners, c`next
    ensures l.next == old(l.next) && (j == 0 ==> forall b :: 0 <= b < |c| ==> c[b].next == old(c[b].next))
    ensures Chain(e, Rest(c, j))
  {
    if e.Listeners() == l || e.Listeners() == null {
      e.listeners := null;
      return;
    }
    var prev := e.Listeners();
    ghost var a := 0;
    while prev.Next() != l
      invariant a < j && prev == c[a]
      decreases j - a
    {
      prev := prev.Next();
      a := a + 1;
    }
    prev.next := l.Next();
    RemoveAtKeeps(c, j);
    forall b | 0 <= b < |c| - 1
      ensures RemoveAt(c, j)[b] == c[if b < j then b else b + 1]
    {
    }
  }

  /** What `remove_listener` leaves of a chain when it takes out node `j`. */
  function Rest(c: seq<Listener>, j: nat): seq<Listener>
    requires j < |c|
  {
    if j == 0 then [] else RemoveAt(c, j)
  }

  lemma FuncsWithout(c: seq<Listener>, f: Func)
    requires FindFunc(Funcs(c), f) < |c|
    ensures Funcs(Rest(c, FindFunc(Funcs(c), f))) == WithoutListener(Funcs(c), f)
    ensures forall l :: l in Rest(c, FindFunc(Funcs(c), f)) ==> l in c
  {
    var j := FindFunc(Funcs(c), f);
    assert Funcs(RemoveAt(c, j)) == RemoveAt(Funcs(c), j);
  }

  method UnlinkAndFree(e: EventNode, l: Listener, ghost c: seq<Listener>, ghost j: nat)
    requires !e.freed && Chain(e, c) && j < |c| && c[j] == l
    modifies e`listeners, c`next, l`freed
    ensures l.freed && Chain(e, Rest(c, j))
    ensures forall x :: x in c && x !in Rest(c, j) ==> x.next == old(x.next)
  {
    RemoveAtKeeps(c, j);
    Unlink(e, l, c, j);
    l.Free();
  }

  /** Frees a whole chain, reading each node's successor before it goes. */
  method FreeChain(first: Listener?, ghost e: EventNode, ghost c: seq<Listener>)
    requires first == ListenerAt(c, 0) && Links(e, c)
    modifies c`freed
    ensures forall a :: 0 <= a < |c| ==> c[a].freed
  {
    var l := first;
    ghost var a := 0;
    while l != null
      invariant a <= |c| && l == ListenerAt(c, a)
      invariant forall b :: 0 <= b < a ==> c[b].freed
      invariant forall b :: a <= b < |c| ==> !c[b].freed
      decreases |c| - a
    {
      var gone := l;
      l := l.Next();
      gone.Free();
      a := a + 1;
    }
  }

  // ---- the emitter --------------------------------------------------------------------------

  function EventAt(evs: seq<EventNode>, i: nat): EventNode? {
    if i < |evs| then evs[i] else null
  }

  function Rows(evs: seq<EventNode>, chains: seq<seq<Listener>>): (t: Table)
    requires |chains| == |evs|
    ensures |t| == |evs|
    ensures forall i :: 0 <= i < |evs| ==> t[i] == Entry(evs[i].name, Funcs(chains[i]))
  {
    seq(|evs|, i requires 0 <= i < |evs| => Entry(evs[i].name, Funcs(chains[i])))
  }

  lemma RowsRemoveAt(evs: seq<EventNode>, chains: seq<seq<Listener>>, k: nat)
    requires |chains| == |evs| && k < |evs|
    ensures Rows(RemoveAt(evs, k), RemoveAt(chains, k)) == RemoveAt(Rows(evs, chains), k)
  {
  }

  /** Whose nodes are whose: names are distinct, and every node is in the emitter's footprint. */
  ghost predicate Owned(evs: seq<EventNode>, chains: seq<seq<Listener>>, repr: set<object>) {
    && |chains| == |evs|
    && (forall i :: 0 <= i < |evs| ==> evs[i] in repr)
    && (forall i, a :: 0 <= i < |chains| && 0 <= a < |chains[i]| ==> chains[i][a] in repr)
    && (forall i, j :: 0 <= i < j < |evs| ==> evs[i].name != evs[j].name)
  }

  /** The events are linked in this order, and none is freed. */
  ghost predicate Spine(first: EventNode?, evs: seq<EventNode>)
    reads evs
  {
    && first == EventAt(evs, 0)
    && (forall i {:trigger evs[i].next} :: 0 <= i < |evs| ==> evs[i].next == EventAt(evs, i + 1))
    && (forall i :: 0 <= i < |evs| ==> !evs[i].freed && !evs[i].nameFreed)
  }

  ghost predicate Chains(evs: seq<EventNode>, chains: seq<seq<Listener>>, repr: set<object>)
    requires Owned(evs, chains, repr)
    reads repr
  {
    forall i :: 0 <= i < |evs| ==> Chain(evs[i], chains[i])
  }

  ghost function NodesOf(c: seq<Listener>): set<Listener> {
    set l | l in c
  }

  /** The listeners of the first `n` chains. */
  ghost function Members(chains: seq<seq<Listener>>, n: nat): set<Listener>
    requires n <= |chains|
  {
    set i, a | 0 <= i < n && 0 <= a < |chains[i]| :: chains[i][a]
  }

  lemma MembersNext(chains: seq<seq<Listener>>, n: nat)
    requires n < |chains|
    ensures Members(chains, n + 1) == Members(chains, n) + NodesOf(chains[n])
  {
    forall l | l in chains[n] ensures l in Members(chains, n + 1) {
      var a :| 0 <= a < |chains[n]| && chains[n][a] == l;
    }
  }

  lemma MembersNone(cs: seq<seq<Listener>>)
    ensures Members(cs + [[]], |cs| + 1) == Members(cs, |cs|)
  {
    var n, cs' := |cs|, cs + [[]];
    MembersNext(cs', n);
    assert forall i :: 0 <= i < n ==> cs'[i] == cs[i];
    forall l ensures l in Members(cs', n) <==> l in Members(cs, n) {
      if l in Members(cs', n) { var i, a :| 0 <= i < n && 0 <= a < |cs'[i]| && cs'[i][a] == l; assert cs[i][a] == l; }
      if l in Members(cs, n) { var i, a :| 0 <= i < n && 0 <= a < |cs[i]| && cs[i][a] == l; assert cs'[i][a] == l; }
    }
  }

  lemma ChainInMembers(cs: seq<seq<Listener>>, k: nat)
    requires k < |cs|
    ensures forall l :: l in cs[k] ==> l in Members(cs, |cs|)
  {
  }

  /** The chains once an operation has removed what it removes, and the listeners it frees. */
  ghost function ChainsAfter(t: Table, cs: seq<seq<Listener>>, op: Op): seq<seq<Listener>>
    requires |cs| == |t|
  {
    match op
    case AddOn(_, _) => cs
    case DropListener(name, f) =>
      var k := FindName(t, name);
      if k < |t| && FindFunc(t[k].funcs, f) < |cs[k]| then cs[k := Rest(cs[k], FindFunc(t[k].funcs, f))] else cs
    case DropAll(name) =>
      var k := FindName(t, name);
      if k < |t| then cs[k := []] else cs
    case DropEvent(name) =>
      var k := FindName(t, name);
      if k < |t| then RemoveAt(cs, k) else cs
    case Destroy => []
  }

  ghost function FreedBy(t: Table, cs: seq<seq<Listener>>, op: Op): set<Listener>
    requires |cs| == |t|
  {
    match op
    case AddOn(_, _) => {}
    case DropListener(name, f) =>
      var k := FindName(t, name);
      if k < |t| && FindFunc(t[k].funcs, f) < |cs[k]| then {cs[k][FindFunc(t[k].funcs, f)]} else {}
    case DropAll(name) =>
      var k := FindName(t, name);
      if k < |t| then NodesOf(cs[k]) else {}
    case DropEvent(name) =>
      var k := FindName(t, name);
      if k < |t| then NodesOf(cs[k]) else {}
    case Destroy => Members(cs, |cs|)
  }

  /** Which listeners those are: of the events with the operation's name, or of all when the emitter is
      destroyed; and of an event's listeners only the first with the function when one is removed. */
  lemma FreedByIs(evs: seq<EventNode>, chains: seq<seq<Listener>>, op: Op, l: Listener)
    requires |chains| == |evs| && forall i, j :: 0 <= i < j < |evs| ==> evs[i].name != evs[j].name
    ensures l in FreedBy(Rows(evs, chains), chains, op) <==>
      && !op.AddOn?
      && exists k, a :: 0 <= k < |chains| && 0 <= a < |chains[k]| && chains[k][a] == l
           && (op.Destroy? || evs[k].name == op.name)
           && (op.DropListener? ==> l.func == op.func && forall b :: 0 <= b < a ==> chains[k][b].func != op.func)
  {
    var t := Rows(evs, chains);
    if op.Destroy? || op.AddOn? { return; }
    var k := FindName(t, op.name);
    forall i | 0 <= i < |evs| && evs[i].name == op.name ensures i == k { assert t[i].name == op.name; }
    if k < |t| && op.DropListener? { FirstOfChain(chains[k], op.func); }
  }

  lemma FirstOfChain(c: seq<Listener>, f: Func)
    ensures forall a :: 0 <= a < |c| ==>
      (a == FindFunc(Funcs(c), f) <==> c[a].func == f && forall b :: 0 <= b < a ==> c[b].func != f)
  {
    var j := FindFunc(Funcs(c), f);
    forall a | 0 <= a < |c|
      ensures a == j <==> c[a].func == f && forall b :: 0 <= b < a ==> c[b].func != f
    {
      if c[a].func == f && forall b :: 0 <= b < a ==> c[b].func != f { FuncIs(Funcs(c), f, a); }
    }
  }

  lemma OwnedAppend(evs: seq<EventNode>, chains: seq<seq<Listener>>, repr: set<object>, e: EventNode)
    requires Owned(evs, chains, repr) && forall i :: 0 <= i < |evs| ==> evs[i].name != e.name
    ensures Owned(evs + [e], chains + [[]], repr + {e})
  {
  }

  lemma OwnedUpdate(evs: seq<EventNode>, chains: seq<seq<Listener>>, repr: set<object>,
                    k: nat, c: seq<Listener>, added: set<object>)
    requires Owned(evs, chains, repr) && k < |evs| && forall l :: l in c ==> l in repr + added
    ensures Owned(evs, chains[k := c], repr + added)
  {
  }

  lemma OwnedRemove(evs: seq<EventNode>, chains: seq<seq<Listener>>, repr: set<object>, k: nat)
    requires Owned(evs, chains, repr) && k < |evs|
    ensures Owned(RemoveAt(evs, k), RemoveAt(chains, k), repr)
  {
    var es, cs := RemoveAt(evs, k), RemoveAt(chains, k);
    forall i | 0 <= i < |es|
      ensures es[i] == evs[if i < k then i else i + 1] && cs[i] == chains[if i < k then i else i + 1]
    {
    }
    forall i, j | 0 <= i < j < |es| ensures es[i].name != es[j].name {
      assert es[i] == evs[if i < k then i else i + 1] && es[j] == evs[if j < k then j else j + 1];
    }
  }

  predicate Shape(t: Table, cs: seq<seq<Listener>>) {
    |cs| == |t| && forall i :: 0 <= i < |cs| ==> |cs[i]| == |t[i].funcs|
  }

  /** Where a listener is after a removal, by its place. */
  ghost predicate MovesWith(t: Table, cs: seq<seq<Listener>>, op: Op, name: string, a: nat)
    requires Shape(t, cs) && FindName(t, name) < |t| && a < |cs[FindName(t, name)]|
  {
    var k, t', cs' := FindName(t, name), Perform(t, op), ChainsAfter(t, cs, op);
    match Move(t, name, In(a), op)
    case In(a') =>
      var k' := FindName(t', name);
      k' < |cs'| && a' < |cs'[k']| && cs'[k'][a'] == cs[k][a]
    case Freed => cs[k][a] in FreedBy(t, cs, op)
    case Cut(rest) => 0 < a && cs' == cs[k := []] && FreedBy(t, cs, op) == {cs[k][0]} && rest == t[k].funcs[a + 1..]
  }

  lemma MovesInChain(fs: seq<Func>, c: seq<Listener>, f: Func, a: nat)
    requires |c| == |fs| && a < |c| && FindFunc(fs, f) < |fs|
    ensures var j := FindFunc(fs, f);
      match MoveOnRemoval(fs, f, a)
      case In(a') => a' < |Rest(c, j)| && Rest(c, j)[a'] == c[a]
      case Freed => c[a] == c[j]
      case Cut(rest) => 0 < a && j == 0 && rest == fs[a + 1..]
  {
  }

  lemma MovesOnDropListener(t: Table, cs: seq<seq<Listener>>, op: Op, name: string, a: nat)
    requires Shape(t, cs) && FindName(t, name) < |t| && a < |cs[FindName(t, name)]| && op.DropListener?
    ensures MovesWith(t, cs, op, name, a)
  {
    var i, k, t' := FindName(t, name), FindName(t, op.name), Perform(t, op);
    assert forall j :: 0 <= j < |t| ==> t'[j].name == t[j].name;
    FindIsAt(t', name, i);
    if op.name == name && FindFunc(t[i].funcs, op.func) < |cs[i]| {
      MovesInChain(t[i].funcs, cs[i], op.func, a);
    }
  }

  lemma MovesOnDropAll(t: Table, cs: seq<seq<Listener>>, op: Op, name: string, a: nat)
    requires Shape(t, cs) && FindName(t, name) < |t| && a < |cs[FindName(t, name)]| && op.DropAll?
    ensures MovesWith(t, cs, op, name, a)
  {
    var i, k, t' := FindName(t, name), FindName(t, op.name), Perform(t, op);
    assert forall j :: 0 <= j < |t| ==> t'[j].name == t[j].name;
    FindIsAt(t', name, i);
  }

  lemma MovesOnDropEvent(t: Table, cs: seq<seq<Listener>>, op: Op, name: string, a: nat)
    requires Shape(t, cs) && FindName(t, name) < |t| && a < |cs[FindName(t, name)]| && op.DropEvent?
    ensures MovesWith(t, cs, op, name, a)
  {
    var i, k := FindName(t, name), FindName(t, op.name);
    if op.name != name && k < |t| {
      var i' := if i < k then i else i - 1;
      forall j | 0 <= j < |t| - 1 ensures RemoveAt(t, k)[j] == t[if j < k then j else j + 1] { }
      assert RemoveAt(t, k)[i'] == t[i] && RemoveAt(cs, k)[i'] == cs[i];
      FindIsAt(RemoveAt(t, k), name, i');
    }
  }

  lemma MovesOnDestroy(t: Table, cs: seq<seq<Listener>>, name: string, a: nat)
    requires Shape(t, cs) && FindName(t, name) < |t| && a < |cs[FindName(t, name)]|
    ensures MovesWith(t, cs, Destroy, name, a)
  {
    ChainInMembers(cs, FindName(t, name));
  }

  lemma ListenerMoves(t: Table, cs: seq<seq<Listener>>, op: Op, name: string, a: nat)
    requires Shape(t, cs) && FindName(t, name) < |t| && a < |cs[FindName(t, name)]| && !op.AddOn?
    ensures MovesWith(t, cs, op, name, a)
  {
    match op
    case DropListener(_, _) => MovesOnDropListener(t, cs, op, name, a);
    case DropAll(_) => MovesOnDropAll(t, cs, op, name, a);
    case DropEvent(_) => MovesOnDropEvent(t, cs, op, name, a);
    case Destroy => MovesOnDestroy(t, cs, name, a);
  }

  class Emitter {
    var events: EventNode?
    ghost var evs: seq<EventNode>
    ghost var chains: seq<seq<Listener>>
    ghost var repr: set<object>

    ghost predicate Valid()
      reads this, repr
    {
      && this !in repr && Owned(evs, chains, repr)
      && Spine(events, evs)
      && Chains(evs, chains, repr)
    }

    ghost function View(): Table
      requires |chains| == |evs|
      reads this
    {
      Rows(evs, chains)
    }

    /** Of these nodes, the operation frees exactly those in `gone`. */
    twostate predicate FreesExactly(nodes: set<object>, gone: set<Listener>)
      reads nodes
    {
      forall l: Listener :: l in nodes ==> (l.freed <==> old(l.freed) || l in gone)
    }

    /** Listeners that are not, or no longer, in a chain keep their successors. */
    twostate predicate OutKept(nodes: set<object>)
      reads this, nodes
    {
      forall l: Listener :: l in nodes && l !in Members(chains, |chains|) ==> l.next == old(l.next)
    }

    twostate predicate NextKept(nodes: set<object>)
      reads nodes
    {
      forall l: Listener :: l in nodes ==> l.next == old(l.next)
    }

    /** Chains grow at their ends only, and by new listeners; new chains come last. */
    twostate predicate Grows()
      reads this
    {
      && |old(chains)| <= |chains|
      && (forall i :: 0 <= i < |old(chains)| ==> old(chains)[i] <= chains[i])
      && (forall l :: l in Members(chains, |chains|) ==> l in Members(old(chains), |old(chains)|) || fresh(l))
    }

    constructor ()
      ensures Valid() && View() == [] && fresh(repr)
    {
      events := null;
      evs := [];
      chains := [];
      repr := {};
    }

    method FindEvent(name: string) returns (e: EventNode?)
      requires Valid()
      ensures e == EventAt(evs, FindName(View(), name))
    {
      e := events;
      ghost var i := 0;
      while e != null && e.Name() != name
        invariant i <= |evs| && e == EventAt(evs, i)
        invariant forall j :: 0 <= j < i ==> View()[j].name != name
        decreases |evs| - i
      {
        e := e.Next();
        i := i + 1;
      }
      NameIs(View(), name, i);
    }

    lemma NameIs(t: Table, name: string, k: nat)
      requires k <= |t| && (k < |t| ==> t[k].name == name) && forall j :: 0 <= j < k ==> t[j].name != name
      ensures FindName(t, name) == k
    {
    }

    method LastEvent() returns (last: EventNode)
      requires Valid() && events != null
      ensures evs != [] && last == evs[|evs| - 1]
    {
      last := events;
      ghost var i := 0;
      while last.Next() != null
        invariant i < |evs| && last == evs[i]
        decreases |evs| - i
      {
        last := last.Next();
        i := i + 1;
      }
    }

    /** `append_event`: a new event without listeners goes to the end. */
    method AppendEvent(e: EventNode)
      requires Valid() && e !in repr && e.next == null && e.listeners == null && !e.freed && !e.nameFreed
      requires forall i :: 0 <= i < |evs| ==> evs[i].name != e.name
      modifies this, evs`next
      ensures Valid() && evs == old(evs) + [e] && chains == old(chains) + [[]]
      ensures repr == old(repr) + {e}
    {
      LinkEvent(e);
      OwnedAppend(evs, chains, repr, e);
      assert Chains(evs, chains, repr);
      evs := evs + [e];
      chains := chains + [[]];
      repr := repr + {e};
    }

    method LinkEvent(e: EventNode)
      requires Valid() && e !in repr && e.next == null && !e.freed && !e.nameFreed
      modifies this`events, evs`next
      ensures Spine(events, evs + [e])
    {
      if events == null {
        events := e;
      } else {
        var last := LastEvent();
        last.next := e;
      }
    }

    /** A change to the listeners of event `k` leaves the other events' chains as they were. */
    twostate lemma OthersKeep(k: nat)
      requires old(Valid()) && k < |evs| && evs == old(evs) && chains == old(chains) && repr == old(repr)
      requires forall i :: 0 <= i < |evs| && i != k ==> evs[i].listeners == old(evs[i].listeners)
      requires forall l: Listener :: l in repr && l !in chains[k] ==>
        l.next == old(l.next) && l.freed == old(l.freed)
      ensures forall i :: 0 <= i < |evs| && i != k ==> Chain(evs[i], chains[i])
    {
      forall i | 0 <= i < |evs| && i != k
        ensures Chain(evs[i], chains[i])
      {
        assert old(Chain(evs[i], chains[i])) && old(Chain(evs[k], chains[k]));
        assert evs[i].name != evs[k].name;
        assert forall a :: 0 <= a < |chains[i]| ==> chains[i][a] !in chains[k];
      }
    }

    /** The footprint and view once chain `k` has become `c`. */
    ghost method SetChain(k: nat, c: seq<Listener>, added: set<object>)
      requires Owned(evs, chains, repr) && this !in repr + added && Spine(events, evs) && k < |evs|
      requires forall i :: 0 <= i < |evs| && i != k ==> Chain(evs[i], chains[i])
      requires Chain(evs[k], c) && forall l :: l in c ==> l in repr + added
      modifies this`chains, this`repr
      ensures Valid() && repr == old(repr) + added && chains == old(chains)[k := c]
      ensures View() == old(View())[k := Entry(evs[k].name, Funcs(c))]
    {
      OwnedUpdate(evs, chains, repr, k, c, added);
      chains := chains[k := c];
      repr := repr + added;
    }

    /** Appends a new listener node to event `k`. */
    method PushListener(e: EventNode, func: Func, ghost k: nat)
      requires Valid() && k < |evs| && evs[k] == e
      modifies this`chains, this`repr, e`listeners, chains[k]`next
      ensures Valid() && fresh(repr - old(repr))
      ensures View() == old(View())[k := Entry(e.name, old(View())[k].funcs + [func])]
      ensures old(repr) <= repr && Grows() && OutKept(old(repr)) && FreesExactly(old(repr), {})
    {
      ghost var c := chains[k];
      var l := new Listener(func, e);
      AppendListener(e, l, c);
      OthersKeep(k);
      SetChain(k, c + [l], {l});
      assert Funcs(c + [l]) == Funcs(c) + [func];
    }

    /** Finds the event, or creates it at the end unless its allocation fails. */
    method FindOrAdd(name: string, fits: bool) returns (e: EventNode?)
      requires Valid()
      modifies this, repr
      ensures Valid() && fresh(repr - old(repr))
      ensures e == EventAt(evs, FindName(old(View()), name))
      ensures View() ==
        if e != null && FindName(old(View()), name) == |old(View())|
        then old(View()) + [Entry(name, [])] else old(View())
      ensures e == null <==> FindName(old(View()), name) == |old(View())| && !fits
      ensures old(repr) <= repr && Grows() && OutKept(old(repr)) && FreesExactly(old(repr), {})
    {
      e := FindEvent(name);
      if e == null && fits { e := NewEvent(name); }
    }

    method NewEvent(name: string) returns (e: EventNode)
      requires Valid() && FindName(View(), name) == |View()|
      modifies this, evs`next
      ensures Valid() && fresh(repr - old(repr)) && e == EventAt(evs, |old(View())|)
      ensures View() == old(View()) + [Entry(name, [])]
      ensures old(repr) <= repr && Grows() && OutKept(old(repr)) && FreesExactly(old(repr), {})
    {
      e := new EventNode(name);
      MembersNone(chains);
      assert forall i :: 0 <= i < |evs| ==> View()[i].name != name;
      AppendEvent(e);
      assert Funcs([]) == [];
    }

    /** Creating the event first and adding to it then is adding to the table. */
    lemma OnStepwise(was: Table, mid: Table, name: string, func: Func)
      requires mid == if FindName(was, name) == |was| then was + [Entry(name, [])] else was
      ensures var k := FindName(was, name);
        mid[k := Entry(name, mid[k].funcs + [func])] == On(was, name, func)
    {
      assert [] + [func] == [func];
    }

    /** `js_add_event_listener`; either allocation may fail. */
    method AddListener(name: string, func: Func, eventFits: bool, listenerFits: bool)
      requires Valid()
      modifies this, repr
      ensures Valid() && fresh(repr - old(repr))
      ensures var known := FindName(old(View()), name) < |old(View())|;
        View() ==
          if !known && !eventFits then old(View())
          else if listenerFits then On(old(View()), name, func)
          else if known then old(View())
          else old(View()) + [Entry(name, [])]
      ensures old(repr) <= repr && Grows() && OutKept(old(repr)) && FreesExactly(old(repr), {})
    {
      ghost var was := View();
      var e := FindOrAdd(name, eventFits);
      if e == null || !listenerFits { return; }
      AddFound(e, name, func, was);
    }

    /** The event has been found or created since the table was `was`. */
    method AddFound(e: EventNode, name: string, func: Func, ghost was: Table)
      requires Valid() && e == EventAt(evs, FindName(was, name))
      requires View() == if FindName(was, name) == |was| then was + [Entry(name, [])] else was
      modifies this, repr
      ensures Valid() && fresh(repr - old(repr)) && View() == On(was, name, func)
      ensures old(repr) <= repr && Grows() && OutKept(old(repr)) && FreesExactly(old(repr), {})
    {
      OnStepwise(was, View(), name, func);
      PushListener(e, func, FindName(was, name));
    }

    // ---- removing ---------------------------------------------------------------------------

    /** `removeListener`: the first node with the function is unlinked and freed; when it was the
        head of several, the others leave the emitter without being freed. */
    method RemoveListener(name: string, func: Func)
      requires Valid()
      modifies this, repr
      ensures Valid() && repr == old(repr)
      ensures View() == Events.RemoveListener(old(View()), name, func)
      ensures chains == ChainsAfter(old(View()), old(chains), DropListener(name, func)) && OutKept(old(repr))
      ensures FreesExactly(old(repr), FreedBy(old(View()), old(chains), DropListener(name, func)))
    {
      var e := FindEvent(name);
      if e != null {
        ghost var k := FindName(View(), name);
        var l := FindListener(e, func, chains[k]);
        if l != null {
          RemoveNode(e, l, k);
        }
      }
    }

    method RemoveNode(e: EventNode, l: Listener, ghost k: nat)
      requires Valid() && k < |evs| && evs[k] == e && l in chains[k]
      requires l == chains[k][FindFunc(Funcs(chains[k]), l.func)]
      modifies this`chains, this`repr, e`listeners, chains[k]`next, l`freed
      ensures Valid() && repr == old(repr)
      ensures View() == old(View())[k := Entry(e.name, WithoutListener(old(View())[k].funcs, l.func))]
      ensures FreesExactly(old(repr), {l}) && OutKept(old(repr))
      ensures chains == old(chains)[k := Rest(old(chains)[k], FindFunc(Funcs(old(chains)[k]), l.func))]
    {
      ghost var c := chains[k];
      UnlinkAndFree(e, l, c, FindFunc(Funcs(c), l.func));
      OthersKeep(k);
      FuncsWithout(c, l.func);
      SetChain(k, Rest(c, FindFunc(Funcs(c), l.func)), {});
      ChainInMembers(chains, k);
    }

    /** `removeAllListeners`. */
    method RemoveAllListeners(name: string)
      requires Valid()
      modifies this, repr
      ensures Valid() && repr == old(repr) && View() == RemoveAll(old(View()), name)
      ensures chains == ChainsAfter(old(View()), old(chains), DropAll(name)) && OutKept(old(repr))
      ensures FreesExactly(old(repr), FreedBy(old(View()), old(chains), DropAll(name)))
    {
      var e := FindEvent(name);
      if e != null {
        ClearListeners(e, FindName(View(), name));
      }
    }

    method ClearListeners(e: EventNode, ghost k: nat)
      requires Valid() && k < |evs| && evs[k] == e
      modifies this`chains, this`repr, e`listeners, chains[k]`freed
      ensures Valid() && repr == old(repr)
      ensures View() == old(View())[k := Entry(e.name, [])]
      ensures FreesExactly(old(repr), NodesOf(old(chains)[k])) && OutKept(old(repr))
      ensures chains == old(chains)[k := []]
    {
      FreeChain(e.Listeners(), e, chains[k]);
      e.listeners := null;
      OthersKeep(k);
      SetChain(k, [], {});
      assert Funcs([]) == [];
    }

    /** Once event `k` is bypassed, the others are linked. */
    lemma SpineWithout(first: EventNode?, evs: seq<EventNode>, k: nat)
      requires k < |evs| && first == EventAt(RemoveAt(evs, k), 0)
      requires forall i {:trigger evs[i].next} :: 0 <= i < |evs| && i != k ==>
        evs[i].next == EventAt(evs, if i + 1 == k then k + 1 else i + 1)
      requires forall i :: 0 <= i < |evs| ==> !evs[i].freed && !evs[i].nameFreed
      ensures Spine(first, RemoveAt(evs, k))
    {
      forall i | 0 <= i < |evs| - 1
        ensures RemoveAt(evs, k)[i] == evs[if i < k then i else i + 1]
      {
      }
    }

    method EventBefore(e: EventNode, ghost k: nat) returns (prev: EventNode)
      requires Valid() && 0 < k < |evs| && evs[k] == e
      ensures prev == evs[k - 1]
    {
      prev := events;
      ghost var i := 0;
      while prev.Next() != e
        invariant i < k && prev == evs[i]
        decreases k - i
      {
        prev := prev.Next();
        i := i + 1;
      }
    }

    /** The first half of `remove_event`: the event leaves the spine. */
    method UnlinkEvent(e: EventNode, ghost k: nat)
      requires Valid() && k < |evs| && evs[k] == e
      modifies this`events, evs`next
      ensures Spine(events, RemoveAt(evs, k))
    {
      if events == e {
        events := e.Next();
      } else {
        var prev := EventBefore(e, k);
        prev.next := e.Next();
      }
      SpineWithout(events, evs, k);
    }

    /** The second half: the listeners, the name and the event itself are freed. */
    method FreeEvent(e: EventNode, ghost c: seq<Listener>)
      requires !e.freed && !e.nameFreed && Chain(e, c)
      modifies c`freed, e`freed, e`nameFreed
      ensures e.freed && e.nameFreed && forall a :: 0 <= a < |c| ==> c[a].freed
    {
      FreeChain(e.Listeners(), e, c);
      e.FreeName();
      e.Free();
    }

    /** `remove_event`: unlinks the event, then frees its listeners, its name and itself. */
    method RemoveEventNode(e: EventNode, ghost k: nat)
      requires Valid() && k < |evs| && evs[k] == e
      modifies this`events, this`evs, this`chains, evs`next, chains[k]`freed, e`freed, e`nameFreed
      ensures Valid() && e.freed && e.nameFreed && FreesExactly(repr, NodesOf(old(chains)[k]))
      ensures evs == RemoveAt(old(evs), k) && chains == RemoveAt(old(chains), k)
    {
      UnlinkEvent(e, k);
      FreeEvent(e, chains[k]);
      OthersKeep(k);
      Forget(k);
    }

    /** The footprint's sequences once event `k` is gone. */
    ghost method Forget(k: nat)
      requires Owned(evs, chains, repr) && this !in repr && k < |evs| && Spine(events, RemoveAt(evs, k))
      requires forall i :: 0 <= i < |evs| && i != k ==> Chain(evs[i], chains[i])
      modifies this`evs, this`chains
      ensures Valid() && evs == RemoveAt(old(evs), k) && chains == RemoveAt(old(chains), k)
    {
      OwnedRemove(evs, chains, repr, k);
      forall i | 0 <= i < |evs| - 1
        ensures Chain(RemoveAt(evs, k)[i], RemoveAt(chains, k)[i])
      {
        var j := if i < k then i else i + 1;
        assert RemoveAt(evs, k)[i] == evs[j] && RemoveAt(chains, k)[i] == chains[j];
      }
      evs := RemoveAt(evs, k);
      chains := RemoveAt(chains, k);
    }

    /** `removeEvent`. */
    method DropEvent(name: string)
      requires Valid()
      modifies this, repr
      ensures Valid() && repr == old(repr) && View() == RemoveEvent(old(View()), name)
      ensures chains == ChainsAfter(old(View()), old(chains), Op.DropEvent(name)) && OutKept(repr)
      ensures FreesExactly(repr, FreedBy(old(View()), old(chains), Op.DropEvent(name)))
    {
      var e := FindEvent(name);
      if e != null { DropFound(e, name, FindName(View(), name)); }
    }

    method DropFound(e: EventNode, ghost name: string, ghost k: nat)
      requires Valid() && k < |evs| && evs[k] == e && k == FindName(View(), name)
      modifies this`events, this`evs, this`chains, evs`next, chains[k]`freed, e`freed, e`nameFreed
      ensures Valid() && View() == RemoveEvent(old(View()), name) && OutKept(repr)
      ensures chains == ChainsAfter(old(View()), old(chains), Op.DropEvent(name))
      ensures FreesExactly(repr, FreedBy(old(View()), old(chains), Op.DropEvent(name)))
    {
      RowsRemoveAt(evs, chains, k);
      RemoveEventNode(e, k);
    }

    /** The event and its name are freed. */
    ghost predicate Gone(e: EventNode)
      reads e
    {
      e.freed && e.nameFreed
    }

    method RemoveFirstEvent(e: EventNode)
      requires Valid() && events == e
      modifies this`events, this`evs, this`chains, evs`next, chains[0]`freed, e`freed, e`nameFreed
      ensures Valid() && Gone(e) && forall x: EventNode :: x in repr && old(Gone(x)) ==> Gone(x)
      ensures evs == old(evs)[1..] && chains == old(chains)[1..]
      ensures FreesExactly(repr, NodesOf(old(chains)[0])) && NextKept(repr)
    {
      RemoveEventNode(e, 0);
    }

    /** `js_destroy_emitter`: every event, its name and every listener of it is freed. */
    method Destroy()
      requires Valid()
      modifies this, repr
      ensures Valid() && View() == [] && repr == old(repr)
      ensures forall i :: 0 <= i < |old(evs)| ==> Gone(old(evs)[i])
      ensures chains == [] && OutKept(repr)
      ensures FreesExactly(repr, Members(old(chains), |old(chains)|))
    {
      var event := events;
      ghost var n, es, cs := 0, evs, chains;
      while event != null
        invariant Valid() && event == events && n <= |es| && repr == old(repr)
        invariant evs == es[n..] && chains == cs[n..]
        invariant forall i :: 0 <= i < n ==> Gone(es[i])
        invariant FreesExactly(repr, Members(cs, n))
        invariant NextKept(repr)
        decreases |es| - n
      {
        var gone := event;
        event := event.Next();
        MembersNext(cs, n);
        RemoveFirstEvent(gone);
        n := n + 1;
      }
      events := null;
    }

    // ---- whole histories --------------------------------------------------------------------

    method Apply(op: Op)
      requires Valid()
      modifies this, repr
      ensures Valid() && fresh(repr - old(repr)) && View() == Perform(old(View()), op)
      ensures old(repr) <= repr && if op.AddOn? then Grows() else chains == ChainsAfter(old(View()), old(chains), op)
      ensures FreesExactly(old(repr), FreedBy(old(View()), old(chains), op)) && OutKept(old(repr))
    {
      match op
      case AddOn(name, func) => AddListener(name, func, true, true);
      case DropListener(name, func) => RemoveListener(name, func);
      case DropAll(name) => RemoveAllListeners(name);
      case DropEvent(name) => DropEvent(name);
      case Destroy => Destroy();
    }

    /** The chains of nodes, taken through any history from a new emitter, end where the table does. */
    method Replay(ops: seq<Op>)
      requires Valid() && View() == []
      modifies this, repr
      ensures Valid() && View() == Run(ops)
    {
      assert ops[..0] == [];
      for i := 0 to |ops|
        invariant Valid() && fresh(repr - old(repr)) && View() == Run(ops[..i])
      {
        assert ops[..i + 1][..i] == ops[..i];
        Apply(ops[i]);
      }
      assert ops[..|ops|] == ops;
    }

    // ---- emitting ---------------------------------------------------------------------------

    /** Listeners outside the emitter's chains, each followed by the next, none freed. */
    ghost predicate Detached(c: seq<Listener>)
      reads this, repr, c
    {
      forall b :: 0 <= b < |c| ==> Outside(c[b], ListenerAt(c, b + 1))
    }

    ghost predicate Outside(l: Listener, next: Listener?)
      reads this, repr, l
    {
      l in repr && l !in Members(chains, |chains|) && !l.freed && l.next == next
    }

    ghost predicate StandsIn(l: Listener, name: string, a: nat)
      requires |chains| == |evs|
      reads this
    {
      var k := FindName(View(), name);
      k < |chains| && a < |chains[k]| && chains[k][a] == l
    }

    /** The listener an emit of `name` has called stands at `p`; `tail` follows it if it is cut off. */
    ghost predicate Stands(l: Listener, name: string, p: Place, tail: seq<Listener>)
      requires |chains| == |evs|
      reads this, repr, l, tail
    {
      l in repr &&
      match p
      case In(a) =>
        StandsIn(l, name, a)
      case Cut(rest) => Detached([l] + tail) && Funcs(tail) == rest
      case Freed => l.freed
    }

    /** The listener that follows stands at the next place. */
    lemma NextStands(l: Listener, name: string, p: Place, tail: seq<Listener>) returns (tail': seq<Listener>)
      requires Valid() && Stands(l, name, p, tail) && !p.Freed?
      ensures !l.freed
      ensures l.next == null <==> Following(View(), name, p) == []
      ensures l.next != null ==>
        && Stands(l.next, name, Emission.Next(p), tail') && l.next.func == Following(View(), name, p)[0]
    {
      match p
      case In(a) =>
        var k := FindName(View(), name);
        assert Chain(evs[k], chains[k]);
        assert chains[k][a].next == ListenerAt(chains[k], a + 1);
        tail' := [];
      case Cut(rest) =>
        var c := [l] + tail;
        assert c[0] == l && l.next == ListenerAt(c, 1);
        if tail != [] {
          tail' := tail[1..];
          assert c[1] == tail[0];
          assert [tail[0]] + tail' == tail;
          assert forall b :: 0 <= b < |tail| ==> tail[b] == c[b + 1];
        } else {
          tail' := [];
        }
    }

    /** What an operation does to the chains. */
    twostate predicate Applied(op: Op)
      requires |old(chains)| == |old(evs)| && |chains| == |evs|
      reads this, repr
    {
      && old(repr) <= repr && View() == Perform(old(View()), op)
      && (if op.AddOn? then Grows() else chains == ChainsAfter(old(View()), old(chains), op))
      && FreesExactly(old(repr), FreedBy(old(View()), old(chains), op)) && OutKept(old(repr))
    }

    lemma StillInChain(t: Table, cs: seq<seq<Listener>>, op: Op, i: nat, i': nat, l: Listener)
      requires Shape(t, cs) && !op.AddOn? && !op.Destroy?
      requires i < |ChainsAfter(t, cs, op)| && l in ChainsAfter(t, cs, op)[i]
      requires var k := FindName(t, op.name); i' == if op.DropEvent? && k < |t| && i >= k then i + 1 else i
      ensures i' < |cs| && l in cs[i']
    {
      match op
      case DropListener(name, f) => InUpdated(t, cs, name, f, i, l);
      case DropAll(_) =>
      case DropEvent(_) => InRemaining(cs, FindName(t, op.name), i);
    }

    lemma InUpdated(t: Table, cs: seq<seq<Listener>>, name: string, f: Func, i: nat, l: Listener)
      requires Shape(t, cs) && i < |cs| && l in ChainsAfter(t, cs, DropListener(name, f))[i]
      ensures l in cs[i]
    {
      var k := FindName(t, name);
      if i == k && FindFunc(t[k].funcs, f) < |cs[k]| { InRest(cs[k], FindFunc(t[k].funcs, f), l); }
    }

    lemma InRemaining(cs: seq<seq<Listener>>, k: nat, i: nat)
      ensures k < |cs| && i < |cs| - 1 ==> RemoveAt(cs, k)[i] == cs[if i < k then i else i + 1]
    {
    }

    lemma InRest(c: seq<Listener>, j: nat, l: Listener)
      ensures j < |c| && l in Rest(c, j) ==> l in c
    {
    }

    /** No operation brings a listener back into a chain. */
    lemma NothingComesBack(t: Table, cs: seq<seq<Listener>>, op: Op)
      requires Shape(t, cs) && !op.AddOn?
      ensures forall l :: l in Members(ChainsAfter(t, cs, op), |ChainsAfter(t, cs, op)|) ==> l in Members(cs, |cs|)
      ensures forall l :: l in FreedBy(t, cs, op) ==> l in Members(cs, |cs|)
    {
      var cs' := ChainsAfter(t, cs, op);
      forall l | l in Members(cs', |cs'|)
        ensures l in Members(cs, |cs|)
      {
        var i, a :| 0 <= i < |cs'| && 0 <= a < |cs'[i]| && cs'[i][a] == l;
        var k := if op.Destroy? then 0 else FindName(t, op.name);
        var i' := if op.DropEvent? && k < |t| && i >= k then i + 1 else i;
        StillInChain(t, cs, op, i, i', l);
        ChainInMembers(cs, i');
      }
      if !op.Destroy? && FindName(t, op.name) < |t| { ChainInMembers(cs, FindName(t, op.name)); }
    }

    twostate lemma DetachedStays(new op: Op, c: seq<Listener>)
      requires old(Valid()) && Valid() && Applied(op) && old(Detached(c))
      ensures Detached(c)
    {
      if !op.AddOn? { NothingComesBack(old(View()), old(chains), op); }
    }

    /** The listeners of a chain that leaves are in no other. */
    twostate lemma ChainLeaves(k: nat)
      requires old(Valid()) && k < |old(chains)| && chains == old(chains)[k := []]
      ensures forall l :: l in old(chains)[k] ==> l in old(repr) && l !in Members(chains, |chains|)
    {
      forall l | l in old(chains)[k]
        ensures l in old(repr) && l !in Members(chains, |chains|)
      {
      }
    }

    /** All but the head, which is freed, keep their successors. */
    twostate lemma ChainLeft(new k: nat, c: seq<Listener>)
      requires old(Valid()) && old(repr) <= repr && OutKept(old(repr))
      requires k < |old(chains)| && c == old(chains)[k] && c != [] && chains == old(chains)[k := []]
      requires FreesExactly(old(repr), {c[0]})
      ensures OutsideFrom(c, 1)
    {
      ChainLeaves(k);
      assert old(Chain(evs[k], chains[k]));
    }

    ghost predicate OutsideFrom(c: seq<Listener>, a: nat)
      reads this, repr, c
    {
      forall b :: a <= b < |c| ==> Outside(c[b], ListenerAt(c, b + 1))
    }

    lemma CutOff(c: seq<Listener>, a: nat)
      requires OutsideFrom(c, 1) && 0 < a < |c|
      ensures Detached([c[a]] + c[a + 1..])
    {
      var d := [c[a]] + c[a + 1..];
      assert forall b :: 0 <= b < |d| ==> d[b] == c[a + b];
      forall b | 0 <= b < |d| ensures Outside(d[b], ListenerAt(d, b + 1)) {
        assert Outside(c[a + b], ListenerAt(c, a + b + 1));
      }
    }

    twostate lemma StandsAfterAdd(new op: Op, l: Listener, new name: string, new a: nat)
      requires old(Valid()) && Valid() && Applied(op) && old(StandsIn(l, name, a)) && op.AddOn?
      ensures StandsIn(l, name, a)
    {
      FindIsAt(View(), name, FindName(old(View()), name));
    }

    twostate lemma StandsAfterRemoval(new op: Op, l: Listener, new name: string, new a: nat)
      requires old(Valid()) && Valid() && Applied(op) && old(StandsIn(l, name, a)) && !op.AddOn?
      ensures match Move(old(View()), name, In(a), op)
        case In(a') => StandsIn(l, name, a')
        case Freed => l.freed
        case Cut(_) => true
    {
      ListenerMoves(old(View()), old(chains), op, name, a);
    }

    /** A listener cut off with those that follow it. */
    lemma StandsCutOff(c: seq<Listener>, name: string, a: nat)
      requires |chains| == |evs| && OutsideFrom(c, 1) && 0 < a < |c|
      ensures Stands(c[a], name, Cut(Funcs(c)[a + 1..]), c[a + 1..])
    {
      CutOff(c, a);
      assert Outside(c[a], ListenerAt(c, a + 1));
      assert Funcs(c[a + 1..]) == Funcs(c)[a + 1..];
    }

    /** A listener in its chain, before and after an operation. */
    twostate lemma PlaceKept(new op: Op, l: Listener, new name: string, new a: nat)
      requires old(Valid()) && Valid() && Applied(op) && old(StandsIn(l, name, a))
      ensures var k := FindName(old(View()), name);
        match Move(old(View()), name, In(a), op)
        case In(a') => StandsIn(l, name, a')
        case Freed => l.freed
        case Cut(rest) =>
          OutsideFrom(old(chains)[k], 1) && 0 < a < |old(chains)[k]| && rest == Funcs(old(chains)[k])[a + 1..]
    {
      if op.AddOn? {
        StandsAfterAdd(op, l, name, a);
      } else {
        StandsAfterRemoval(op, l, name, a);
        ListenerMoves(old(View()), old(chains), op, name, a);
        var k := FindName(old(View()), name);
        if Move(old(View()), name, In(a), op).Cut? { ChainLeft(k, old(chains)[k]); }
      }
    }

    /** One operation, and where it leaves the listener an emit has called. */
    method RunOp(op: Op, ghost l: Listener, ghost name: string, ghost p: Place, ghost tail: seq<Listener>)
      returns (ghost tail': seq<Listener>)
      requires Valid() && Stands(l, name, p, tail)
      modifies this, repr
      ensures Valid() && fresh(repr - old(repr)) && old(repr) <= repr && View() == Perform(old(View()), op)
      ensures Stands(l, name, Move(old(View()), name, p, op), tail')
    {
      ghost var t, cs := View(), chains;
      Apply(op);
      tail' := tail;
      match p
      case Freed =>
      case Cut(_) => DetachedStays(op, [l] + tail);
      case In(a) =>
        PlaceKept(op, l, name, a);
        if Move(t, name, p, op).Cut? {
          tail' := cs[FindName(t, name)][a + 1..];
          StandsCutOff(cs[FindName(t, name)], name, a);
        }
    }

    lemma StandsAlive(l: Listener, name: string, p: Place, tail: seq<Listener>)
      requires Valid() && Stands(l, name, p, tail) && !p.Freed?
      ensures !l.freed
    {
      if p.In? {
        var k := FindName(View(), name);
        assert Chain(evs[k], chains[k]);
      } else {
        assert ([l] + tail)[0] == l;
      }
    }

    /** The operations a listener performs while the emit has called it. */
    method RunScript(script: seq<Op>, ghost l: Listener, ghost name: string, ghost p: Place, ghost tail: seq<Listener>)
      returns (ghost p': Place, ghost tail': seq<Listener>)
      requires Valid() && Stands(l, name, p, tail)
      modifies this, repr
      ensures Valid() && fresh(repr - old(repr)) && old(repr) <= repr
      ensures (View(), p') == Play(old(View()), name, p, script) && Stands(l, name, p', tail')
    {
      p', tail' := p, tail;
      assert script[..0] == [];
      for i := 0 to |script|
        invariant Valid() && fresh(repr - old(repr)) && old(repr) <= repr
        invariant (View(), p') == Play(old(View()), name, p, script[..i]) && Stands(l, name, p', tail')
      {
        assert script[..i + 1][..i] == script[..i];
        ghost var t := View();
        tail' := RunOp(script[i], l, name, p', tail');
        p' := Move(t, name, p', script[i]);
      }
      assert script[..|script|] == script;
    }

    /** `js_emit_event`: the i-th listener called performs the i-th script.  After each call the code
        reads the listener it has called; if that is freed by then, the model goes no further. */
    method EmitEvent(name: string, scripts: seq<seq<Op>>) returns (passed: bool, called: seq<Func>, dangling: bool)
      requires Valid()
      modifies this, repr
      ensures Valid() && fresh(repr - old(repr))
      ensures (passed, Outcome(View(), called, dangling)) == EmitWith(old(View()), name, scripts)
      ensures scripts == [] ==>
        !dangling && View() == old(View()) && (passed, called) == Emit(old(View()), name)
    {
      QuietEmit(View(), name);
      called, dangling := [], false;
      var e := FindEvent(name);
      if e == null { return false, [], false; }
      ghost var k := FindName(View(), name);
      assert Chain(evs[k], chains[k]);
      var l := e.Listeners();
      if l == null { return true, [], false; }
      called, dangling := CallListeners(l, name, scripts, In(0), []);
      passed := true;
    }

    /** Calls one listener and finds the next, reading the one called. */
    method CallOne(l: Listener, name: string, script: seq<Op>, ghost p: Place, ghost tail: seq<Listener>)
      returns (gone: bool, next: Listener?, ghost p': Place, ghost tail': seq<Listener>)
      requires Valid() && Stands(l, name, p, tail) && !p.Freed?
      modifies this, repr
      ensures Valid() && fresh(repr - old(repr)) && old(repr) <= repr
      ensures var (t, q) := Play(old(View()), name, p, script); var rest := Following(t, name, q);
        && View() == t && (gone <==> q.Freed?)
        && (!gone ==> (next == null <==> rest == []))
        && (!gone && next != null ==>
              p' == Emission.Next(q) && Stands(next, name, p', tail') && next.func == rest[0])
    {
      next := null;
      ghost var q;
      q, tail' := RunScript(script, l, name, p, tail);
      p' := Emission.Next(q);
      gone := l.freed;
      if !gone {
        tail' := NextStands(l, name, q, tail');
        next := l.Next();
      } else {
        if !q.Freed? { StandsAlive(l, name, q, tail'); }
      }
    }

    method CallListeners(first: Listener, name: string, scripts: seq<seq<Op>>,
                         ghost place: Place, ghost after: seq<Listener>)
      returns (called: seq<Func>, dangling: bool)
      requires Valid() && Stands(first, name, place, after) && !place.Freed?
      modifies this, repr
      ensures Valid() && fresh(repr - old(repr))
      ensures Outcome(View(), called, dangling) == CallFrom(old(View()), name, first.func, place, scripts)
    {
      called, dangling := [], false;
      var l: Listener? := first;
      var left := scripts;
      ghost var p, tail := place, after;
      ghost var goal := CallFrom(View(), name, first.func, place, scripts);
      while l != null && !dangling
        invariant Valid() && fresh(repr - old(repr))
        invariant l != null && !dangling ==> Stands(l, name, p, tail) && !p.Freed?
        invariant goal == if l == null || dangling then Outcome(View(), called, dangling)
          else Called(called, CallFrom(View(), name, l.func, p, left))
        decreases !dangling, |left|, if l == null then 0 else 1 + |Following(View(), name, p)|
      {
        called, left, dangling, l, p, tail := CallRound(l, name, called, left, p, tail);
      }
    }

    /** One round of the loop, and what is left of the emit. */
    method CallRound(l: Listener, name: string, before: seq<Func>, scripts: seq<seq<Op>>,
                     ghost p: Place, ghost tail: seq<Listener>)
      returns (called: seq<Func>, left: seq<seq<Op>>, dangling: bool, next: Listener?,
               ghost p': Place, ghost tail': seq<Listener>)
      requires Valid() && Stands(l, name, p, tail) && !p.Freed?
      modifies this, repr
      ensures Valid() && fresh(repr - old(repr)) && old(repr) <= repr
      ensures next != null && !dangling ==> Stands(next, name, p', tail') && !p'.Freed?
      ensures Called(before, CallFrom(old(View()), name, l.func, p, scripts)) ==
        if next == null || dangling then Outcome(View(), called, dangling)
        else Called(called, CallFrom(View(), name, next.func, p', left))
      ensures |left| < |scripts| || |left| == |scripts| == 0
      ensures scripts == [] && next != null && !dangling ==>
        |Following(View(), name, p')| < |Following(old(View()), name, p)|
    {
      StandsAlive(l, name, p, tail);
      CalledMore(before, View(), name, l.func, p, scripts);
      FewerFollow(View(), name, p);
      called := before + [l.Func()];
      dangling, next, p', tail' := CallOne(l, name, Script(scripts), p, tail);
      left := Later(scripts);
    }

    /** `eventNames`: counts first, then fills an array of that length. */
    method EventNames() returns (names: array<string>)
      requires Valid()
      ensures names[..] == Names(View())
    {
      var index := 0;
      var e := events;
      while e != null
        invariant index <= |evs| && e == EventAt(evs, index)
        decreases |evs| - index
      {
        index := index + 1;
        e := e.Next();
      }
      names := new string[index];
      e := events;
      index := 0;
      while e != null
        invariant index <= |evs| == names.Length && e == EventAt(evs, index)
        invariant forall i :: 0 <= i < index ==> names[i] == evs[i].name
        decreases |evs| - index
      {
        names[index] := e.Name();
        index := index + 1;
        e := e.Next();
      }
    }
  }
}
