/** How the list is used: removing while iterating, and arbitrary runs of its operations. */
module ListClients {
  import opened Sequences
  import opened LinkedList

  // ---- remove while iterating ---------------------------------------------------------------

  lemma ReversePrepend<X>(x: X, s: seq<X>)
    ensures Reverse([x] + s) == Reverse(s) + [x]
  {
    var a, b := Reverse([x] + s), Reverse(s) + [x];
    forall i | 0 <= i < |a| ensures a[i] == b[i] { }
  }

  lemma {:induction false} FilterReverse<X>(p: X -> bool, s: seq<X>)
    ensures Filter(p, Reverse(s)) == Reverse(Filter(p, s))
  {
    if s != [] {
      var x, rest := s[0], s[1..];
      FilterReverse(p, rest);
      assert s == [x] + rest;
      ReversePrepend(x, rest);
      FilterAppend(p, Reverse(rest), [x]);
      assert Filter(p, [x]) == if p(x) then [x] else [];
      if p(x) { ReversePrepend(x, Filter(p, rest)); }
    }
  }

  lemma FilterOrder<X>(p: X -> bool, s: seq<X>, direction: Direction)
    ensures Order(Filter(p, s), direction) == Filter(p, Order(s, direction))
  {
    FilterReverse(p, s);
  }

  lemma OrderRemoveAt<X>(s: seq<X>, k: nat, direction: Direction)
    requires k < |s|
    ensures Order(RemoveAt(s, k), direction) ==
      RemoveAt(Order(s, direction), if direction.FromHead? then k else |s| - 1 - k)
  {
    if direction.FromTail? {
      var a, b := Reverse(RemoveAt(s, k)), RemoveAt(Reverse(s), |s| - 1 - k);
      forall i | 0 <= i < |a| ensures a[i] == b[i] { }
      assert a == b;
    }
  }

  lemma OrderTwice<X>(s: seq<X>, direction: Direction)
    ensures Order(Order(s, direction), direction) == s
  {
  }

  lemma InOrder<X>(s: seq<X>, direction: Direction, x: X)
    ensures x in Order(s, direction) <==> x in s
  {
    if x in s {
      var k :| 0 <= k < |s| && s[k] == x;
      assert Order(s, direction)[if direction.FromHead? then k else |s| - 1 - k] == x;
    }
  }

  lemma FilterOneMore<X>(p: X -> bool, s: seq<X>, i: nat)
    requires i < |s|
    ensures Filter(p, s[..i + 1]) == Filter(p, s[..i]) + (if p(s[i]) then [s[i]] else [])
  {
    assert s[..i + 1] == s[..i] + [s[i]];
    FilterAppend(p, s[..i], [s[i]]);
    assert Filter(p, [s[i]]) == if p(s[i]) then [s[i]] else [];
  }

  lemma {:induction false} FilterHas<X>(p: X -> bool, s: seq<X>)
    ensures forall x :: x in Filter(p, s) <==> x in s && p(x)
  {
    if s != [] {
      FilterHas(p, s[1..]);
      assert s == [s[0]] + s[1..];
    }
  }

  /** The list after `i` rounds, in visiting order: what was kept of the front, and the rest. */
  function Rounds<X>(keep: X -> bool, o: seq<X>, i: nat): seq<X>
    requires i <= |o|
  {
    Filter(keep, o[..i]) + o[i..]
  }

  /** One round: the front of the rest is kept or, at its place `at`, removed. */
  lemma OneRound<X>(keep: X -> bool, o: seq<X>, i: nat)
    requires i < |o|
    ensures var at := |Filter(keep, o[..i])|;
      && at < |Rounds(keep, o, i)| && Rounds(keep, o, i)[at] == o[i]
      && Rounds(keep, o, i + 1) ==
           if keep(o[i]) then Rounds(keep, o, i) else RemoveAt(Rounds(keep, o, i), at)
  {
    FilterOneMore(keep, o, i);
    assert o[i..] == [o[i]] + o[i + 1..];
  }

  /** The node that follows `o[i]` in visiting order after `i` rounds is `o[i + 1]`. */
  lemma FollowsInRound<T(!new)>(list: List<T>, direction: Direction, keep: Node<T> -> bool,
                                o: seq<Node<T>>, i: nat)
    requires list.Valid() && i < |o| && Order(list.nodes, direction) == Rounds(keep, o, i)
    ensures (if direction.FromHead? then o[i].next else o[i].prev) == if i + 1 < |o| then o[i + 1] else null
  {
    OneRound(keep, o, i);
    var at := |Filter(keep, o[..i])|;
    NextInOrder(list, direction, at);
    if i + 1 < |o| { assert Rounds(keep, o, i)[at + 1] == o[i + 1]; }
  }

  /** The node at hand is still in the list. */
  lemma InRound<X>(s: seq<X>, direction: Direction, keep: X -> bool, o: seq<X>, i: nat)
    requires i < |o| && Order(s, direction) == Rounds(keep, o, i)
    ensures o[i] in s
  {
    OneRound(keep, o, i);
    assert o[i] in Rounds(keep, o, i);
    InOrder(s, direction, o[i]);
  }

  /** `list.Remove` of the node at hand is the removal of a round. */
  lemma RemovedInRound<T(!new)>(was: seq<Node<T>>, k: nat, direction: Direction, keep: Node<T> -> bool,
                                o: seq<Node<T>>, i: nat)
    requires Distinct(was) && k < |was| && i < |o| && was[k] == o[i] && !keep(o[i])
    requires Order(was, direction) == Rounds(keep, o, i)
    ensures Order(RemoveAt(was, k), direction) == Rounds(keep, o, i + 1)
  {
    OneRound(keep, o, i);
    OrderRemoveAt(was, k, direction);
    var at := |Filter(keep, o[..i])|;
    assert Order(was, direction)[at] == was[if direction.FromHead? then at else |was| - 1 - at];
  }

  lemma AfterAllRounds<X>(was: seq<X>, now: seq<X>, direction: Direction, keep: X -> bool)
    requires var o := Order(was, direction); Order(now, direction) == Rounds(keep, o, |o|)
    ensures now == Filter(keep, was)
  {
    var o := Order(was, direction);
    assert o[..|o|] == o && Rounds(keep, o, |o|) == Filter(keep, o);
    FilterOrder(keep, was, direction);
    OrderTwice(now, direction);
    OrderTwice(Filter(keep, was), direction);
  }

  function Selected<T(!new)>(p: T -> bool): Node<T> -> bool {
    (n: Node<T>) => p(n.val)
  }

  function Spared<T(!new)>(p: T -> bool): Node<T> -> bool {
    (n: Node<T>) => !p(n.val)
  }

  /** The iterator has just returned element `i` of the visiting order `o`, or its end. */
  ghost predicate Standing<T(!new)>(it: Iterator<T>, o: seq<Node<T>>, i: nat, node: Node?<T>)
    reads it
  {
    && i <= |o|
    && node == (if i < |o| then o[i] else null)
    && (i < |o| ==> it.next == if i + 1 < |o| then o[i + 1] else null)
  }

  /** The list after `i` rounds of the loop that removes what `p` selects. */
  ghost predicate AfterRounds<T(!new)>(list: List<T>, p: T -> bool, direction: Direction,
                                       o: seq<Node<T>>, i: nat)
    requires i <= |o|
    reads list, list.nodes
  {
    && list.Valid()
    && Order(list.nodes, direction) == Rounds(Spared(p), o, i)
  }

  lemma BeforeRounds<T(!new)>(list: List<T>, p: T -> bool, direction: Direction)
    requires list.Valid()
    ensures AfterRounds(list, p, direction, Order(list.nodes, direction), 0)
  {
    var o := Order(list.nodes, direction);
    assert o[..0] == [] && o[0..] == o;
  }

  method StepOn<T(==, !new)>(list: List<T>, p: T -> bool, it: Iterator<T>, ghost o: seq<Node<T>>, ghost i: nat)
    returns (node: Node?<T>)
    requires i <= |o| && AfterRounds(list, p, it.direction, o, i)
    requires it.next == if i < |o| then o[i] else null
    modifies it`next
    ensures Standing(it, o, i, node)
  {
    if i < |o| { FollowsInRound(list, it.direction, Spared(p), o, i); }
    node := it.Next();
  }

  /** One round: the node at hand is freed if `p` selects it. */
  method RemoveIf<T(==, !new)>(list: List<T>, p: T -> bool, ghost direction: Direction, node: Node<T>,
                               ghost o: seq<Node<T>>, ghost i: nat, ghost was: set<Node<T>>)
    requires i < |o| && node == o[i] && AfterRounds(list, p, direction, o, i)
    requires forall n :: n in list.nodes ==> n in was
    modifies list`head, list`tail, list`len, list`nodes, list`freed, list`released, was
    ensures AfterRounds(list, p, direction, o, i + 1)
    ensures list.freed == old(list.freed) + if p(node.val) then [node] else []
    ensures forall n :: n in list.nodes ==> n in was
  {
    InRound(list.nodes, direction, Spared(p), o, i);
    if p(node.val) {
      ghost var nodes := list.nodes;
      ghost var k := list.Remove(node);
      RemovedInRound(nodes, k, direction, Spared(p), o, i);
      RemoveAtKeeps(nodes, k);
    } else {
      OneRound(Spared(p), o, i);
    }
  }

  /** The loop: take the node at hand, perhaps free it, step on. */
  method RemoveLoop<T(==, !new)>(list: List<T>, p: T -> bool, it: Iterator<T>, first: Node?<T>,
                                 ghost o: seq<Node<T>>, ghost was: set<Node<T>>)
    returns (visited: seq<Node<T>>)
    requires AfterRounds(list, p, it.direction, o, 0) && Standing(it, o, 0, first)
    requires forall n :: n in list.nodes ==> n in was
    modifies list`head, list`tail, list`len, list`nodes, list`freed, list`released, was, it`next
    ensures visited == o && AfterRounds(list, p, it.direction, o, |o|)
    ensures list.freed == old(list.freed) + Filter(Selected(p), o)
  {
    var node := first;
    ghost var i := 0;
    visited := [];
    while node != null
      invariant Standing(it, o, i, node)
      invariant AfterRounds(list, p, it.direction, o, i)
      invariant forall n :: n in list.nodes ==> n in was
      invariant visited == o[..i]
      invariant list.freed == old(list.freed) + Filter(Selected(p), o[..i])
      decreases |o| - i
    {
      FilterOneMore(Selected(p), o, i);
      visited := visited + [node];
      RemoveIf(list, p, it.direction, node, o, i, was);
      i := i + 1;
      node := StepOn(list, p, it, o, i);
    }
    assert o[..i] == o;
  }

  /** A new iterator stands on the first element. */
  method NewIterator<T(==, !new)>(list: List<T>, direction: Direction) returns (it: Iterator<T>)
    requires list.Valid()
    ensures fresh(it) && it.direction == direction && it.next == NodeAt(list.nodes, direction, 0)
  {
    FromEitherEnd(list, direction);
    it := new Iterator<T>(list, direction);
  }

  lemma FromEitherEnd<T(!new)>(list: List<T>, direction: Direction)
    requires list.Valid()
    ensures (if direction.FromHead? then list.head else list.tail) == NodeAt(list.nodes, direction, 0)
  {
  }

  /** Iterating in either direction and removing what `p` selects, the node just returned being
      freed before the iterator is used again: every node of the list is visited once, and exactly
      the selected ones are gone. */
  method RemoveWhere<T(==, !new)>(list: List<T>, p: T -> bool, direction: Direction)
    returns (visited: seq<Node<T>>)
    requires list.Valid()
    modifies list`head, list`tail, list`len, list`nodes, list`freed, list`released, list.nodes
    ensures list.Valid()
    ensures visited == Order(old(list.nodes), direction)
    ensures list.nodes == Filter(Spared(p), old(list.nodes))
    ensures list.freed == old(list.freed) + Filter(Selected(p), visited)
  {
    ghost var was := list.nodes;
    ghost var o := Order(was, direction);
    var it := NewIterator(list, direction);
    BeforeRounds(list, p, direction);
    var node := StepOn(list, p, it, o, 0);
    ghost var footprint := set n | n in was;
    visited := RemoveLoop(list, p, it, node, o, footprint);
    AfterAllRounds(was, list.nodes, direction, Spared(p));
  }

  /** So the nodes that stay are those whose values `p` does not select, and those freed the others. */
  lemma StaysOrGoes<T(!new)>(p: T -> bool, nodes: seq<Node<T>>, direction: Direction, n: Node<T>)
    ensures n in Filter(Spared(p), nodes) <==> n in nodes && !p(n.val)
    ensures n in Filter(Selected(p), Order(nodes, direction)) <==> n in nodes && p(n.val)
  {
    FilterHas(Spared(p), nodes);
    FilterHas(Selected(p), Order(nodes, direction));
    InOrder(nodes, direction, n);
  }

  // ---- runs of operations -------------------------------------------------------------------

  datatype Op<T> = LPush(val: T) | RPush(val: T) | LPop | RPop | RemoveNth(k: nat)

  const INT_MAX: nat := 0x7fff_ffff

  /** The operation on a plain sequence: the new sequence and what was taken out. */
  function Apply<T>(op: Op<T>, s: seq<T>): (seq<T>, seq<T>) {
    match op
    case LPush(v) => ([v] + s, [])
    case RPush(v) => (s + [v], [])
    case LPop => if s == [] then (s, []) else (s[1..], [s[0]])
    case RPop => if s == [] then (s, []) else (s[..|s| - 1], [s[|s| - 1]])
    case RemoveNth(k) => if k < |s| && k <= INT_MAX then (RemoveAt(s, k), [s[k]]) else (s, [])
  }

  /** What an operation does to the list's values: a push puts its value at its end, a pop takes out what
      stands at its end, if anything does, and the rest stays as it is. */
  predicate Did<T(==)>(op: Op<T>, was: seq<T>, now: seq<T>, taken: seq<T>) {
    match op
    case LPush(v) => now == [v] + was && taken == []
    case RPush(v) => now == was + [v] && taken == []
    case LPop => was == taken + now && (taken == [] ==> was == []) && |taken| <= 1
    case RPop => was == now + taken && (taken == [] ==> was == []) && |taken| <= 1
    case RemoveNth(k) =>
      if k < |was| && k <= INT_MAX then now == was[..k] + was[k + 1..] && taken == [was[k]]
      else now == was && taken == []
  }

  lemma ApplyDoes<T>(op: Op<T>, s: seq<T>)
    ensures Did(op, s, Apply(op, s).0, Apply(op, s).1)
  {
  }

  function ApplyAll<T>(ops: seq<Op<T>>, s: seq<T>): (seq<T>, seq<T>) {
    if ops == [] then (s, [])
    else
      var n := |ops| - 1;
      var (s1, out1) := ApplyAll(ops[..n], s);
      var (s2, out2) := Apply(ops[n], s1);
      (s2, out1 + out2)
  }

  method PushOne<T(==, !new)>(list: List<T>, v: T, atHead: bool, ghost was: set<Node<T>>)
    requires list.Valid()
    requires forall n :: n in list.nodes ==> n in was
    modifies list`head, list`tail, list`len, list`nodes, list`freed, list`released, was
    ensures list.Valid()
    ensures forall n :: n in list.nodes ==> n in was || fresh(n)
    ensures Vals(list.nodes) == if atHead then [v] + Vals(old(list.nodes)) else Vals(old(list.nodes)) + [v]
  {
    var node := new Node(v);
    if atHead {
      var _ := list.LPush(node);
    } else {
      var _ := list.RPush(node);
    }
  }

  method PopOne<T(==, !new)>(list: List<T>, atHead: bool, ghost was: set<Node<T>>) returns (taken: seq<T>)
    requires list.Valid()
    requires forall n :: n in list.nodes ==> n in was
    modifies list`head, list`tail, list`len, list`nodes, list`freed, list`released, was
    ensures list.Valid()
    ensures forall n :: n in list.nodes ==> n in was || fresh(n)
    ensures (Vals(list.nodes), taken) == Apply(if atHead then LPop else RPop, Vals(old(list.nodes)))
  {
    var r: Node?<T>;
    if atHead {
      r := list.LPop();
    } else {
      r := list.RPop();
    }
    taken := if r != null then [r.val] else [];
    ghost var vals := Vals(old(list.nodes));
    assert vals != [] ==>
      Vals(list.nodes) == if atHead then vals[1..] else vals[..|vals| - 1];
  }

  method RemoveOne<T(==, !new)>(list: List<T>, k: nat, ghost was: set<Node<T>>) returns (taken: seq<T>)
    requires list.Valid()
    requires forall n :: n in list.nodes ==> n in was
    modifies list`head, list`tail, list`len, list`nodes, list`freed, list`released, was
    ensures list.Valid()
    ensures forall n :: n in list.nodes ==> n in was || fresh(n)
    ensures (Vals(list.nodes), taken) == Apply(RemoveNth(k), Vals(old(list.nodes)))
  {
    taken := [];
    if k < list.len && k <= INT_MAX {
      var r := list.At(k);
      ghost var at := list.Remove(r);
      assert at == k;
      ValsRemoveAt(old(list.nodes), k);
      taken := [r.val];
    }
  }

  method PerformOne<T(==, !new)>(list: List<T>, op: Op<T>, ghost was: set<Node<T>>)
    returns (taken: seq<T>)
    requires list.Valid()
    requires forall n :: n in list.nodes ==> n in was
    modifies list`head, list`tail, list`len, list`nodes, list`freed, list`released, was
    ensures list.Valid()
    ensures forall n :: n in list.nodes ==> n in was || fresh(n)
    ensures (Vals(list.nodes), taken) == Apply(op, Vals(old(list.nodes)))
    ensures Did(op, Vals(old(list.nodes)), Vals(list.nodes), taken)
  {
    taken := [];
    match op
    case LPush(v) => PushOne(list, v, true, was);
    case RPush(v) => PushOne(list, v, false, was);
    case LPop => taken := PopOne(list, true, was);
    case RPop => taken := PopOne(list, false, was);
    case RemoveNth(k) => taken := RemoveOne(list, k, was);
    ApplyDoes(op, Vals(old(list.nodes)));
  }

  /** Every run of list operations is a run of the sequence operations, so it loses nothing. */
  method Perform<T(==, !new)>(list: List<T>, ops: seq<Op<T>>) returns (out: seq<T>)
    requires list.Valid()
    modifies list`head, list`tail, list`len, list`nodes, list`freed, list`released, list.nodes
    ensures list.Valid()
    ensures (Vals(list.nodes), out) == ApplyAll(ops, Vals(old(list.nodes)))
    ensures multiset(Vals(old(list.nodes))) + Pushed(ops) == multiset(Vals(list.nodes)) + multiset(out)
  {
    out := [];
    ghost var vals := Vals(list.nodes);
    ghost var footprint := set n | n in list.nodes;
    for i := 0 to |ops|
      invariant list.Valid()
      invariant (Vals(list.nodes), out) == ApplyAll(ops[..i], vals)
      invariant forall n :: n in footprint ==> n in old(list.nodes) || fresh(n)
      invariant forall n :: n in list.nodes ==> n in footprint
    {
      assert ops[..i + 1][..i] == ops[..i];
      var taken := PerformOne(list, ops[i], footprint);
      footprint := footprint + set n | n in list.nodes;
      out := out + taken;
    }
    assert ops[..|ops|] == ops;
    RunsConserve(ops, vals);
  }

  function PushedBy<T>(op: Op<T>): multiset<T> {
    match op
    case LPush(v) => multiset{v}
    case RPush(v) => multiset{v}
    case _ => multiset{}
  }

  function Pushed<T>(ops: seq<Op<T>>): multiset<T> {
    if ops == [] then multiset{} else Pushed(ops[..|ops| - 1]) + PushedBy(ops[|ops| - 1])
  }

  lemma FirstOut<X>(s: seq<X>)
    requires s != []
    ensures RemoveAt(s, 0) == s[1..]
  {
  }

  lemma LastOut<X>(s: seq<X>)
    requires s != []
    ensures RemoveAt(s, |s| - 1) == s[..|s| - 1]
  {
  }

  lemma PushConserves<T>(v: T, s: seq<T>)
    ensures multiset(s) + multiset{v} == multiset([v] + s) + multiset([])
    ensures multiset(s) + multiset{v} == multiset(s + [v]) + multiset([])
  {
    assert multiset([v]) == multiset{v};
  }

  lemma TakeConserves<T>(s: seq<T>, k: nat)
    requires k < |s|
    ensures multiset(s) + multiset{} == multiset(RemoveAt(s, k)) + multiset([s[k]])
  {
    assert s == s[..k] + ([s[k]] + s[k + 1..]);
  }

  lemma PopsConserve<T>(s: seq<T>)
    ensures multiset(s) + multiset{} == multiset(Apply(LPop, s).0) + multiset(Apply(LPop, s).1)
    ensures multiset(s) + multiset{} == multiset(Apply(RPop, s).0) + multiset(Apply(RPop, s).1)
  {
    if s != [] {
      TakeConserves(s, 0);
      FirstOut(s);
      TakeConserves(s, |s| - 1);
      LastOut(s);
    }
  }

  lemma ApplyConserves<T>(op: Op<T>, s: seq<T>)
    ensures var (end, out) := Apply(op, s);
      multiset(s) + PushedBy(op) == multiset(end) + multiset(out)
  {
    match op {
      case LPush(v) => PushConserves(v, s);
      case RPush(v) => PushConserves(v, s);
      case LPop => PopsConserve(s);
      case RPop => PopsConserve(s);
      case RemoveNth(k) => if k < |s| { TakeConserves(s, k); }
    }
  }

  lemma ChainSums<T(!new)>(s: multiset<T>, p: multiset<T>, q: multiset<T>, mid: multiset<T>, end: multiset<T>,
                     a: multiset<T>, b: multiset<T>)
    requires s + p == mid + a && mid + q == end + b
    ensures s + (p + q) == end + (a + b)
  {
    forall x
      ensures (s + (p + q))[x] == (end + (a + b))[x]
    {
      assert (s + p)[x] == (mid + a)[x] && (mid + q)[x] == (end + b)[x];
    }
  }

  /** Nothing is lost and nothing appears: what was there and what was pushed is what is there now
      and what was taken out. */
  lemma {:induction false} RunsConserve<T(!new)>(ops: seq<Op<T>>, s: seq<T>)
    ensures var (end, out) := ApplyAll(ops, s);
      multiset(s) + Pushed(ops) == multiset(end) + multiset(out)
  {
    if ops != [] {
      var n := |ops| - 1;
      var (mid, out1) := ApplyAll(ops[..n], s);
      var (end, out2) := Apply(ops[n], mid);
      RunsConserve(ops[..n], s);
      ApplyConserves(ops[n], mid);
      assert ApplyAll(ops, s) == (end, out1 + out2);
      ChainSums(multiset(s), Pushed(ops[..n]), PushedBy(ops[n]), multiset(mid), multiset(end),
                multiset(out1), multiset(out2));
    }
  }

  // ---- the list as a queue ------------------------------------------------------------------

  /** The values pushed, in order. */
  function PushedInOrder<T>(ops: seq<Op<T>>): seq<T> {
    if ops == [] then []
    else
      var op := ops[|ops| - 1];
      PushedInOrder(ops[..|ops| - 1]) + if op.LPush? || op.RPush? then [op.val] else []
  }

  lemma Regroup<T>(a: seq<T>, b: seq<T>, c: seq<T>)
    ensures a + (b + c) == a + b + c
  {
  }

  /** Pushed at the tail and taken out at the head, in any interleaving, values come out in the order they
      went in, after those that were there; what has not come out is what is left. */
  lemma {:induction false} FirstInFirstOut<T>(ops: seq<Op<T>>, s: seq<T>)
    requires forall op :: op in ops ==> op.RPush? || op.LPop?
    ensures ApplyAll(ops, s).1 + ApplyAll(ops, s).0 == s + PushedInOrder(ops)
  {
    if ops != [] {
      var n := |ops| - 1;
      FirstInFirstOut(ops[..n], s);
      var (mid, out) := ApplyAll(ops[..n], s);
      assert ops[n] in ops;
      match ops[n]
      case RPush(v) =>
        Regroup(out, mid, [v]);
        Regroup(s, PushedInOrder(ops[..n]), [v]);
        assert out + [] == out;
      case LPop =>
        if mid != [] { assert mid == [mid[0]] + mid[1..]; }
        Regroup(out, Apply(LPop, mid).1, Apply(LPop, mid).0);
        assert PushedInOrder(ops) == PushedInOrder(ops[..n]);
    }
  }

  /** The same the other way round. */
  lemma {:induction false} FirstInFirstOutBackwards<T>(ops: seq<Op<T>>, s: seq<T>)
    requires forall op :: op in ops ==> op.LPush? || op.RPop?
    ensures ApplyAll(ops, s).0 + Reverse(ApplyAll(ops, s).1) == Reverse(PushedInOrder(ops)) + s
  {
    if ops != [] {
      var n := |ops| - 1;
      FirstInFirstOutBackwards(ops[..n], s);
      var (mid, out) := ApplyAll(ops[..n], s);
      assert ops[n] in ops;
      match ops[n]
      case LPush(v) =>
        ReverseAppend(PushedInOrder(ops[..n]), v);
        Regroup([v], mid, Reverse(out));
        Regroup([v], Reverse(PushedInOrder(ops[..n])), s);
        assert out + [] == out;
      case RPop =>
        assert PushedInOrder(ops) == PushedInOrder(ops[..n]);
        if mid != [] {
          var k := |mid| - 1;
          assert mid == mid[..k] + [mid[k]];
          ReverseAppend(out, mid[k]);
          Regroup(mid[..k], [mid[k]], Reverse(out));
        } else {
          assert out + [] == out;
        }
    }
  }

  function MirrorOp<T>(op: Op<T>, len: nat): Op<T> {
    match op
    case LPush(v) => RPush(v)
    case RPush(v) => LPush(v)
    case LPop => RPop
    case RPop => LPop
    case RemoveNth(k) => if k < len then RemoveNth(len - 1 - k) else op
  }

  lemma ReverseAppend<X>(s: seq<X>, x: X)
    ensures Reverse(s + [x]) == [x] + Reverse(s)
  {
    var a, b := Reverse(s + [x]), [x] + Reverse(s);
    forall i | 0 <= i < |a| ensures a[i] == b[i] { }
  }

  /** Taking out one element, seen from the other end. */
  lemma MirroredTake<X>(s: seq<X>, k: nat)
    requires k < |s|
    ensures RemoveAt(Reverse(s), |s| - 1 - k) == Reverse(RemoveAt(s, k)) && Reverse(s)[|s| - 1 - k] == s[k]
  {
    OrderRemoveAt(s, k, FromTail);
  }

  lemma MirroredPops<T>(s: seq<T>)
    requires s != []
    ensures Reverse(s)[1..] == Reverse(s[..|s| - 1]) && Reverse(s)[0] == s[|s| - 1]
    ensures Reverse(s)[..|s| - 1] == Reverse(s[1..]) && Reverse(s)[|s| - 1] == s[0]
  {
    MirroredTake(s, 0);
    MirroredTake(s, |s| - 1);
    FirstOut(s);
    LastOut(s);
    FirstOut(Reverse(s));
    LastOut(Reverse(s));
  }

  /** The two ends are symmetric: the mirrored operation on the reversed list gives the reversed
      list and takes out the same value. */
  lemma Mirrored<T>(op: Op<T>, s: seq<T>)
    requires |s| <= INT_MAX
    ensures Apply(MirrorOp(op, |s|), Reverse(s)) == (Reverse(Apply(op, s).0), Apply(op, s).1)
  {
    var n := |s|;
    match op
    case LPush(v) => ReversePrepend(v, s);
    case RPush(v) => ReverseAppend(s, v);
    case LPop => if n > 0 { MirroredPops(s); }
    case RPop => if n > 0 { MirroredPops(s); }
    case RemoveNth(k) => if k < n { MirroredTake(s, k); }
  }
}
