/** The intrusive doubly linked list of deps/list: nodes that the caller allocates, pointers
    updated in place, removal anywhere.  `nodes` is the sequence the pointers stand for; `freed`
    and `released` record the calls of `LIST_FREE` on nodes and of the list's own `free` on values,
    in order. */
module LinkedList {
  import opened Wrappers
  import opened Sequences

  datatype Direction = FromHead | FromTail

  class Node<T> {
    const val: T
    var prev: Node?<T>
    var next: Node?<T>

    constructor (val: T)
      ensures this.val == val && prev == null && next == null
    {
      this.val := val;
      prev := null;
      next := null;
    }
  }

  function Vals<T>(nodes: seq<Node<T>>): (vals: seq<T>)
    ensures |vals| == |nodes|
    ensures forall i :: 0 <= i < |nodes| ==> vals[i] == nodes[i].val
  {
    seq(|nodes|, i requires 0 <= i < |nodes| => nodes[i].val)
  }

  lemma ValsRemoveAt<T>(nodes: seq<Node<T>>, k: nat)
    requires k < |nodes|
    ensures Vals(RemoveAt(nodes, k)) == RemoveAt(Vals(nodes), k)
  {
  }

  /** Neighbours in the sequence point at each other, and the ends point nowhere. */
  ghost predicate Linked<T(!new)>(nodes: seq<Node<T>>)
    reads nodes
  {
    && (forall i {:trigger nodes[i].prev} :: 0 <= i < |nodes| ==>
          nodes[i].prev == if i == 0 then null else nodes[i - 1])
    && (forall i {:trigger nodes[i].next} :: 0 <= i < |nodes| ==>
          nodes[i].next == if i == |nodes| - 1 then null else nodes[i + 1])
  }

  /** What `prev` and `next` of node `i` are once node `k` is bypassed. */
  function PrevPast<T>(nodes: seq<Node<T>>, k: nat, i: nat): Node?<T>
    requires k < |nodes| && i < |nodes|
  {
    var j := if i == k + 1 then k else i;
    if j == 0 then null else nodes[j - 1]
  }

  function NextPast<T>(nodes: seq<Node<T>>, k: nat, i: nat): Node?<T>
    requires k < |nodes| && i < |nodes|
  {
    var j := if i == k - 1 then k else i;
    if j == |nodes| - 1 then null else nodes[j + 1]
  }

  /** Once the neighbours of node `k` bypass it, the other nodes are linked. */
  lemma Unlinked<T(!new)>(nodes: seq<Node<T>>, k: nat)
    requires k < |nodes|
    requires forall i {:trigger nodes[i].prev} :: 0 <= i < |nodes| && i != k ==>
      nodes[i].prev == PrevPast(nodes, k, i)
    requires forall i {:trigger nodes[i].next} :: 0 <= i < |nodes| && i != k ==>
      nodes[i].next == NextPast(nodes, k, i)
    ensures Linked(RemoveAt(nodes, k))
  {
    var rest := RemoveAt(nodes, k);
    forall i | 0 <= i < |rest|
      ensures rest[i].prev == if i == 0 then null else rest[i - 1]
      ensures rest[i].next == if i == |rest| - 1 then null else rest[i + 1]
    {
      assert rest[i] == nodes[if i < k then i else i + 1];
    }
  }

  class List<T(==, !new)> {
    var head: Node?<T>
    var tail: Node?<T>
    var len: nat
    var free: bool                          // a value destructor is installed
    var matches: Option<(T, T) -> bool>     // the caller's match function, if any
    var freed: seq<Node<T>>                 // kept so that a use after the free can be told

    ghost var nodes: seq<Node<T>>
    ghost var released: seq<T>
    ghost var destroyed: bool

    ghost predicate Valid()
      reads this, nodes
    {
      && len == |nodes|
      && (len == 0 ==> head == null && tail == null)
      && (len > 0 ==> head == nodes[0] && tail == nodes[len - 1])
      && Linked(nodes)
      && Distinct(nodes)
      && (forall n :: n in nodes ==> n !in freed)
      && !destroyed
    }

    constructor ()
      ensures Valid() && nodes == [] && freed == [] && released == []
      ensures !free && matches.None?
    {
      head := null;
      tail := null;
      free := false;
      matches := None;
      len := 0;
      nodes := [];
      freed := [];
      released := [];
      destroyed := false;
    }

    method RPush(node: Node?<T>) returns (r: Node?<T>)
      requires Valid()
      requires node != null ==> node !in nodes && node !in freed
      modifies this`head, this`tail, this`len, this`nodes, tail, node
      ensures Valid() && r == node
      ensures nodes == if node == null then old(nodes) else old(nodes) + [node]
    {
      if node == null { return null; }
      if len != 0 {
        node.prev := tail;
        node.next := null;
        tail.next := node;
        tail := node;
      } else {
        head, tail := node, node;
        node.prev, node.next := null, null;
      }
      len := len + 1;
      nodes := nodes + [node];
      return node;
    }

    method RPop() returns (r: Node?<T>)
      requires Valid()
      modifies this`head, this`tail, this`len, this`nodes, nodes
      ensures Valid()
      ensures old(nodes) == [] ==> r == null && nodes == []
      ensures old(nodes) != [] ==>
        && r == old(nodes)[|old(nodes)| - 1] && nodes == old(nodes)[..|old(nodes)| - 1]
        && r !in nodes && r.prev == null && r.next == null
    {
      if len == 0 { return null; }
      var node := tail;
      len := len - 1;
      if len != 0 {
        tail := node.prev;
        tail.next := null;
      } else {
        tail, head := null, null;
      }
      node.next, node.prev := null, null;
      nodes := nodes[..len];
      return node;
    }

    method LPop() returns (r: Node?<T>)
      requires Valid()
      modifies this`head, this`tail, this`len, this`nodes, nodes
      ensures Valid()
      ensures old(nodes) == [] ==> r == null && nodes == []
      ensures old(nodes) != [] ==>
        && r == old(nodes)[0] && nodes == old(nodes)[1..]
        && r !in nodes && r.prev == null && r.next == null
    {
      if len == 0 { return null; }
      var node := head;
      len := len - 1;
      if len != 0 {
        head := node.next;
        head.prev := null;
      } else {
        head, tail := null, null;
      }
      node.next, node.prev := null, null;
      nodes := nodes[1..];
      return node;
    }

    method LPush(node: Node?<T>) returns (r: Node?<T>)
      requires Valid()
      requires node != null ==> node !in nodes && node !in freed
      modifies this`head, this`tail, this`len, this`nodes, head, node
      ensures Valid() && r == node
      ensures nodes == if node == null then old(nodes) else [node] + old(nodes)
    {
      if node == null { return null; }
      if len != 0 {
        node.next := head;
        node.prev := null;
        head.prev := node;
        head := node;
      } else {
        head, tail := node, node;
        node.prev, node.next := null, null;
      }
      len := len + 1;
      nodes := [node] + nodes;
      return node;
    }

    ghost predicate PrevsAre(k: nat)
      requires k < |nodes|
      reads this`nodes, nodes
    {
      forall i {:trigger nodes[i].prev} :: 0 <= i < |nodes| && i != k ==> nodes[i].prev == PrevPast(nodes, k, i)
    }

    ghost predicate NextsAre(k: nat)
      requires k < |nodes|
      reads this`nodes, nodes
    {
      forall i {:trigger nodes[i].next} :: 0 <= i < |nodes| && i != k ==> nodes[i].next == NextPast(nodes, k, i)
    }

    /** Everything but the sequence itself says that node `k` is bypassed. */
    ghost predicate PastNode(k: nat)
      requires k < |nodes|
      reads this, nodes
    {
      && PrevsAre(k) && NextsAre(k)
      && head == (if k > 0 then nodes[0] else if |nodes| == 1 then null else nodes[1])
      && tail == (if k < |nodes| - 1 then nodes[|nodes| - 1] else if k == 0 then null else nodes[k - 1])
    }

    ghost predicate PrevsIntact()
      reads this`nodes, nodes
    {
      forall i {:trigger nodes[i].prev} :: 0 <= i < |nodes| ==> nodes[i].prev == if i == 0 then null else nodes[i - 1]
    }

    /** The node before this one, or the list's head, points past it. */
    method SkipForward(node: Node<T>, ghost k: nat)
      requires Valid() && k < |nodes| && nodes[k] == node
      modifies this`head, node.prev
      ensures NextsAre(k) && PrevsIntact()
      ensures node.next == if k == |nodes| - 1 then null else nodes[k + 1]
      ensures head == if k > 0 then nodes[0] else if |nodes| == 1 then null else nodes[1]
    {
      if node.prev != null {
        node.prev.next := node.next;
      } else {
        head := node.next;
      }
    }

    /** The node after this one, or the list's tail, points before it. */
    method SkipBackward(node: Node<T>, ghost k: nat)
      requires k < |nodes| && nodes[k] == node && Distinct(nodes) && NextsAre(k) && PrevsIntact()
      requires node.next == if k == |nodes| - 1 then null else nodes[k + 1]
      requires tail == nodes[|nodes| - 1]
      modifies this`tail, node.next
      ensures PrevsAre(k) && NextsAre(k)
      ensures tail == if k < |nodes| - 1 then nodes[|nodes| - 1] else if k == 0 then null else nodes[k - 1]
    {
      assert node.prev == if k == 0 then null else nodes[k - 1];
      if node.next != null {
        node.next.prev := node.prev;
      } else {
        tail := node.prev;
      }
    }

    /** The neighbours of the node, or the list's ends, stop pointing at it. */
    method Unlink(node: Node<T>, ghost k: nat)
      requires Valid() && k < |nodes| && nodes[k] == node
      modifies this`head, this`tail, node.prev, node.next
      ensures PastNode(k)
    {
      SkipForward(node, k);
      SkipBackward(node, k);
    }

    /** Unlinks and frees a node wherever it stands. */
    method Remove(node: Node<T>) returns (ghost k: nat)
      requires Valid() && node in nodes
      modifies this`head, this`tail, this`len, this`nodes, this`freed, this`released
      modifies node.prev, node.next
      ensures Valid()
      ensures k < |old(nodes)| && old(nodes)[k] == node && nodes == RemoveAt(old(nodes), k)
      ensures freed == old(freed) + [node]
      ensures released == old(released) + if free then [node.val] else []
    {
      k :| k < |nodes| && nodes[k] == node;
      Unlink(node, k);
      if free { released := released + [node.val]; }
      Forget(node, k);
    }

    /** The count and the sequence once node `k` is bypassed and freed. */
    method Forget(node: Node<T>, ghost k: nat)
      requires k < |nodes| == len && nodes[k] == node && Distinct(nodes) && PastNode(k)
      requires !destroyed && forall n :: n in nodes ==> n !in freed
      modifies this`len, this`nodes, this`freed
      ensures Valid() && nodes == RemoveAt(old(nodes), k) && freed == old(freed) + [node]
    {
      Unlinked(nodes, k);
      RemoveAtKeeps(nodes, k);
      freed := freed + [node];
      len := len - 1;
      nodes := RemoveAt(nodes, k);
    }

    /** Frees every node, and every value when a destructor is installed, once and in list order, and
        then the list; no node is looked at after it is freed. */
    method Destroy()
      requires Valid()
      modifies this`freed, this`released, this`destroyed
      ensures freed == old(freed) + nodes && destroyed
      ensures released == old(released) + if free then Vals(nodes) else []
    {
      var n := len;
      var curr := head;
      ghost var i := 0;
      while n > 0
        invariant i + n == |nodes|
        invariant curr == if n == 0 then null else nodes[i]
        invariant freed == old(freed) + nodes[..i]
        invariant released == old(released) + if free then Vals(nodes)[..i] else []
      {
        assert curr !in nodes[..i] && curr !in freed;
        n := n - 1;
        var next := curr.next;
        if free { released := released + [curr.val]; }
        freed := freed + [curr];
        curr := next;
        i := i + 1;
      }
      destroyed := true;
    }

    /** The leftmost node whose value is the one looked for or, when a match function is installed, whose
        value that function matches, given the value looked for first. */
    method Find(val: T) returns (r: Node?<T>)
      requires Valid()
      ensures r == null ==>
        forall n :: n in nodes ==> if matches.Some? then !matches.value(val, n.val) else n.val != val
      ensures r != null ==>
        && (if matches.Some? then matches.value(val, r.val) else r.val == val)
        && exists k :: 0 <= k < |nodes| && r == nodes[k] && forall j :: 0 <= j < k ==>
             if matches.Some? then !matches.value(val, nodes[j].val) else nodes[j].val != val
    {
      var it := new Iterator<T>(this, FromHead);
      r := it.Next();
      ghost var i := 0;
      while r != null
        invariant i <= |nodes| && r == NodeAt(nodes, FromHead, i)
        invariant r != null ==> it.next == NodeAt(nodes, FromHead, i + 1)
        invariant it.direction == FromHead && fresh(it)
        invariant forall j :: 0 <= j < i ==>
          if matches.Some? then !matches.value(val, nodes[j].val) else nodes[j].val != val
        decreases |nodes| - i
      {
        if matches.Some? {
          if matches.value(val, r.val) { return r; }
        } else {
          if val == r.val { return r; }
        }
        r := it.Next();
        i := i + 1;
      }
    }

    /** Indexing from either end, for every C `int`. */
    method At(index: int) returns (r: Node?<T>)
      requires Valid() && -0x8000_0000 <= index < 0x8000_0000
      ensures r == if 0 <= index < |nodes| then nodes[index]
                   else if -|nodes| <= index < 0 then nodes[|nodes| + index]
                   else null
    {
      var direction := FromHead;
      var i := index;
      if i < 0 {
        direction := FromTail;
        i := -i - 1;          // ~index
      }
      if i < len {
        var it := new Iterator<T>(this, direction);
        NextInOrder(this, direction, 0);
        r := it.Next();
        ghost var at := 0;
        while i != 0
          invariant 0 <= i && at + i < |nodes| && it.direction == direction && fresh(it)
          invariant at + i == if index < 0 then -index - 1 else index
          invariant r == NodeAt(nodes, direction, at) && it.next == NodeAt(nodes, direction, at + 1)
        {
          i := i - 1;
          NextInOrder(this, direction, at + 1);
          r := it.Next();
          at := at + 1;
        }
        return r;
      }
      return null;
    }
  }

  /** A sequence in the order an iterator of this direction meets it. */
  function Order<X>(s: seq<X>, direction: Direction): seq<X> {
    if direction.FromHead? then s else Reverse(s)
  }

  function NodeAt<T>(nodes: seq<Node<T>>, direction: Direction, k: nat): Node?<T> {
    if k < |nodes| then Order(nodes, direction)[k] else null
  }

  lemma NextForward<T(!new)>(list: List<T>, k: nat)
    requires list.Valid() && k < |list.nodes|
    ensures list.nodes[k].next == NodeAt(list.nodes, FromHead, k + 1)
  {
    assert list.nodes[k].next == if k == |list.nodes| - 1 then null else list.nodes[k + 1];
  }

  lemma FromTheTail<T>(nodes: seq<Node<T>>, k: nat)
    requires k < |nodes|
    ensures Order(nodes, FromTail)[|nodes| - 1 - k] == nodes[k]
    ensures NodeAt(nodes, FromTail, |nodes| - k) == if k == 0 then null else nodes[k - 1]
  {
  }

  lemma NextBackward<T(!new)>(list: List<T>, k: nat)
    requires list.Valid() && k < |list.nodes|
    ensures list.nodes[k].prev == NodeAt(list.nodes, FromTail, |list.nodes| - k)
  {
    FromTheTail(list.nodes, k);
    assert list.nodes[k].prev == if k == 0 then null else list.nodes[k - 1];
  }

  /** Stepping from the node at position `at` of the visiting order leads to the next one. */
  lemma NextInOrder<T(!new)>(list: List<T>, direction: Direction, at: nat)
    requires list.Valid() && at < |list.nodes|
    ensures var n := Order(list.nodes, direction)[at];
      (if direction.FromHead? then n.next else n.prev) == NodeAt(list.nodes, direction, at + 1)
  {
    if direction.FromHead? {
      NextForward(list, at);
    } else {
      FromTheTail(list.nodes, |list.nodes| - 1 - at);
      NextBackward(list, |list.nodes| - 1 - at);
    }
  }

  class Iterator<T(==, !new)> {
    var next: Node?<T>
    var direction: Direction

    constructor (list: List<T>, direction: Direction)
      ensures next == (if direction.FromHead? then list.head else list.tail)
      ensures this.direction == direction
    {
      this.next := if direction.FromHead? then list.head else list.tail;
      this.direction := direction;
    }

    constructor FromNode(node: Node?<T>, direction: Direction)
      ensures next == node && this.direction == direction
    {
      this.next := node;
      this.direction := direction;
    }

    /** Returns the node it stands on and steps past it first, so that node may then be freed. */
    method Next() returns (curr: Node?<T>)
      modifies this`next
      ensures curr == old(next)
      ensures next ==
        if curr == null then null else if direction.FromHead? then curr.next else curr.prev
    {
      curr := next;
      if curr != null {
        next := if direction.FromHead? then curr.next else curr.prev;
      }
    }
  }
}
