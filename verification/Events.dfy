/** The event emitter's operations on a value, the ordered map they stand for, and what holds of
    every history of them. */
module Events {
  import opened Sequences

  type Func = nat

  datatype Entry = Entry(name: string, funcs: seq<Func>)

  /** The events of an emitter, each with its listeners. */
  type Table = seq<Entry>

  function FindName(t: Table, name: string): (k: nat)
    ensures k <= |t|
    ensures k < |t| ==> t[k].name == name
    ensures forall j :: 0 <= j < k ==> t[j].name != name
  {
    IndexWhere((e: Entry) => e.name == name, t)
  }

  function FindFunc(fs: seq<Func>, f: Func): (k: nat)
    ensures k <= |fs|
    ensures k < |fs| ==> fs[k] == f
    ensures forall j :: 0 <= j < k ==> fs[j] != f
  {
    IndexWhere((g: Func) => g == f, fs)
  }

  function On(t: Table, name: string, f: Func): Table {
    var k := FindName(t, name);
    if k < |t| then t[k := Entry(name, t[k].funcs + [f])] else t + [Entry(name, [f])]
  }

  function RemoveAll(t: Table, name: string): Table {
    var k := FindName(t, name);
    if k < |t| then t[k := Entry(name, [])] else t
  }

  function RemoveEvent(t: Table, name: string): Table {
    var k := FindName(t, name);
    if k < |t| then RemoveAt(t, k) else t
  }

  /** `remove_listener` as written: taking out the head drops the whole chain. */
  function WithoutListener(fs: seq<Func>, f: Func): seq<Func> {
    var j := FindFunc(fs, f);
    if j == |fs| then fs else if j == 0 then [] else RemoveAt(fs, j)
  }

  function RemoveListener(t: Table, name: string, f: Func): Table {
    var k := FindName(t, name);
    if k < |t| then t[k := Entry(name, WithoutListener(t[k].funcs, f))] else t
  }

  function Names(t: Table): (names: seq<string>)
    ensures |names| == |t|
    ensures forall i :: 0 <= i < |t| ==> names[i] == t[i].name
  {
    seq(|t|, i requires 0 <= i < |t| => t[i].name)
  }

  /** Whether the event exists, and the listeners an emit calls. */
  function Emit(t: Table, name: string): (bool, seq<Func>) {
    var k := FindName(t, name);
    if k < |t| then (true, t[k].funcs) else (false, [])
  }

  datatype Op =
    | AddOn(name: string, func: Func)
    | DropListener(name: string, func: Func)
    | DropAll(name: string)
    | DropEvent(name: string)
    | Destroy

  function Perform(t: Table, op: Op): Table {
    match op
    case AddOn(name, f) => On(t, name, f)
    case DropListener(name, f) => RemoveListener(t, name, f)
    case DropAll(name) => RemoveAll(t, name)
    case DropEvent(name) => RemoveEvent(t, name)
    case Destroy => []
  }

  function Run(ops: seq<Op>): Table {
    if ops == [] then [] else Perform(Run(ops[..|ops| - 1]), ops[|ops| - 1])
  }

  // ---- the reference: a map that remembers the order of its names -----------------------------

  datatype Ordered = Ordered(order: seq<string>, at: map<string, seq<Func>>)

  function Other(name: string): string -> bool {
    (n: string) => n != name
  }

  function RefRemove(order: seq<string>, name: string): seq<string> {
    Filter(Other(name), order)
  }

  function RemoveFirst(fs: seq<Func>, f: Func): seq<Func> {
    if fs == [] then [] else if fs[0] == f then fs[1..] else [fs[0]] + RemoveFirst(fs[1..], f)
  }

  function RefPerform(m: Ordered, op: Op): Ordered {
    match op
    case AddOn(name, f) =>
      if name in m.at then m.(at := m.at[name := m.at[name] + [f]])
      else Ordered(m.order + [name], m.at[name := [f]])
    case DropListener(name, f) =>
      if name in m.at then m.(at := m.at[name := RemoveFirst(m.at[name], f)]) else m
    case DropAll(name) =>
      if name in m.at then m.(at := m.at[name := []]) else m
    case DropEvent(name) => Ordered(RefRemove(m.order, name), m.at - {name})
    case Destroy => Ordered([], map[])
  }

  function RefRun(ops: seq<Op>): Ordered {
    if ops == [] then Ordered([], map[]) else RefPerform(RefRun(ops[..|ops| - 1]), ops[|ops| - 1])
  }

  // ---- refinement ---------------------------------------------------------------------------

  predicate DistinctNames(t: Table) {
    forall i, j :: 0 <= i < j < |t| ==> t[i].name != t[j].name
  }

  ghost predicate Refines(t: Table, m: Ordered) {
    && DistinctNames(t)
    && Names(t) == m.order
    && (forall n :: n in m.at <==> n in m.order)
    && (forall i :: 0 <= i < |t| ==> t[i].name in m.at && m.at[t[i].name] == t[i].funcs)
  }

  /** `removeListener` takes out exactly the first match if and only if that match is not the head
      of several listeners. */
  predicate Removable(fs: seq<Func>, f: Func) {
    |fs| <= 1 || fs[0] != f
  }

  lemma RemoveAtTail(fs: seq<Func>, j: nat)
    requires fs != []
    ensures fs == [fs[0]] + fs[1..]
    ensures j < |fs[1..]| ==> RemoveAt(fs, j + 1) == [fs[0]] + RemoveAt(fs[1..], j)
  {
  }

  lemma {:induction false} RemoveFirstAt(fs: seq<Func>, f: Func)
    ensures var j := FindFunc(fs, f);
      RemoveFirst(fs, f) == if j < |fs| then RemoveAt(fs, j) else fs
  {
    if fs == [] {
    } else if fs[0] == f {
      assert RemoveAt(fs, 0) == fs[1..];
    } else {
      RemoveFirstAt(fs[1..], f);
      RemoveAtTail(fs, FindFunc(fs[1..], f));
    }
  }

  lemma RemoveListenerExactly(fs: seq<Func>, f: Func)
    ensures WithoutListener(fs, f) == RemoveFirst(fs, f) <==> Removable(fs, f)
  {
    RemoveFirstAt(fs, f);
  }

  /** The operation removes no head of several listeners. */
  predicate Regular(t: Table, op: Op) {
    op.DropListener? ==>
      var k := FindName(t, op.name);
      k < |t| ==> Removable(t[k].funcs, op.func)
  }

  lemma FindIs(t: Table, m: Ordered, name: string)
    requires Refines(t, m)
    ensures name in m.at <==> FindName(t, name) < |t|
    ensures name in m.at ==> m.at[name] == t[FindName(t, name)].funcs
  {
    var k := FindName(t, name);
    if name in m.at {
      var i :| 0 <= i < |m.order| && m.order[i] == name;
      assert t[i].name == name;
    }
    if k < |t| { assert m.order[k] == name; }
  }

  lemma FilterOut(names: seq<string>, k: nat)
    requires k < |names| && forall i, j :: 0 <= i < j < |names| ==> names[i] != names[j]
    ensures RefRemove(names, names[k]) == RemoveAt(names, k)
  {
    var p := Other(names[k]);
    FilterAll(p, names[..k]);
    FilterAll(p, names[k + 1..]);
    assert names == names[..k] + ([names[k]] + names[k + 1..]);
    FilterAppend(p, names[..k], [names[k]] + names[k + 1..]);
    assert ([names[k]] + names[k + 1..])[1..] == names[k + 1..];
  }

  lemma FilterAll<X>(p: X -> bool, s: seq<X>)
    requires forall x :: x in s ==> p(x)
    ensures Filter(p, s) == s
  {
  }

  lemma UpdateRefines(t: Table, m: Ordered, k: nat, fs: seq<Func>)
    requires Refines(t, m) && k < |t|
    ensures Refines(t[k := Entry(t[k].name, fs)], m.(at := m.at[t[k].name := fs]))
  {
  }

  lemma NamesRemoveAt(t: Table, k: nat)
    requires k < |t|
    ensures Names(RemoveAt(t, k)) == RemoveAt(Names(t), k)
  {
  }

  lemma RemoveAtDistinct(t: Table, k: nat)
    requires k < |t| && DistinctNames(t)
    ensures DistinctNames(RemoveAt(t, k))
  {
    var r := RemoveAt(t, k);
    forall i, j | 0 <= i < j < |r| ensures r[i].name != r[j].name {
      assert r[i] == t[if i < k then i else i + 1] && r[j] == t[if j < k then j else j + 1];
    }
  }

  lemma DropAtEntries(t: Table, m: Ordered, k: nat)
    requires Refines(t, m) && k < |t|
    ensures var r, at := RemoveAt(t, k), m.at - {t[k].name};
      forall i :: 0 <= i < |r| ==> r[i].name in at && at[r[i].name] == r[i].funcs
  {
    var r := RemoveAt(t, k);
    forall i | 0 <= i < |r| ensures r[i] == t[if i < k then i else i + 1] && r[i].name != t[k].name { }
  }

  lemma DropAtRefines(t: Table, m: Ordered, k: nat)
    requires Refines(t, m) && k < |t|
    ensures Refines(RemoveAt(t, k), Ordered(RemoveAt(m.order, k), m.at - {t[k].name}))
  {
    NamesRemoveAt(t, k);
    RemoveAtDistinct(t, k);
    DropAtEntries(t, m, k);
    assert Distinct(m.order);
    RemoveAtKeeps(m.order, k);
  }

  lemma DropEventRefines(t: Table, m: Ordered, name: string)
    requires Refines(t, m)
    ensures Refines(RemoveEvent(t, name), RefPerform(m, DropEvent(name)))
  {
    var k := FindName(t, name);
    FindIs(t, m, name);
    if k < |t| {
      FilterOut(m.order, k);
      DropAtRefines(t, m, k);
    } else {
      forall n | n in m.order ensures Other(name)(n) { }
      FilterAll(Other(name), m.order);
      assert m.at - {name} == m.at;
    }
  }

  lemma AppendRefines(t: Table, m: Ordered, name: string, fs: seq<Func>)
    requires Refines(t, m) && name !in m.at
    ensures Refines(t + [Entry(name, fs)], Ordered(m.order + [name], m.at[name := fs]))
  {
    var t', order := t + [Entry(name, fs)], m.order + [name];
    assert forall i :: 0 <= i < |t| ==> m.order[i] == t[i].name && t'[i] == t[i];
    assert Names(t') == order;
    forall n ensures n in m.at[name := fs] <==> n in order {
      assert n in order <==> n in m.order || n == name;
    }
  }

  lemma OnRefines(t: Table, m: Ordered, name: string, f: Func)
    requires Refines(t, m)
    ensures Refines(On(t, name, f), RefPerform(m, AddOn(name, f)))
  {
    FindIs(t, m, name);
    var k := FindName(t, name);
    if k < |t| {
      UpdateRefines(t, m, k, t[k].funcs + [f]);
    } else {
      AppendRefines(t, m, name, [f]);
    }
  }

  lemma DropListenerRefines(t: Table, m: Ordered, name: string, f: Func)
    requires Refines(t, m)
    ensures Refines(RemoveListener(t, name, f), RefPerform(m, DropListener(name, f)))
      <==> Regular(t, DropListener(name, f))
  {
    FindIs(t, m, name);
    var k := FindName(t, name);
    if k < |t| {
      RemoveListenerExactly(t[k].funcs, f);
      var t', m' := RemoveListener(t, name, f), RefPerform(m, DropListener(name, f));
      UpdateRefines(t, m, k, WithoutListener(t[k].funcs, f));
      assert t'[k].name == name && t'[k].funcs == WithoutListener(t[k].funcs, f);
      assert m'.at[name] == RemoveFirst(t[k].funcs, f);
    }
  }

  /** An operation agrees with the ordered map if and only if it removes no head of several
      listeners. */
  lemma StepRefines(t: Table, m: Ordered, op: Op)
    requires Refines(t, m)
    ensures Refines(Perform(t, op), RefPerform(m, op)) <==> Regular(t, op)
  {
    match op
    case AddOn(name, f) => OnRefines(t, m, name, f);
    case DropListener(name, f) => DropListenerRefines(t, m, name, f);
    case DropAll(name) =>
      FindIs(t, m, name);
      var k := FindName(t, name);
      if k < |t| { UpdateRefines(t, m, k, []); }
    case DropEvent(name) => DropEventRefines(t, m, name);
    case Destroy =>
  }

  /** The first `n` operations leave the table as they leave the ordered map, and the next one, if
      there is one, removes no head of several listeners. */
  ghost predicate RefinesAt(ops: seq<Op>, n: nat)
    requires n <= |ops|
  {
    Refines(Run(ops[..n]), RefRun(ops[..n]))
  }

  predicate RegularAt(ops: seq<Op>, n: nat)
    requires n < |ops|
  {
    Regular(Run(ops[..n]), ops[n])
  }

  ghost predicate AlwaysRefines(ops: seq<Op>) {
    forall n :: 0 <= n <= |ops| ==> RefinesAt(ops, n)
  }

  ghost predicate AlwaysRegular(ops: seq<Op>) {
    forall n :: 0 <= n < |ops| ==> RegularAt(ops, n)
  }

  lemma PrefixAt(ops: seq<Op>, op: Op, n: nat)
    requires n <= |ops|
    ensures RefinesAt(ops + [op], n) == RefinesAt(ops, n)
    ensures n < |ops| ==> RegularAt(ops + [op], n) == RegularAt(ops, n)
    ensures n == |ops| ==> RegularAt(ops + [op], n) == Regular(Run(ops), op)
  {
    assert (ops + [op])[..n] == ops[..n];
    assert n == |ops| ==> ops[..n] == ops;
  }

  lemma RegularLast(ops: seq<Op>, op: Op)
    ensures AlwaysRegular(ops + [op]) <==> AlwaysRegular(ops) && Regular(Run(ops), op)
  {
    forall n | 0 <= n < |ops| ensures RegularAt(ops + [op], n) == RegularAt(ops, n) { PrefixAt(ops, op, n); }
    PrefixAt(ops, op, |ops|);
  }

  lemma RefinesLast(ops: seq<Op>, op: Op)
    ensures AlwaysRefines(ops + [op]) <==> AlwaysRefines(ops) && RefinesAt(ops + [op], |ops| + 1)
  {
    forall n | 0 <= n <= |ops| ensures RefinesAt(ops + [op], n) == RefinesAt(ops, n) { PrefixAt(ops, op, n); }
  }

  /** A history runs in step with the ordered map if and only if it removes no head of several
      listeners. */
  lemma {:induction false} HistoryRefines(ops: seq<Op>)
    ensures AlwaysRefines(ops) <==> AlwaysRegular(ops)
  {
    if ops == [] { return; }
    var before, op := ops[..|ops| - 1], ops[|ops| - 1];
    assert ops == before + [op];
    HistoryRefines(before);
    RegularLast(before, op);
    RefinesLast(before, op);
    if AlwaysRefines(before) {
      assert RefinesAt(before, |before|) && before[..|before|] == before && ops[..|ops|] == ops;
      StepRefines(Run(before), RefRun(before), op);
    }
  }

  /** After such a history an emit succeeds exactly when the event exists, calls its listeners once
      each in registration order, and the names come in the order of their first registration. */
  lemma EmitAfterHistory(ops: seq<Op>, name: string)
    requires AlwaysRegular(ops)
    ensures var t, m := Run(ops), RefRun(ops);
      && Emit(t, name) == (if name in m.at then (true, m.at[name]) else (false, []))
      && Names(t) == m.order
  {
    HistoryRefines(ops);
    assert RefinesAt(ops, |ops|) && ops[..|ops|] == ops;
    FindIs(Run(ops), RefRun(ops), name);
  }

  /** Names stay distinct in every history, the exceptional ones included. */
  lemma {:induction false} NamesStayDistinct(ops: seq<Op>)
    ensures DistinctNames(Run(ops))
  {
    if ops == [] { return; }
    NamesStayDistinct(ops[..|ops| - 1]);
    var t, op := Run(ops[..|ops| - 1]), ops[|ops| - 1];
    if op.DropEvent? {
      var k := FindName(t, op.name);
      if k < |t| { RemoveAtDistinct(t, k); }
    }
  }

  // ---- what an emit sees ----------------------------------------------------------------------

  lemma FindIsAt(t: Table, name: string, i: nat)
    requires i < |t| && t[i].name == name && forall j :: 0 <= j < i ==> t[j].name != name
    ensures FindName(t, name) == i
  {
  }

  lemma FindAfterRemove(t: Table, k: nat, name: string)
    requires k < |t| && t[k].name != name && FindName(t, name) < |t|
    ensures var r := RemoveAt(t, k);
      FindName(r, name) < |r| && r[FindName(r, name)] == t[FindName(t, name)]
  {
    var i := FindName(t, name);
    var r, i' := RemoveAt(t, k), if i < k then i else i - 1;
    forall j | 0 <= j < |r| ensures r[j] == t[if j < k then j else j + 1] { }
    assert r[i'] == t[i];
    FindIsAt(r, name, i');
  }

  /** What a name tells after `removeListener`: as before if the function is not there; nothing if it is the
      first; and else without the first of its listeners that has the function. */
  predicate Without(before: seq<Func>, after: seq<Func>, f: Func) {
    if f !in before then after == before
    else if before[0] == f then after == []
    else exists j :: 0 < j < |before| && before[j] == f && f !in before[..j] && after == before[..j] + before[j + 1..]
  }

  lemma WithoutIs(fs: seq<Func>, f: Func)
    ensures Without(fs, WithoutListener(fs, f), f)
  {
    var j := FindFunc(fs, f);
    if j < |fs| { assert f !in fs[..j]; }
  }

  lemma UpdateSeen(t: Table, k: nat, fs: seq<Func>, name: string)
    requires DistinctNames(t) && k < |t|
    ensures var t' := t[k := Entry(t[k].name, fs)];
      && Emit(t', name) == (if t[k].name == name then (true, fs) else Emit(t, name))
      && Names(t') == Names(t)
  {
    var i, t' := FindName(t, name), t[k := Entry(t[k].name, fs)];
    if t[k].name == name {
      FindIsAt(t', name, k);
    } else if i < |t| {
      FindIsAt(t', name, i);
    }
  }

  lemma AppendSeen(t: Table, n: string, fs: seq<Func>, name: string)
    requires FindName(t, n) == |t|
    ensures Emit(t + [Entry(n, fs)], name) == if n == name then (true, fs) else Emit(t, name)
    ensures Names(t + [Entry(n, fs)]) == Names(t) + [n]
  {
    var i, t' := FindName(t, name), t + [Entry(n, fs)];
    if n == name {
      FindIsAt(t', name, |t|);
    } else if i < |t| {
      FindIsAt(t', name, i);
    }
  }

  lemma NameKnown(t: Table, n: string)
    ensures FindName(t, n) < |t| <==> n in Names(t)
  {
    if FindName(t, n) < |t| { assert Names(t)[FindName(t, n)] == n; }
  }

  lemma AddSeen(t: Table, n: string, f: Func, name: string)
    requires DistinctNames(t)
    ensures Emit(On(t, n, f), name) == if n == name then (true, Emit(t, name).1 + [f]) else Emit(t, name)
    ensures Names(On(t, n, f)) == if n in Names(t) then Names(t) else Names(t) + [n]
  {
    var k := FindName(t, n);
    NameKnown(t, n);
    if k < |t| {
      UpdateSeen(t, k, t[k].funcs + [f], name);
    } else {
      AppendSeen(t, n, [f], name);
      assert [] + [f] == [f];
    }
  }

  lemma DropSeen(t: Table, n: string, name: string)
    requires DistinctNames(t)
    ensures Emit(RemoveEvent(t, n), name) == if n == name then (false, []) else Emit(t, name)
    ensures forall x :: x in Names(RemoveEvent(t, n)) <==> x in Names(t) && x != n
  {
    var k, t' := FindName(t, n), RemoveEvent(t, n);
    if k < |t| {
      NamesRemoveAt(t, k);
      assert Distinct(Names(t)) && Names(t)[k] == n;
      RemoveAtKeeps(Names(t), k);
      if n != name && FindName(t, name) < |t| { FindAfterRemove(t, k, name); }
      assert FindName(t', name) < |t'| ==> Names(t')[FindName(t', name)] == name;
      assert FindName(t, name) < |t| ==> Names(t)[FindName(t, name)] == name;
    }
  }

  /** In every history: each operation changes what an emit of its own event calls, as its name says, and
      nothing of any other event; events are known in the order in which they were created. */
  lemma EmitAfterOp(ops: seq<Op>, op: Op, name: string)
    ensures var t, t' := Run(ops), Run(ops + [op]);
      var before, after := Emit(t, name), Emit(t', name);
      if op.AddOn? then
        && after == (if op.name == name then (true, before.1 + [op.func]) else before)
        && Names(t') == if op.name in Names(t) then Names(t) else Names(t) + [op.name]
      else if op.DropListener? then
        && (if op.name == name then after.0 == before.0 && Without(before.1, after.1, op.func) else after == before)
        && Names(t') == Names(t)
      else if op.DropAll? then
        && after == (if op.name == name then (before.0, []) else before)
        && Names(t') == Names(t)
      else if op.DropEvent? then
        && after == (if op.name == name then (false, []) else before)
        && forall x :: x in Names(t') <==> x in Names(t) && x != op.name
      else after == (false, []) && Names(t') == []
  {
    var t := Run(ops);
    assert (ops + [op])[..|ops|] == ops;
    NamesStayDistinct(ops);
    match op
    case AddOn(n, f) => AddSeen(t, n, f, name);
    case DropListener(n, f) =>
      var k := FindName(t, n);
      if k < |t| {
        UpdateSeen(t, k, WithoutListener(t[k].funcs, f), name);
        WithoutIs(t[k].funcs, f);
      }
    case DropAll(n) =>
      var k := FindName(t, n);
      if k < |t| { UpdateSeen(t, k, [], name); }
    case DropEvent(n) => DropSeen(t, n, name);
    case Destroy =>
  }
}
