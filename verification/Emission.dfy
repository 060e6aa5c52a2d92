/** An emit whose listeners change the emitter while it goes through them: as a function on the table,
    and what follows from it. */
module Emission {
  import opened Events

  /** Where the listener stands that the emit has called: at a place in its event's chain; cut off from
      it without being freed, together with those that follow it; or freed. */
  datatype Place = In(a: nat) | Cut(rest: seq<Func>) | Freed

  function FuncsOf(t: Table, name: string): seq<Func> {
    var k := FindName(t, name);
    if k < |t| then t[k].funcs else []
  }

  /** Taking out the first listener with function `f`, seen from place `a`. */
  function MoveOnRemoval(fs: seq<Func>, f: Func, a: nat): Place {
    var j := FindFunc(fs, f);
    if j == |fs| || a >= |fs| || a < j then In(a)
    else if j == a then Freed
    else if j == 0 then Cut(fs[a + 1..])
    else In(a - 1)
  }

  /** What an operation does to a listener of event `name`. */
  function Move(t: Table, name: string, p: Place, op: Op): Place {
    if !p.In? then p
    else
      match op
      case AddOn(_, _) => p
      case DropListener(n, f) => if n == name then MoveOnRemoval(FuncsOf(t, name), f, p.a) else p
      case DropAll(n) => if n == name then Freed else p
      case DropEvent(n) => if n == name then Freed else p
      case Destroy => Freed
  }

  /** The operations a listener performs when it is called. */
  function Play(t: Table, name: string, p: Place, script: seq<Op>): (Table, Place) {
    if script == [] then (t, p)
    else
      var (t', p') := Play(t, name, p, script[..|script| - 1]);
      (Perform(t', script[|script| - 1]), Move(t', name, p', script[|script| - 1]))
  }

  /** The functions of the listeners that follow. */
  function Following(t: Table, name: string, p: Place): seq<Func> {
    match p
    case In(a) => if a < |FuncsOf(t, name)| then FuncsOf(t, name)[a + 1..] else []
    case Cut(rest) => rest
    case Freed => []
  }

  function Next(p: Place): Place {
    match p
    case In(a) => In(a + 1)
    case Cut(rest) => if rest == [] then p else Cut(rest[1..])
    case Freed => p
  }

  /** The table the emit leaves, the functions it called, and whether it read a freed listener. */
  datatype Outcome = Outcome(table: Table, called: seq<Func>, dangling: bool)

  function Script(scripts: seq<seq<Op>>): seq<Op> {
    if scripts == [] then [] else scripts[0]
  }

  function Later(scripts: seq<seq<Op>>): seq<seq<Op>> {
    if scripts == [] then [] else scripts[1..]
  }

  /** The emit from the call of the listener at `p`, whose function is `f`; the i-th listener called
      performs the i-th script, and those after the last script perform nothing. */
  function CallFrom(t: Table, name: string, f: Func, p: Place, scripts: seq<seq<Op>>): Outcome
    decreases |scripts|, |Following(t, name, p)|
  {
    var (t', p') := Play(t, name, p, Script(scripts));
    var rest := Following(t', name, p');
    if p'.Freed? then Outcome(t', [f], true)
    else if rest == [] then Outcome(t', [f], false)
    else
      var o := CallFrom(t', name, rest[0], Next(p'), Later(scripts));
      o.(called := [f] + o.called)
  }

  /** The outcome after these functions have been called already. */
  function Called(called: seq<Func>, o: Outcome): Outcome {
    o.(called := called + o.called)
  }

  /** One call more. */
  lemma CalledMore(called: seq<Func>, t: Table, name: string, f: Func, p: Place, scripts: seq<seq<Op>>)
    ensures var (t', p') := Play(t, name, p, Script(scripts)); var rest := Following(t', name, p');
      Called(called, CallFrom(t, name, f, p, scripts)) ==
        if p'.Freed? then Outcome(t', called + [f], true)
        else if rest == [] then Outcome(t', called + [f], false)
        else Called(called + [f], CallFrom(t', name, rest[0], Next(p'), Later(scripts)))
  {
    var (t', p') := Play(t, name, p, Script(scripts));
    var rest := Following(t', name, p');
    if !p'.Freed? && rest != [] {
      var o := CallFrom(t', name, rest[0], Next(p'), Later(scripts));
      assert called + ([f] + o.called) == (called + [f]) + o.called;
    }
  }

  /** Once the scripts are used up the listeners that follow get fewer. */
  lemma FewerFollow(t: Table, name: string, p: Place)
    ensures Play(t, name, p, []) == (t, p)
    ensures Following(t, name, p) != [] ==> |Following(t, name, Next(p))| < |Following(t, name, p)|
  {
  }

  /** The whole emit, and whether the event exists. */
  function EmitWith(t: Table, name: string, scripts: seq<seq<Op>>): (bool, Outcome) {
    var k := FindName(t, name);
    if k == |t| then (false, Outcome(t, [], false))
    else if t[k].funcs == [] then (true, Outcome(t, [], false))
    else (true, CallFrom(t, name, t[k].funcs[0], In(0), scripts))
  }

  // ---- listeners that leave the emitted event's listeners in place -----------------------------

  /** The operation takes no listener out of event `name`. */
  predicate Tame(op: Op, name: string) {
    op.AddOn? || (!op.Destroy? && op.name != name)
  }

  predicate TameAll(script: seq<Op>, name: string) {
    forall op :: op in script ==> Tame(op, name)
  }

  predicate AllTame(scripts: seq<seq<Op>>, name: string) {
    forall script :: script in scripts ==> TameAll(script, name)
  }

  lemma TameParts(scripts: seq<seq<Op>>, name: string)
    requires AllTame(scripts, name)
    ensures TameAll(Script(scripts), name) && AllTame(Later(scripts), name)
  {
    if scripts != [] { assert scripts[0] in scripts; }
  }

  function AddedBy(op: Op, name: string): seq<Func> {
    if op.AddOn? && op.name == name then [op.func] else []
  }

  lemma TameOp(t: Table, name: string, op: Op)
    requires FindName(t, name) < |t| && Tame(op, name)
    ensures FindName(Perform(t, op), name) < |Perform(t, op)|
    ensures FuncsOf(Perform(t, op), name) == FuncsOf(t, name) + AddedBy(op, name)
  {
    var i, k, t' := FindName(t, name), FindName(t, op.name), Perform(t, op);
    if op.DropEvent? && k < |t| {
      FindAfterRemove(t, k, name);
    } else {
      assert forall j :: 0 <= j < |t| ==> t'[j].name == t[j].name;
      FindIsAt(t', name, i);
    }
  }

  lemma {:induction false} TameScript(t: Table, name: string, a: nat, script: seq<Op>)
    requires FindName(t, name) < |t| && TameAll(script, name)
    ensures var (t', p) := Play(t, name, In(a), script);
      p == In(a) && FindName(t', name) < |t'| && FuncsOf(t, name) <= FuncsOf(t', name)
  {
    if script != [] {
      var n := |script| - 1;
      TameScript(t, name, a, script[..n]);
      TameOp(Play(t, name, In(a), script[..n]).0, name, script[n]);
    }
  }

  lemma FromAt(fs: seq<Func>, a: nat)
    requires a < |fs|
    ensures fs[a..] == [fs[a]] + fs[a + 1..]
  {
  }

  /** One call of a listener that leaves the event's listeners in place. */
  lemma TameCall(t: Table, name: string, a: nat, scripts: seq<seq<Op>>)
    requires FindName(t, name) < |t| && a < |FuncsOf(t, name)| && TameAll(Script(scripts), name)
    ensures var t' := Play(t, name, In(a), Script(scripts)).0; var fs := FuncsOf(t', name);
      && FindName(t', name) < |t'| && FuncsOf(t, name) <= fs && a < |fs| && (scripts == [] ==> t' == t)
      && CallFrom(t, name, FuncsOf(t, name)[a], In(a), scripts) ==
           if a + 1 == |fs| then Outcome(t', [fs[a]], false)
           else Called([fs[a]], CallFrom(t', name, fs[a + 1], In(a + 1), Later(scripts)))
  {
    TameScript(t, name, a, Script(scripts));
    CalledMore([], t, name, FuncsOf(t, name)[a], In(a), scripts);
    CalledNone(CallFrom(t, name, FuncsOf(t, name)[a], In(a), scripts));
  }

  lemma CalledNone(o: Outcome)
    ensures Called([], o) == o
  {
  }

  /** From place `a` on the emit has called exactly what the event has in the end. */
  predicate CallsAll(t: Table, name: string, a: nat, o: Outcome) {
    var fs := FuncsOf(o.table, name);
    && !o.dangling && FindName(o.table, name) < |o.table|
    && FuncsOf(t, name) <= fs && a <= |fs| && o.called == fs[a..]
  }

  lemma CallsAllNow(t: Table, t': Table, name: string, a: nat)
    requires FindName(t', name) < |t'| && FuncsOf(t, name) <= FuncsOf(t', name) && a + 1 == |FuncsOf(t', name)|
    ensures CallsAll(t, name, a, Outcome(t', [FuncsOf(t', name)[a]], false))
  {
    FromAt(FuncsOf(t', name), a);
  }

  lemma CallsAllThen(t: Table, t': Table, name: string, a: nat, o: Outcome)
    requires FuncsOf(t, name) <= FuncsOf(t', name) && a + 1 < |FuncsOf(t', name)| && CallsAll(t', name, a + 1, o)
    ensures CallsAll(t, name, a, Called([FuncsOf(t', name)[a]], o))
  {
    FromAt(FuncsOf(o.table, name), a);
  }

  /** One call, given that the calls after it are as they should be. */
  lemma TameStep(t: Table, name: string, a: nat, scripts: seq<seq<Op>>, t': Table, fs: seq<Func>)
    requires FindName(t, name) < |t| && a < |FuncsOf(t, name)| && TameAll(Script(scripts), name)
    requires t' == Play(t, name, In(a), Script(scripts)).0 && fs == FuncsOf(t', name)
    requires a + 1 < |fs| ==>
      CallsAll(t', name, a + 1, CallFrom(t', name, fs[a + 1], In(a + 1), Later(scripts)))
    ensures CallsAll(t, name, a, CallFrom(t, name, FuncsOf(t, name)[a], In(a), scripts))
  {
    TameCall(t, name, a, scripts);
    if a + 1 < |fs| {
      CallsAllThen(t, t', name, a, CallFrom(t', name, fs[a + 1], In(a + 1), Later(scripts)));
    } else {
      CallsAllNow(t, t', name, a);
    }
  }

  lemma {:induction false} TameCalls(t: Table, name: string, a: nat, scripts: seq<seq<Op>>)
    requires FindName(t, name) < |t| && a < |FuncsOf(t, name)|
    requires AllTame(scripts, name)
    ensures CallsAll(t, name, a, CallFrom(t, name, FuncsOf(t, name)[a], In(a), scripts))
    decreases |scripts|, |FuncsOf(t, name)| - a
  {
    TameParts(scripts, name);
    TameScript(t, name, a, Script(scripts));
    var t' := Play(t, name, In(a), Script(scripts)).0;
    var fs := FuncsOf(t', name);
    if a + 1 < |fs| { TameCalls(t', name, a + 1, Later(scripts)); }
    TameStep(t, name, a, scripts, t', fs);
  }

  /** While no listener is taken out of the event, whatever else is added and removed, no freed listener
      is read, and exactly the listeners that the event has in the end are called, in their order:
      those registered meanwhile too. */
  lemma TameEmit(t: Table, name: string, scripts: seq<seq<Op>>)
    requires AllTame(scripts, name)
    ensures var (passed, o) := EmitWith(t, name, scripts);
      !o.dangling && (passed, o.called) == Emit(o.table, name)
  {
    var k := FindName(t, name);
    if k < |t| && t[k].funcs != [] {
      TameCalls(t, name, 0, scripts);
      var o := CallFrom(t, name, t[k].funcs[0], In(0), scripts);
      assert FuncsOf(o.table, name)[0..] == FuncsOf(o.table, name);
    }
  }

  /** In particular listeners that leave the emitter alone. */
  lemma QuietEmit(t: Table, name: string)
    ensures EmitWith(t, name, []) == (Emit(t, name).0, Outcome(t, Emit(t, name).1, false))
  {
    TameEmit(t, name, []);
    QuietTable(t, name);
  }

  lemma QuietTable(t: Table, name: string)
    ensures EmitWith(t, name, []).1.table == t
  {
    var k := FindName(t, name);
    if k < |t| && t[k].funcs != [] { QuietCalls(t, name, t[k].funcs[0], In(0)); }
  }

  lemma {:induction false} QuietCalls(t: Table, name: string, f: Func, p: Place)
    ensures CallFrom(t, name, f, p, []).table == t
    decreases |Following(t, name, p)|
  {
    var rest := Following(t, name, p);
    if !p.Freed? && rest != [] { QuietCalls(t, name, rest[0], Next(p)); }
  }

  // ---- listeners that are freed while they are called -------------------------------------------

  /** The emit has called `i` listeners and is calling the next: the table and its place. */
  function Calling(t: Table, name: string, p: Place, scripts: seq<seq<Op>>, i: nat): (Table, Place)
    decreases i
  {
    if i == 0 then (t, p)
    else
      var (t', p') := Play(t, name, p, Script(scripts));
      Calling(t', name, Next(p'), Later(scripts), i - 1)
  }

  function Drop(scripts: seq<seq<Op>>, i: nat): seq<seq<Op>> {
    if i <= |scripts| then scripts[i..] else []
  }

  /** A freed listener is read exactly when the listener being called is freed during its own call. */
  lemma {:induction false} DanglesExactly(t: Table, name: string, f: Func, p: Place, scripts: seq<seq<Op>>)
    requires !p.Freed?
    ensures var o := CallFrom(t, name, f, p, scripts);
      && o.called != []
      && forall i :: 0 <= i < |o.called| ==>
           var (t', p') := Calling(t, name, p, scripts, i);
           && !p'.Freed?
           && (Play(t', name, p', Script(Drop(scripts, i))).1.Freed? <==> o.dangling && i == |o.called| - 1)
    decreases |scripts|, |Following(t, name, p)|
  {
    var o := CallFrom(t, name, f, p, scripts);
    var (t1, p1) := Play(t, name, p, Script(scripts));
    var rest := Following(t1, name, p1);
    if !p1.Freed? && rest != [] {
      DanglesExactly(t1, name, rest[0], Next(p1), Later(scripts));
      forall i | 1 <= i < |o.called|
        ensures Calling(t, name, p, scripts, i) == Calling(t1, name, Next(p1), Later(scripts), i - 1)
        ensures Drop(scripts, i) == Drop(Later(scripts), i - 1)
      {
      }
    }
  }

  // ---- what the listeners do -------------------------------------------------------------------

  function PerformAll(t: Table, ops: seq<Op>): Table {
    if ops == [] then t else Perform(PerformAll(t, ops[..|ops| - 1]), ops[|ops| - 1])
  }

  /** The scripts one after the other. */
  function Together(scripts: seq<seq<Op>>): seq<Op> {
    if scripts == [] then [] else scripts[0] + Together(scripts[1..])
  }

  lemma {:induction false} PerformAllAppend(t: Table, a: seq<Op>, b: seq<Op>)
    ensures PerformAll(t, a + b) == PerformAll(PerformAll(t, a), b)
  {
    if b == [] {
      assert a + b == a;
    } else {
      PerformAllAppend(t, a, b[..|b| - 1]);
      assert (a + b)[..|a + b| - 1] == a + b[..|b| - 1];
    }
  }

  lemma {:induction false} PlayPerforms(t: Table, name: string, p: Place, script: seq<Op>)
    ensures Play(t, name, p, script).0 == PerformAll(t, script)
  {
    if script != [] { PlayPerforms(t, name, p, script[..|script| - 1]); }
  }

  function FirstOf(scripts: seq<seq<Op>>, n: nat): seq<seq<Op>> {
    if n <= |scripts| then scripts[..n] else scripts
  }

  lemma TogetherStep(t: Table, scripts: seq<seq<Op>>, n: nat)
    ensures PerformAll(PerformAll(t, Script(scripts)), Together(FirstOf(Later(scripts), n)))
      == PerformAll(t, Together(FirstOf(scripts, n + 1)))
  {
    var rest := FirstOf(Later(scripts), n);
    PerformAllAppend(t, Script(scripts), Together(rest));
    if scripts == [] {
      assert [] + Together(rest) == Together(rest);
    } else {
      assert FirstOf(scripts, n + 1)[1..] == rest;
    }
  }

  lemma {:induction false} CallsPerform(t: Table, name: string, f: Func, p: Place, scripts: seq<seq<Op>>)
    ensures var o := CallFrom(t, name, f, p, scripts);
      o.called != [] && o.called[0] == f && o.table == PerformAll(t, Together(FirstOf(scripts, |o.called|)))
    decreases |scripts|, |Following(t, name, p)|
  {
    var (t1, p1) := Play(t, name, p, Script(scripts));
    var rest := Following(t1, name, p1);
    PlayPerforms(t, name, p, Script(scripts));
    if !p1.Freed? && rest != [] {
      CallsPerform(t1, name, rest[0], Next(p1), Later(scripts));
      TogetherStep(t, scripts, |CallFrom(t1, name, rest[0], Next(p1), Later(scripts)).called|);
    } else {
      TogetherStep(t, scripts, 0);
      assert FirstOf(Later(scripts), 0) == [];
    }
  }

  /** Every listener called performs the whole of its script, in the order of the calls, the one that is
      freed by it included, and nothing else happens to the table.  The first called is the event's
      first. */
  lemma ScriptsArePerformed(t: Table, name: string, scripts: seq<seq<Op>>)
    ensures EmitWith(t, name, scripts).0 == Emit(t, name).0
    ensures var o := EmitWith(t, name, scripts).1;
      && o.table == PerformAll(t, Together(if |o.called| <= |scripts| then scripts[..|o.called|] else scripts))
      && (if Emit(t, name).1 == [] then o.called == [] else o.called != [] && o.called[0] == Emit(t, name).1[0])
  {
    var k := FindName(t, name);
    if k < |t| && t[k].funcs != [] {
      CallsPerform(t, name, t[k].funcs[0], In(0), scripts);
    } else {
      assert scripts[..0] == [];
    }
  }

  /** A listener that removes its own function is freed by that, and so read after it is freed, exactly
      when no listener before it has the function too. */
  lemma RemovesItself(t: Table, name: string, a: nat)
    requires a < |FuncsOf(t, name)|
    ensures var fs := FuncsOf(t, name);
      Move(t, name, In(a), DropListener(name, fs[a])).Freed? <==> forall j :: 0 <= j < a ==> fs[j] != fs[a]
  {
  }

  /** When the head is removed while a later listener is being called, the emit goes on through the
      listeners that the removal has cut off. */
  lemma CutOffAreCalled(t: Table, name: string, a: nat, scripts: seq<seq<Op>>)
    requires 0 < a < |FuncsOf(t, name)| && Script(scripts) == [DropListener(name, FuncsOf(t, name)[0])]
    requires forall script :: script in Later(scripts) ==> script == []
    ensures var fs := FuncsOf(t, name); var o := CallFrom(t, name, fs[a], In(a), scripts);
      !o.dangling && o.called == fs[a..] && FuncsOf(o.table, name) == []
  {
    var fs := FuncsOf(t, name);
    HeadRemoved(t, name, a);
    CalledMore([], t, name, fs[a], In(a), scripts);
    CalledNone(CallFrom(t, name, fs[a], In(a), scripts));
    FromAt(fs, a);
    if a + 1 < |fs| {
      FromAt(fs, a + 1);
      CutCalls(Perform(t, DropListener(name, fs[0])), name, fs[a + 1], fs[a + 2..], Later(scripts));
    }
  }

  lemma HeadRemoved(t: Table, name: string, a: nat)
    requires 0 < a < |FuncsOf(t, name)|
    ensures var fs := FuncsOf(t, name); var op := DropListener(name, fs[0]);
      Play(t, name, In(a), [op]) == (Perform(t, op), Cut(fs[a + 1..])) && FuncsOf(Perform(t, op), name) == []
  {
    var op := DropListener(name, FuncsOf(t, name)[0]);
    assert [op][..0] == [];
    FindIsAt(Perform(t, op), name, FindName(t, name));
  }

  lemma {:induction false} CutCalls(t: Table, name: string, f: Func, rest: seq<Func>, scripts: seq<seq<Op>>)
    requires forall script :: script in scripts ==> script == []
    ensures CallFrom(t, name, f, Cut(rest), scripts) == Outcome(t, [f] + rest, false)
    decreases |rest|
  {
    assert Script(scripts) == [] by { if scripts != [] { assert scripts[0] in scripts; } }
    if rest != [] {
      forall script | script in Later(scripts) ensures script in scripts { }
      CutCalls(t, name, rest[0], rest[1..], Later(scripts));
      assert rest == [rest[0]] + rest[1..];
    }
  }
}
