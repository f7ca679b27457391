/** The recalculation scheduler of `ComputeGraph`: `updateNode` (resolve one
    vertex from clean inputs) and the retry-queue `update`, as functions of
    the store. */
module Scheduler {
  import opened Wrappers
  import Operations
  import opened Traversal
  import opened Store

  /** `inNeighbors(n)`: the inputs, in store order; all are vertices. */
  function Inputs(g: Graph, n: string): (r: seq<string>)
    requires WellFormed(g) && n in g.attrs
    ensures forall i :: 0 <= i < |r| ==> r[i] in g.attrs
  {
    NeighboursExist(g, n);
    g.inN[n]
  }

  /** `inputNodes.some(n => getNodeDirty(n))` */
  predicate AnyDirty(g: Graph, ins: seq<string>): (b: bool)
    requires forall i :: 0 <= i < |ins| ==> ins[i] in g.attrs
    ensures b <==> exists n :: n in ins && g.attrs[n].dirty
    ensures ins == [] ==> !b
  {
    exists i :: 0 <= i < |ins| && g.attrs[ins[i]].dirty
  }

  /** The `reduce` that collects the inputs' values in in-neighbour order;
      an input without a value contributes `undefined`. */
  function InputValues(g: Graph, ins: seq<string>): (r: seq<Option<real>>)
    requires forall i :: 0 <= i < |ins| ==> ins[i] in g.attrs
    ensures |r| == |ins| && forall i :: 0 <= i < |ins| ==> r[i] == g.attrs[ins[i]].value
  {
    seq(|ins|, i requires 0 <= i < |ins| => g.attrs[ins[i]].value)
  }

  /** `operations[key](args)`: calling the missing function of an
      unregistered key throws. */
  function Evaluate(g: Graph, key: Option<string>, ins: seq<string>): (r: Operations.Outcome)
    requires forall i :: 0 <= i < |ins| ==> ins[i] in g.attrs
    ensures r.Throws? <==>
      Operations.Lookup(key).None? ||
      (ins == [] && Operations.Lookup(key).value in {Operations.Sum, Operations.Difference, Operations.Product, Operations.Quotient, Operations.Average})
  {
    match Operations.Lookup(key)
    case None => Operations.Throws
    case Some(op) => Operations.Apply(op, InputValues(g, ins))
  }

  /** Whether resolving n writes a value (through setNodeValue). */
  predicate WritesValue(g: Graph, n: string)
    requires n in g.attrs && n in g.inN
  {
    g.attrs[n].kind == Compute || |g.inN[n]| > 0
  }

  /** t is s after resolving n: only n's value and dirty flag changed, n is
      clean, and `_values[n]` was written exactly when a value was. */
  ghost predicate Settles(s: Snapshot, t: Snapshot, n: string)
    requires WellFormed(s.graph) && n in s.graph.attrs
  {
    && t.graph.order == s.graph.order
    && t.graph.inN == s.graph.inN
    && t.graph.outN == s.graph.outN
    && t.graph.attrs.Keys == s.graph.attrs.Keys
    && (forall m :: m in s.graph.attrs && m != n ==> t.graph.attrs[m] == s.graph.attrs[m])
    && t.graph.attrs[n] == s.graph.attrs[n].(value := t.graph.attrs[n].value, dirty := false)
    && (WritesValue(s.graph, n) ==> t.values == s.values[n := t.graph.attrs[n].value])
    && (!WritesValue(s.graph, n) ==> t.values == s.values && t.graph.attrs[n].value == s.graph.attrs[n].value)
  }

  /** setNodeValue(n, v) followed by clearing n's dirty flag. */
  function Assign(s: Snapshot, n: string, v: Option<real>): (r: Snapshot)
    requires Valid(s) && n in s.graph.attrs
    ensures Valid(r)
    ensures r.graph == s.graph.(attrs := s.graph.attrs[n := s.graph.attrs[n].(value := v, dirty := false)])
    ensures r.values == s.values[n := v]
  {
    var u := s.graph.attrs[n].(value := v, dirty := false);
    ReplacedValid(s, n, u);
    Snapshot(s.graph.(attrs := s.graph.attrs[n := u]), s.values[n := u.value])
  }

  /** setNodeDirty(n, false) alone. */
  function Clean(s: Snapshot, n: string): (r: Snapshot)
    requires Valid(s) && n in s.graph.attrs
    ensures Valid(r)
    ensures r.graph == s.graph.(attrs := s.graph.attrs[n := s.graph.attrs[n].(dirty := false)])
    ensures r.values == s.values
  {
    var attrs := s.graph.attrs[n := s.graph.attrs[n].(dirty := false)];
    assert attrs.Keys == s.graph.attrs.Keys;
    s.(graph := s.graph.(attrs := attrs))
  }

  lemma AssignSettles(s: Snapshot, n: string, v: Option<real>)
    requires Valid(s) && n in s.graph.attrs && WritesValue(s.graph, n)
    ensures Settles(s, Assign(s, n, v), n)
  {
  }

  lemma CleanSettles(s: Snapshot, n: string)
    requires Valid(s) && n in s.graph.attrs && !WritesValue(s.graph, n)
    ensures Settles(s, Clean(s, n), n)
  {
  }

  lemma AssignSteps(s: Snapshot, n: string, v: Option<real>)
    requires Valid(s) && n in s.graph.attrs
    ensures SetDirty(Write(s, n, v), n, false) == Assign(s, n, v)
    ensures SetDirty(s, n, false) == Clean(s, n)
  {
    var a := s.graph.attrs;
    var x := a[n].(value := v);
    assert a[n := x][n := x.(dirty := false)] == a[n := a[n].(value := v, dirty := false)];
  }

  /** updateNode(n): None when the update cannot be made (the method returns
      false and changes nothing), otherwise the store after it. */
  function Resolve(s: Snapshot, n: string): (r: Option<Snapshot>)
    requires Valid(s)
    ensures r.Some? ==> n in s.graph.attrs && Valid(r.value) && Settles(s, r.value, n)
  {
    if n !in s.graph.attrs then None
    else
      NeighboursExist(s.graph, n);
      var v := s.graph.attrs[n];
      var ins := s.graph.inN[n];
      if v.kind == Compute then
        if AnyDirty(s.graph, ins) then None
        else
          match Evaluate(s.graph, v.operation, ins)
          case Throws => None
          case Returns(x) => AssignSettles(s, n, x); Some(Assign(s, n, x))
      else if |ins| > 0 then
        if AnyDirty(s.graph, ins) then None
        else AssignSettles(s, n, s.graph.attrs[ins[0]].value); Some(Assign(s, n, s.graph.attrs[ins[0]].value))
      else CleanSettles(s, n); Some(Clean(s, n))
  }

  /** n is clean, its inputs are clean, and its value is what its inputs
      give: the operation's result for a compute vertex, the first input's
      value for a pass-through vertex; a vertex without inputs keeps the
      value it was given. */
  ghost predicate Resolved(g: Graph, n: string)
    requires WellFormed(g) && n in g.attrs
  {
    var v := g.attrs[n];
    var ins := Inputs(g, n);
    && !v.dirty
    && !AnyDirty(g, ins)
    && (v.kind == Compute ==> Evaluate(g, v.operation, ins) == Operations.Returns(v.value))
    && (v.kind != Compute && |ins| > 0 ==> v.value == g.attrs[ins[0]].value)
  }

  /** The dirty-flag invariant: every clean vertex is resolved. */
  ghost predicate Consistent(g: Graph)
    requires WellFormed(g)
  {
    forall n :: n in g.attrs && !g.attrs[n].dirty ==> Resolved(g, n)
  }

  /** Resolved reads only the vertex, its in-neighbour list and its inputs. */
  lemma ResolvedFrame(g: Graph, h: Graph, m: string)
    requires WellFormed(g) && WellFormed(h) && m in g.attrs && m in h.attrs
    requires h.inN[m] == g.inN[m] && h.attrs[m] == g.attrs[m]
    requires forall i :: 0 <= i < |g.inN[m]| ==> g.inN[m][i] in h.attrs && h.attrs[g.inN[m][i]] == g.attrs[g.inN[m][i]]
    ensures Resolved(g, m) <==> Resolved(h, m)
  {
    var ins := Inputs(g, m);
    var v := g.attrs[m];
    assert Inputs(h, m) == ins;
    InputsFrame(g, h, ins);
    assert Evaluate(g, v.operation, ins) == Evaluate(h, v.operation, ins);
  }

  /** The inputs' dirty flags and values are all that AnyDirty and
      InputValues read. */
  lemma InputsFrame(g: Graph, h: Graph, ins: seq<string>)
    requires forall i :: 0 <= i < |ins| ==> ins[i] in g.attrs && ins[i] in h.attrs && h.attrs[ins[i]] == g.attrs[ins[i]]
    ensures AnyDirty(g, ins) <==> AnyDirty(h, ins)
    ensures InputValues(g, ins) == InputValues(h, ins)
  {
    if AnyDirty(g, ins) {
      var i :| 0 <= i < |ins| && g.attrs[ins[i]].dirty;
      assert h.attrs[ins[i]].dirty;
    }
    if AnyDirty(h, ins) {
      var i :| 0 <= i < |ins| && h.attrs[ins[i]].dirty;
      assert g.attrs[ins[i]].dirty;
    }
  }

  /** Resolving a dirty vertex leaves it resolved: it cannot be its own input,
      since a dirty input defers it. */
  lemma ResolveMakesResolved(s: Snapshot, n: string)
    requires Valid(s) && n in s.graph.attrs && s.graph.attrs[n].dirty
    requires Resolve(s, n).Some?
    ensures Resolved(Resolve(s, n).value.graph, n)
  {
    var t := Resolve(s, n).value;
    NeighboursExist(s.graph, n);
    var ins := s.graph.inN[n];
    assert !AnyDirty(s.graph, ins) by {
      if |ins| > 0 || s.graph.attrs[n].kind == Compute {
      }
    }
    forall i | 0 <= i < |ins| ensures ins[i] != n {
      assert !s.graph.attrs[ins[i]].dirty;
    }
    InputsFrame(s.graph, t.graph, ins);
    assert Inputs(t.graph, n) == ins;
  }

  /** Resolving a dirty vertex keeps every clean vertex resolved. */
  lemma ResolveKeepsConsistent(s: Snapshot, n: string)
    requires Valid(s) && n in s.graph.attrs && s.graph.attrs[n].dirty && Consistent(s.graph)
    requires Resolve(s, n).Some?
    ensures Consistent(Resolve(s, n).value.graph)
  {
    var t := Resolve(s, n).value;
    forall m | m in t.graph.attrs && !t.graph.attrs[m].dirty
      ensures Resolved(t.graph, m)
    {
      if m == n {
        ResolveMakesResolved(s, n);
      } else {
        assert Resolved(s.graph, m);
        NeighboursExist(s.graph, m);
        var ins := s.graph.inN[m];
        ResolvedFrame(s.graph, t.graph, m);
      }
    }
  }

  // ---------------------------------------------------------------------------
  // update: the retry queue.

  /** The queue holds each currently dirty vertex exactly once. */
  ghost predicate QueueOfDirty(g: Graph, q: seq<string>) {
    Distinct(q) && forall n :: n in q <==> n in g.attrs && g.attrs[n].dirty
  }

  /** One vertex across a pass: untouched, or a dirty one cleaned with
      possibly a new value. */
  ghost predicate VertexSettled(u: Vertex, v: Vertex) {
    v == u || (u.dirty && v == u.(value := v.value, dirty := false))
  }

  /** The vertices a pass cleaned that wrote through setNodeValue. */
  ghost function Written(s: Snapshot, t: Snapshot): set<string>
    requires s.graph.attrs.Keys <= s.graph.inN.Keys
  {
    set n | n in s.graph.attrs && n in t.graph.attrs && s.graph.attrs[n].dirty && !t.graph.attrs[n].dirty
              && WritesValue(s.graph, n)
  }

  /** t is s after some vertices were resolved: the structure is the same,
      nothing became dirty, only dirty vertices changed, a vertex without
      inputs kept its value, and `_values` gained exactly the written ones. */
  ghost predicate Settled(s: Snapshot, t: Snapshot)
    requires WellFormed(s.graph)
  {
    && t.graph.order == s.graph.order
    && t.graph.inN == s.graph.inN
    && t.graph.outN == s.graph.outN
    && t.graph.attrs.Keys == s.graph.attrs.Keys
    && (forall n :: n in s.graph.attrs ==> VertexSettled(s.graph.attrs[n], t.graph.attrs[n]))
    && (forall n :: n in s.graph.attrs && !WritesValue(s.graph, n) ==>
          t.graph.attrs[n].value == s.graph.attrs[n].value)
    && t.values.Keys == s.values.Keys + Written(s, t)
  }

  lemma SettledRefl(s: Snapshot)
    requires Valid(s)
    ensures Settled(s, s)
  {
    assert Written(s, s) == {};
  }

  lemma SettlesIsSettled(s: Snapshot, t: Snapshot, n: string)
    requires WellFormed(s.graph) && n in s.graph.attrs && s.graph.attrs[n].dirty && Settles(s, t, n)
    ensures Settled(s, t)
  {
    var w := Written(s, t);
    assert forall v :: v in w ==> v == n;
    if WritesValue(s.graph, n) {
      assert n in w;
      assert w == {n};
      assert t.values.Keys == s.values.Keys + {n};
    } else {
      assert w == {};
    }
    forall v | v in s.graph.attrs
      ensures VertexSettled(s.graph.attrs[v], t.graph.attrs[v])
    {
    }
    forall v | v in s.graph.attrs && !WritesValue(s.graph, v)
      ensures t.graph.attrs[v].value == s.graph.attrs[v].value
    {
    }
  }

  lemma SettledTrans(s: Snapshot, m: Snapshot, t: Snapshot)
    requires WellFormed(s.graph) && WellFormed(m.graph)
    requires Settled(s, m) && Settled(m, t)
    ensures Settled(s, t)
  {
    forall v | v in s.graph.attrs
      ensures VertexSettled(s.graph.attrs[v], t.graph.attrs[v])
      ensures WritesValue(m.graph, v) == WritesValue(s.graph, v)
    {
    }
    WrittenTrans(s, m, t);
  }

  lemma WrittenTrans(s: Snapshot, m: Snapshot, t: Snapshot)
    requires s.graph.attrs.Keys <= s.graph.inN.Keys
    requires m.graph.attrs.Keys == s.graph.attrs.Keys && t.graph.attrs.Keys == s.graph.attrs.Keys
    requires m.graph.inN == s.graph.inN
    requires forall v :: v in s.graph.attrs ==> VertexSettled(s.graph.attrs[v], m.graph.attrs[v])
    requires forall v :: v in m.graph.attrs ==> VertexSettled(m.graph.attrs[v], t.graph.attrs[v])
    ensures Written(s, t) == Written(s, m) + Written(m, t)
  {
    forall v | v in s.graph.attrs
      ensures WritesValue(m.graph, v) == WritesValue(s.graph, v)
    {
    }
  }

  /** One turn of update: shift the front vertex; push it back if its
      update fails. */
  function Step(s: Snapshot, q: seq<string>): (r: (Snapshot, seq<string>))
    requires Valid(s) && q != []
    ensures Valid(r.0)
    ensures r == if Resolve(s, q[0]).Some? then (Resolve(s, q[0]).value, q[1..]) else (s, q[1..] + [q[0]])
    ensures Resolve(s, q[0]).Some? ==> |r.1| == |q| - 1 && multiset(r.1) == multiset(q) - multiset{q[0]}
    ensures Resolve(s, q[0]).None? ==> r.0 == s && |r.1| == |q| && multiset(r.1) == multiset(q) && r.1[|q| - 1] == q[0]
  {
    assert q == [q[0]] + q[1..];
    match Resolve(s, q[0])
    case Some(t) => (t, q[1..])
    case None => (s, q[1..] + [q[0]])
  }

  /** The store after update(queue, iteration), what is left queued, and how
      many vertices were shifted. */
  datatype Pass = Pass(snap: Snapshot, queue: seq<string>, pops: nat)

  /** update(queue, iteration): stop once the queue is empty, or after the
      turn taken with `iteration > 20`. */
  function Drain(s: Snapshot, q: seq<string>, iteration: nat): (r: Pass)
    requires Valid(s)
    ensures Valid(r.snap)
    ensures q == [] ==> r == Pass(s, [], 0)
    ensures q != [] ==> 1 <= r.pops
    ensures r.queue != [] ==> iteration + r.pops >= 22
    decreases 21 - iteration
  {
    if q == [] then Pass(s, q, 0)
    else
      var (t, q') := Step(s, q);
      if q' == [] || iteration > 20 then Pass(t, q', 1)
      else
        var p := Drain(t, q', iteration + 1);
        Pass(p.snap, p.queue, p.pops + 1)
  }

  /** update(queue, iteration) shifts at most 22 - iteration vertices. */
  lemma {:induction false} DrainBudget(s: Snapshot, q: seq<string>, iteration: nat)
    requires Valid(s) && iteration <= 21
    ensures Drain(s, q, iteration).pops <= 22 - iteration
    decreases 21 - iteration
  {
    if q != [] {
      var (t, q') := Step(s, q);
      if q' != [] && iteration <= 20 {
        DrainBudget(t, q', iteration + 1);
      }
    }
  }

  /** One turn of update(queue, iteration) on a non-empty queue. */
  lemma DrainUnfold(s: Snapshot, q: seq<string>, iteration: nat)
    requires Valid(s) && q != []
    ensures Drain(s, q, iteration).snap ==
      if Step(s, q).1 == [] || iteration > 20 then Step(s, q).0 else Drain(Step(s, q).0, Step(s, q).1, iteration + 1).snap
  {
  }

  /** update() with no queue: seeded with the dirty vertices in store order. */
  function Update(s: Snapshot): (r: Pass)
    requires Valid(s)
    ensures Valid(r.snap) && r.pops <= 22
    ensures r.queue != [] ==> r.pops == 22
    ensures DirtyNodes(s.graph) == [] ==> r == Pass(s, [], 0)
  {
    DrainBudget(s, DirtyNodes(s.graph), 0);
    Drain(s, DirtyNodes(s.graph), 0)
  }

  /** A successful turn drops the resolved front vertex from queue and dirty set alike. */
  lemma ShiftKeepsQueue(s: Snapshot, q: seq<string>, t: Snapshot)
    requires WellFormed(s.graph) && q != [] && QueueOfDirty(s.graph, q)
    requires q[0] in s.graph.attrs && Settles(s, t, q[0])
    ensures QueueOfDirty(t.graph, q[1..])
  {
    var n := q[0];
    assert q == [n] + q[1..];
    assert n in q;
    forall v ensures v in q[1..] <==> v in t.graph.attrs && t.graph.attrs[v].dirty {
      if v in q[1..] {
        assert v in q && v != n;
      }
    }
  }

  /** A failed turn only rotates the queue. */
  lemma RotateKeepsQueue(g: Graph, q: seq<string>)
    requires q != [] && QueueOfDirty(g, q)
    ensures QueueOfDirty(g, q[1..] + [q[0]])
  {
    var q' := q[1..] + [q[0]];
    assert q == [q[0]] + q[1..];
    assert forall v :: v in q' <==> v in q;
    forall i, j | 0 <= i < j < |q'| ensures q'[i] != q'[j] {
      if j == |q'| - 1 {
        assert q'[i] == q[i + 1];
      } else {
        assert q'[i] == q[i + 1] && q'[j] == q[j + 1];
      }
    }
  }

  /** A turn keeps the queue equal to the dirty set. */
  lemma StepKeepsQueue(s: Snapshot, q: seq<string>)
    requires Valid(s) && q != [] && QueueOfDirty(s.graph, q)
    ensures QueueOfDirty(Step(s, q).0.graph, Step(s, q).1)
    ensures Settled(s, Step(s, q).0)
    ensures Consistent(s.graph) ==> Consistent(Step(s, q).0.graph)
  {
    var n := q[0];
    assert n in q;
    match Resolve(s, n)
    case Some(t) =>
      SettlesIsSettled(s, t, n);
      if Consistent(s.graph) {
        ResolveKeepsConsistent(s, n);
      }
      ShiftKeepsQueue(s, q, t);
    case None =>
      SettledRefl(s);
      RotateKeepsQueue(s.graph, q);
  }

  /** Throughout update the queue is exactly the dirty set, only the
      vertices shifted are settled, and at most 22 - iteration vertices are
      shifted. */
  lemma {:induction false} DrainKeepsQueue(s: Snapshot, q: seq<string>, iteration: nat)
    requires Valid(s) && QueueOfDirty(s.graph, q) && iteration <= 21
    ensures QueueOfDirty(Drain(s, q, iteration).snap.graph, Drain(s, q, iteration).queue)
    ensures Settled(s, Drain(s, q, iteration).snap)
    ensures Consistent(s.graph) ==> Consistent(Drain(s, q, iteration).snap.graph)
    ensures Drain(s, q, iteration).pops <= 22 - iteration
    decreases 21 - iteration
  {
    if q == [] {
      SettledRefl(s);
    } else {
      var (t, q') := Step(s, q);
      StepKeepsQueue(s, q);
      if q' != [] && iteration <= 20 {
        DrainKeepsQueue(t, q', iteration + 1);
        SettledTrans(s, t, Drain(t, q', iteration + 1).snap);
      }
    }
  }

  /** Each turn removes at most one vertex from the queue and adds none. */
  lemma {:induction false} DrainShrinks(s: Snapshot, q: seq<string>, iteration: nat)
    requires Valid(s)
    ensures |q| - Drain(s, q, iteration).pops <= |Drain(s, q, iteration).queue| <= |q|
    decreases 21 - iteration
  {
    if q != [] {
      var (t, q') := Step(s, q);
      if q' != [] && iteration <= 20 {
        DrainShrinks(t, q', iteration + 1);
      }
    }
  }

  /** update() keeps the queue equal to the dirty set, shifts at most 22
      vertices, only resolves dirty vertices, and keeps every clean vertex
      resolved. */
  lemma UpdateKeepsQueue(s: Snapshot)
    requires Valid(s)
    ensures QueueOfDirty(Update(s).snap.graph, Update(s).queue)
    ensures Settled(s, Update(s).snap)
    ensures Consistent(s.graph) ==> Consistent(Update(s).snap.graph)
    ensures Update(s).pops <= 22
    ensures |DirtyNodes(s.graph)| - Update(s).pops <= |Update(s).queue| <= |DirtyNodes(s.graph)|
  {
    DrainKeepsQueue(s, DirtyNodes(s.graph), 0);
    DrainShrinks(s, DirtyNodes(s.graph), 0);
  }

  /** When update() ends on an empty queue, no vertex is dirty, and from a
      consistent store every vertex is resolved. */
  lemma UpdateConverged(s: Snapshot)
    requires Valid(s) && Update(s).queue == []
    ensures DirtyNodes(Update(s).snap.graph) == []
    ensures Consistent(s.graph) ==>
      forall n :: n in Update(s).snap.graph.attrs ==> Resolved(Update(s).snap.graph, n)
  {
    UpdateKeepsQueue(s);
    var r := Update(s);
    NothingQueued(r.snap.graph, r.queue);
  }

  lemma NothingQueued(g: Graph, q: seq<string>)
    requires WellFormed(g) && QueueOfDirty(g, q) && q == []
    ensures DirtyNodes(g) == []
    ensures Consistent(g) ==> forall n :: n in g.attrs ==> Resolved(g, n)
  {
    NoDirtyNodes(g);
  }

  /** With more than 22 dirty vertices one update() cannot finish: vertices
      are left queued, still dirty, and nothing reports it. */
  lemma BudgetLeavesWork(s: Snapshot)
    requires Valid(s) && |DirtyNodes(s.graph)| > 22
    ensures Update(s).queue != []
    ensures forall n :: n in Update(s).queue ==> n in Update(s).snap.graph.attrs && Update(s).snap.graph.attrs[n].dirty
  {
    UpdateKeepsQueue(s);
    var r := Update(s);
    QueueLeft(r.snap.graph, r.queue, |DirtyNodes(s.graph)|, r.pops);
  }

  lemma QueueLeft(g: Graph, q: seq<string>, before: nat, pops: nat)
    requires QueueOfDirty(g, q) && pops <= 22 && before > 22 && before - pops <= |q|
    ensures q != [] && forall n :: n in q ==> n in g.attrs && g.attrs[n].dirty
  {
  }

  /** On a store with no dirty vertex, update() shifts nothing and changes nothing. */
  lemma UpdateWhenClean(s: Snapshot)
    requires Valid(s) && forall n :: n in s.graph.attrs ==> !s.graph.attrs[n].dirty
    ensures Update(s) == Pass(s, [], 0)
  {
    NoDirtyNodes(s.graph);
  }

  // ---------------------------------------------------------------------------
  // The cases of updateNode.

  /** A compute vertex defers exactly when an input is dirty or the call
      throws: an unregistered key, or a seedless fold over no inputs. */
  lemma ComputeDefers(s: Snapshot, n: string)
    requires Valid(s) && n in s.graph.attrs && s.graph.attrs[n].kind == Compute
    ensures Resolve(s, n).None? <==>
      AnyDirty(s.graph, Inputs(s.graph, n)) || Evaluate(s.graph, s.graph.attrs[n].operation, Inputs(s.graph, n)).Throws?
    ensures Operations.Lookup(s.graph.attrs[n].operation).None? ==> Resolve(s, n).None?
    ensures s.graph.attrs[n].operation == Some("SUM") && Inputs(s.graph, n) == [] ==> Resolve(s, n).None?
  {
    var ins := Inputs(s.graph, n);
    assert ins == s.graph.inN[n];
    if s.graph.attrs[n].operation == Some("SUM") && ins == [] {
      Operations.LookupSum();
      assert Evaluate(s.graph, s.graph.attrs[n].operation, ins).Throws?;
    }
  }

  /** A compute vertex with clean inputs takes the operation's result over
      its inputs' values, mirrors it into `_values`, and becomes clean. */
  lemma ComputeWrites(s: Snapshot, n: string)
    requires Valid(s) && n in s.graph.attrs && s.graph.attrs[n].kind == Compute
    requires !AnyDirty(s.graph, Inputs(s.graph, n))
    requires Evaluate(s.graph, s.graph.attrs[n].operation, Inputs(s.graph, n)).Returns?
    ensures Resolve(s, n).Some?
    ensures var t := Resolve(s, n).value;
      && var x := Evaluate(s.graph, s.graph.attrs[n].operation, Inputs(s.graph, n)).value;
      && t.graph.attrs[n].value == x && n in t.values && t.values[n] == x && !t.graph.attrs[n].dirty
  {
  }

  /** A vertex that is not compute defers while any input (not only the
      first) is dirty, and otherwise copies its first input's value; without
      inputs it only becomes clean. */
  lemma PassThrough(s: Snapshot, n: string)
    requires Valid(s) && n in s.graph.attrs && s.graph.attrs[n].kind != Compute
    ensures |Inputs(s.graph, n)| > 0 ==> (Resolve(s, n).None? <==> AnyDirty(s.graph, Inputs(s.graph, n)))
    ensures |Inputs(s.graph, n)| > 0 && Resolve(s, n).Some? ==>
      Resolve(s, n).value.graph.attrs[n].value == s.graph.attrs[Inputs(s.graph, n)[0]].value
    ensures Inputs(s.graph, n) == [] ==>
      Resolve(s, n) == Some(s.(graph := s.graph.(attrs := s.graph.attrs[n := s.graph.attrs[n].(dirty := false)])))
  {
  }
}
