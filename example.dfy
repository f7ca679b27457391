/** The four-vertex graph of the ComputeGraph test in tests/cgraph.test.ts:
    scalars a and b feed the SUM vertex s, which feeds the pass-through
    vertex o. update() resolves it in store order in one pass. */
module Example {
  import opened Wrappers
  import opened Traversal
  import opened Store
  import opened Scheduler
  import Operations

  const A: string := "node_scalar_a"
  const B: string := "node_scalar_b"
  const S: string := "node_sum_a"
  const O: string := "node_output"

  const Ins: Adjacency := map[A := [], B := [], S := [A, B], O := [S]]
  const Outs: Adjacency := map[A := [S], B := [S], S := [O], O := []]

  /** The store's structure once the four configurations are added. */
  function Wired(attrs: map<string, Vertex>): Graph {
    Graph([A, B, S, O], attrs, Ins, Outs)
  }

  /** Every vertex dirty, a = x and b = y; s and o both hold p. This is the
      store after addNodes (p undefined) and after setValues on a and b
      (p the old sum). */
  function Pending(x: real, y: real, p: Option<real>): Snapshot {
    Snapshot(Wired(map[A := Vertex(Scalar, None, Some(x), true), B := Vertex(Scalar, None, Some(y), true),
                       S := Vertex(Compute, Some("SUM"), p, true), O := Vertex(Scalar, None, p, true)]),
             if p.Some? then map[A := Some(x), B := Some(y), S := p, O := p]
             else map[A := Some(x), B := Some(y)])
  }

  /** n cleaned; when it writes, its value and `_values[n]` become v. */
  function Settle(s: Snapshot, n: string, v: Option<real>, writes: bool): Snapshot
    requires n in s.graph.attrs
  {
    var at := s.graph.attrs;
    if writes then Snapshot(s.graph.(attrs := at[n := at[n].(value := v, dirty := false)]), s.values[n := v])
    else s.(graph := s.graph.(attrs := at[n := at[n].(dirty := false)]))
  }

  /** The turns of update(): a cleaned, then b, then s summed, then o copied. */
  function First(x: real, y: real, p: Option<real>): Snapshot {
    Settle(Pending(x, y, p), A, None, false)
  }

  function Halfway(x: real, y: real, p: Option<real>): Snapshot {
    Settle(First(x, y, p), B, None, false)
  }

  function Summed(x: real, y: real, p: Option<real>): Snapshot {
    Settle(Halfway(x, y, p), S, Some(x + y), true)
  }

  function Done(x: real, y: real, p: Option<real>): Snapshot {
    Settle(Summed(x, y, p), O, Some(x + y), true)
  }

  lemma WiredMirrored()
    ensures Mirrored(Outs, Ins) && Mirrored(Ins, Outs)
  {
    forall v, w | v in Outs && w in Outs[v]
      ensures w in Ins && v in Ins[w]
    {
      if v == A || v == B {
        assert w == S && Ins[S] == [A, B];
      } else if v == S {
        assert w == O && Ins[O] == [S];
      }
    }
    forall v, w | v in Ins && w in Ins[v]
      ensures w in Outs && v in Outs[w]
    {
      if v == S {
        assert w == A || w == B;
        assert Outs[A] == [S] && Outs[B] == [S];
      } else if v == O {
        assert w == S && Outs[S] == [O];
      }
    }
  }

  lemma WiredWellFormed(attrs: map<string, Vertex>)
    requires attrs.Keys == {A, B, S, O}
    ensures WellFormed(Wired(attrs))
  {
    var g := Wired(attrs);
    assert A != B && A != S && A != O && B != S && B != O && S != O;
    assert Distinct(g.order);
    assert forall n :: n in g.order <==> n == A || n == B || n == S || n == O;
    assert g.inN.Keys == {A, B, S, O} && g.outN.Keys == {A, B, S, O};
    WiredMirrored();
  }

  lemma PendingValid(x: real, y: real, p: Option<real>)
    ensures Valid(Pending(x, y, p))
  {
    WiredWellFormed(Pending(x, y, p).graph.attrs);
    PendingInSync(x, y, p);
  }

  lemma PendingInSync(x: real, y: real, p: Option<real>)
    ensures InSync(Pending(x, y, p))
  {
    var s := Pending(x, y, p);
    var at := s.graph.attrs;
    assert at.Keys == {A, B, S, O};
    if p.Some? {
      assert s.values.Keys == at.Keys;
      forall n | n in s.values
        ensures s.values[n] == at[n].value
      {
      }
    } else {
      assert s.values.Keys == {A, B};
      forall n | n in at && at[n].value.Some?
        ensures n in s.values
      {
        assert n != S && n != O;
      }
    }
  }

  /** With every listed vertex dirty, the dirty ones are all of them, in order. */
  lemma {:induction false} AllDirty(ns: seq<string>, attrs: map<string, Vertex>)
    requires forall i :: 0 <= i < |ns| ==> ns[i] in attrs && attrs[ns[i]].dirty
    ensures DirtyAmong(ns, attrs) == ns
    decreases |ns|
  {
    if ns != [] {
      AllDirty(ns[1..], attrs);
      assert [ns[0]] + ns[1..] == ns;
    }
  }

  /** update() seeds its queue with every vertex, in store order. */
  lemma PendingQueue(x: real, y: real, p: Option<real>)
    ensures WellFormed(Pending(x, y, p).graph)
    ensures DirtyNodes(Pending(x, y, p).graph) == [A, B, S, O]
  {
    WiredWellFormed(Pending(x, y, p).graph.attrs);
    PendingAllDirty(x, y, p);
  }

  lemma PendingAllDirty(x: real, y: real, p: Option<real>)
    ensures DirtyAmong([A, B, S, O], Pending(x, y, p).graph.attrs) == [A, B, S, O]
  {
    var at := Pending(x, y, p).graph.attrs;
    var q := [A, B, S, O];
    forall i | 0 <= i < |q|
      ensures q[i] in at && at[q[i]].dirty
    {
    }
    AllDirty(q, at);
  }

  /** SUM over two defined inputs adds them. */
  lemma EvaluateSum(g: Graph, x: real, y: real)
    requires A in g.attrs && B in g.attrs
    requires g.attrs[A].value == Some(x) && g.attrs[B].value == Some(y)
    ensures Evaluate(g, Some("SUM"), [A, B]) == Operations.Returns(Some(x + y))
  {
    Operations.LookupSum();
    assert InputValues(g, [A, B]) == [Some(x), Some(y)];
    assert [Some(x), Some(y)][1..] == [Some(y)] && [Some(y)][1..] == [];
    assert Operations.Defined([]) == Some([]);
    assert Operations.Defined([Some(y)]) == Some([y] + []);
    assert [y] + [] == [y];
    assert [x] + [y] == [x, y];
    assert Operations.Defined([Some(x), Some(y)]) == Some([x, y]);
    Operations.SumIsTotal([x, y]);
    assert [x, y][1..] == [y] && [y][1..] == [];
    assert Operations.Total([y]) == y;
    assert Operations.Total([x, y]) == x + y;
  }

  /** A turn on a vertex without inputs that is not a compute vertex only
      cleans it. */
  lemma SourceTurn(s: Snapshot, n: string, rest: seq<string>)
    requires Valid(s) && n in s.graph.attrs && s.graph.attrs[n].kind != Compute && s.graph.inN[n] == []
    ensures Step(s, [n] + rest) == (Settle(s, n, None, false), rest)
  {
    assert Resolve(s, n) == Some(Clean(s, n));
    assert ([n] + rest)[0] == n && ([n] + rest)[1..] == rest;
  }

  /** A turn on a pass-through vertex whose one input m is clean copies
      m's value. */
  lemma CopyTurn(s: Snapshot, n: string, m: string, rest: seq<string>)
    requires Valid(s) && n in s.graph.attrs && m in s.graph.attrs && !s.graph.attrs[m].dirty
    requires s.graph.attrs[n].kind != Compute && s.graph.inN[n] == [m]
    ensures Step(s, [n] + rest) == (Settle(s, n, s.graph.attrs[m].value, true), rest)
  {
    assert !AnyDirty(s.graph, [m]);
    assert Resolve(s, n) == Some(Assign(s, n, s.graph.attrs[m].value));
    assert ([n] + rest)[0] == n && ([n] + rest)[1..] == rest;
  }

  /** A turn on a SUM vertex over two clean inputs a and b holding x and y
      writes x + y. */
  lemma SumTurnAt(s: Snapshot, n: string, x: real, y: real, rest: seq<string>)
    requires Valid(s) && n in s.graph.attrs && A in s.graph.attrs && B in s.graph.attrs
    requires s.graph.attrs[n].kind == Compute && s.graph.attrs[n].operation == Some("SUM")
    requires s.graph.inN[n] == [A, B]
    requires s.graph.attrs[A] == Vertex(Scalar, None, Some(x), false)
    requires s.graph.attrs[B] == Vertex(Scalar, None, Some(y), false)
    ensures Step(s, [n] + rest) == (Settle(s, n, Some(x + y), true), rest)
  {
    ResolveSum(s, n, x, y);
    assert ([n] + rest)[0] == n && ([n] + rest)[1..] == rest;
  }

  lemma ResolveSum(s: Snapshot, n: string, x: real, y: real)
    requires Valid(s) && n in s.graph.attrs && A in s.graph.attrs && B in s.graph.attrs
    requires s.graph.attrs[n].kind == Compute && s.graph.attrs[n].operation == Some("SUM")
    requires s.graph.inN[n] == [A, B]
    requires s.graph.attrs[A] == Vertex(Scalar, None, Some(x), false)
    requires s.graph.attrs[B] == Vertex(Scalar, None, Some(y), false)
    ensures Resolve(s, n) == Some(Assign(s, n, Some(x + y)))
  {
    assert !AnyDirty(s.graph, [A, B]);
    EvaluateSum(s.graph, x, y);
  }

  lemma Distinct4()
    ensures A != B && A != S && A != O && B != S && B != O && S != O
  {
  }

  /** The queue update() starts with, one entry at a time. */
  lemma Queues()
    ensures [A] + [B, S, O] == [A, B, S, O] && [B] + [S, O] == [B, S, O] && [S] + [O] == [S, O] && [O] + [] == [O]
  {
  }

  /** What each turn needs to know of the store before it. */
  lemma Stages(x: real, y: real, p: Option<real>)
    ensures A in Pending(x, y, p).graph.attrs && Pending(x, y, p).graph.attrs[A].kind != Compute
    ensures Pending(x, y, p).graph.inN[A] == []
    ensures B in First(x, y, p).graph.attrs && First(x, y, p).graph.attrs[B].kind != Compute
    ensures First(x, y, p).graph.inN[B] == []
    ensures var h := Halfway(x, y, p).graph;
      && S in h.attrs && A in h.attrs && B in h.attrs
      && h.attrs[S].kind == Compute && h.attrs[S].operation == Some("SUM") && h.inN[S] == [A, B]
      && h.attrs[A] == Vertex(Scalar, None, Some(x), false) && h.attrs[B] == Vertex(Scalar, None, Some(y), false)
    ensures var m := Summed(x, y, p).graph;
      && O in m.attrs && S in m.attrs && !m.attrs[S].dirty && m.attrs[S].value == Some(x + y)
      && m.attrs[O].kind != Compute && m.inN[O] == [S]
  {
    Distinct4();
  }

  lemma FirstTurn(x: real, y: real, p: Option<real>)
    requires Valid(Pending(x, y, p))
    ensures Step(Pending(x, y, p), [A, B, S, O]) == (First(x, y, p), [B, S, O])
  {
    Stages(x, y, p);
    Queues();
    SourceTurn(Pending(x, y, p), A, [B, S, O]);
  }

  lemma SecondTurn(x: real, y: real, p: Option<real>)
    requires Valid(First(x, y, p))
    ensures Step(First(x, y, p), [B, S, O]) == (Halfway(x, y, p), [S, O])
  {
    Stages(x, y, p);
    Queues();
    SourceTurn(First(x, y, p), B, [S, O]);
  }

  lemma SumTurn(x: real, y: real, p: Option<real>)
    requires Valid(Halfway(x, y, p))
    ensures Step(Halfway(x, y, p), [S, O]) == (Summed(x, y, p), [O])
  {
    Stages(x, y, p);
    Queues();
    SumTurnAt(Halfway(x, y, p), S, x, y, [O]);
  }

  lemma OutputTurn(x: real, y: real, p: Option<real>)
    requires Valid(Summed(x, y, p))
    ensures Step(Summed(x, y, p), [O]) == (Done(x, y, p), [])
  {
    Stages(x, y, p);
    Queues();
    CopyTurn(Summed(x, y, p), O, S, []);
  }

  /** The last three turns of update(). */
  lemma {:induction false} LaterTurns(x: real, y: real, p: Option<real>)
    requires Valid(First(x, y, p))
    ensures Drain(First(x, y, p), [B, S, O], 1) == Pass(Done(x, y, p), [], 3)
  {
    SecondTurn(x, y, p);
    SumTurn(x, y, p);
    OutputTurn(x, y, p);
    assert Drain(Summed(x, y, p), [O], 3) == Pass(Done(x, y, p), [], 1);
    assert Drain(Halfway(x, y, p), [S, O], 2) == Pass(Done(x, y, p), [], 2);
  }

  /** update() on the pending store shifts a, b, s and o once each and
      leaves every vertex clean with s = o = x + y. */
  lemma {:induction false} PendingResolves(x: real, y: real, p: Option<real>)
    ensures Valid(Pending(x, y, p))
    ensures Update(Pending(x, y, p)) == Pass(Done(x, y, p), [], 4)
  {
    PendingValid(x, y, p);
    PendingQueue(x, y, p);
    FirstTurn(x, y, p);
    LaterTurns(x, y, p);
  }

  /** At the end every vertex is clean and `_values` holds a, b, s and o. */
  lemma DoneValues(x: real, y: real, p: Option<real>)
    ensures Done(x, y, p).values == map[A := Some(x), B := Some(y), S := Some(x + y), O := Some(x + y)]
    ensures forall n :: n in Done(x, y, p).graph.attrs ==> !Done(x, y, p).graph.attrs[n].dirty
  {
    Distinct4();
    var at := Done(x, y, p).graph.attrs;
    assert at.Keys == {A, B, S, O};
    assert !at[A].dirty && !at[B].dirty && !at[S].dirty && !at[O].dirty;
  }

  /** After addNodes and init(): {a: 2, b: 5, s: 7, o: 7}. */
  lemma InitValues()
    ensures Valid(Pending(2.0, 5.0, None))
    ensures Update(Pending(2.0, 5.0, None)).snap.values ==
      map[A := Some(2.0), B := Some(5.0), S := Some(7.0), O := Some(7.0)]
  {
    PendingResolves(2.0, 5.0, None);
    DoneValues(2.0, 5.0, None);
  }

  /** After setValues({a: 7, b: 8}): {a: 7, b: 8, s: 15, o: 15}. */
  lemma SetValuesValues()
    ensures Valid(Pending(7.0, 8.0, Some(7.0)))
    ensures Update(Pending(7.0, 8.0, Some(7.0))).snap.values ==
      map[A := Some(7.0), B := Some(8.0), S := Some(15.0), O := Some(15.0)]
  {
    PendingResolves(7.0, 8.0, Some(7.0));
    DoneValues(7.0, 8.0, Some(7.0));
  }
}
