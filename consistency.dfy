/** How the public mutators keep the dirty-flag invariant of the scheduler:
    every clean vertex is resolved from its inputs. Each mutator that can
    stale a vertex must mark it (and what depends on it) dirty. */
module Consistency {
  import opened Wrappers
  import opened Traversal
  import opened Store
  import opened Scheduler
  import opened Mutations

  /** Marking from x repairs whatever a change made to vertices reachable
      from x: if every vertex x cannot reach kept its attributes and its
      input list, the marked store is consistent again. */
  lemma MarkRepairs(s: Snapshot, u: Snapshot, x: string)
    requires Valid(s) && Valid(u) && Consistent(s.graph)
    requires u.graph.attrs.Keys == s.graph.attrs.Keys
    requires forall m :: m in s.graph.attrs && !Reachable(u.graph.outN, x, m) ==>
      u.graph.attrs[m] == s.graph.attrs[m] && u.graph.inN[m] == s.graph.inN[m]
    ensures Consistent(MarkFrom(u, x).graph)
  {
    var t := MarkFrom(u, x);
    forall m | m in t.graph.attrs && !t.graph.attrs[m].dirty
      ensures Resolved(t.graph, m)
    {
      MarkRepairsAt(s, u, x, m);
    }
  }

  lemma MarkRepairsAt(s: Snapshot, u: Snapshot, x: string, m: string)
    requires Valid(s) && Valid(u) && Consistent(s.graph)
    requires u.graph.attrs.Keys == s.graph.attrs.Keys
    requires forall m :: m in s.graph.attrs && !Reachable(u.graph.outN, x, m) ==>
      u.graph.attrs[m] == s.graph.attrs[m] && u.graph.inN[m] == s.graph.inN[m]
    requires m in MarkFrom(u, x).graph.attrs && !MarkFrom(u, x).graph.attrs[m].dirty
    ensures Resolved(MarkFrom(u, x).graph, m)
  {
    var t := MarkFrom(u, x);
    assert !Reachable(u.graph.outN, x, m);
    assert Resolved(s.graph, m);
    var ins := Inputs(u.graph, m);
    forall i | 0 <= i < |ins|
      ensures ins[i] in t.graph.attrs && t.graph.attrs[ins[i]] == s.graph.attrs[ins[i]]
    {
      InputFeeds(u.graph, m, i);
      if Reachable(u.graph.outN, x, ins[i]) {
        ReachableStep(u.graph.outN, x, ins[i], m);
      }
    }
    ResolvedFrame(s.graph, t.graph, m);
  }

  /** setDescendantsDirty keeps the store consistent. */
  lemma MarkKeepsConsistent(s: Snapshot, x: string)
    requires Valid(s) && Consistent(s.graph)
    ensures Consistent(MarkFrom(s, x).graph)
  {
    MarkRepairs(s, s, x);
  }

  /** setNodeValue(n, v) followed by setDescendantsDirty(n), the step of
      setValues for one key, keeps the store consistent. */
  lemma WriteThenMarkKeepsConsistent(s: Snapshot, n: string, v: real)
    requires Valid(s) && Consistent(s.graph) && n in s.graph.attrs
    ensures Consistent(MarkFrom(Write(s, n, Some(v)), n).graph)
  {
    var u := Write(s, n, Some(v));
    ReachableRefl(u.graph.outN, n);
    MarkRepairs(s, u, n);
  }

  /** addDirectedEdge(a, b) followed by setDescendantsDirty(a), the
      addEdge of src/cgraph.ts, keeps the store consistent: b, the one vertex
      whose inputs changed, is reachable from a. */
  lemma LinkThenMarkKeepsConsistent(s: Snapshot, a: string, b: string)
    requires Valid(s) && Consistent(s.graph)
    ensures Valid(s.(graph := Link(s.graph, a, b)))
    ensures Consistent(MarkFrom(s.(graph := Link(s.graph, a, b)), a).graph)
  {
    LinkWellFormed(s.graph, a, b);
    var u := s.(graph := Link(s.graph, a, b));
    if CanLink(s.graph, a, b) {
      ReachableRefl(u.graph.outN, a);
      assert b in Nbrs(u.graph.outN, a);
      ReachableStep(u.graph.outN, a, a, b);
    }
    MarkRepairs(s, u, a);
  }

  /** A new vertex is dirty and feeds nothing yet, so adding it keeps the
      store consistent. */
  lemma AddVertexKeepsConsistent(s: Snapshot, id: string, kind: VertexType, operation: Option<string>)
    requires Valid(s) && Consistent(s.graph)
    ensures Valid(s.(graph := AddVertex(s.graph, id, kind, operation)))
    ensures Consistent(AddVertex(s.graph, id, kind, operation))
  {
    AddVertexValid(s, id, kind, operation);
    var g := AddVertex(s.graph, id, kind, operation);
    if id !in s.graph.attrs {
      forall m | m in g.attrs && !g.attrs[m].dirty
        ensures Resolved(g, m)
      {
        AddVertexKeepsResolved(s.graph, g, id, m);
      }
    }
  }

  lemma AddVertexKeepsResolved(g: Graph, h: Graph, id: string, m: string)
    requires WellFormed(g) && WellFormed(h) && Consistent(g)
    requires id !in g.attrs && h.attrs.Keys == g.attrs.Keys + {id} && h.inN == g.inN[id := []]
    requires forall v :: v in g.attrs ==> h.attrs[v] == g.attrs[v]
    requires m in h.attrs && !h.attrs[m].dirty && m != id
    ensures Resolved(h, m)
  {
    assert Resolved(g, m);
    NeighboursExist(g, m);
    ResolvedFrame(g, h, m);
  }

  /** Writing the value of a dirty vertex keeps the store consistent: no
      clean vertex reads a dirty input. */
  lemma WriteDirtyKeepsConsistent(s: Snapshot, n: string, v: Option<real>)
    requires Valid(s) && Consistent(s.graph) && n in s.graph.attrs && s.graph.attrs[n].dirty
    ensures Valid(Write(s, n, v)) && Consistent(Write(s, n, v).graph)
  {
    var g := s.graph;
    var h := Write(s, n, v).graph;
    assert h == g.(attrs := g.attrs[n := g.attrs[n].(value := v)]);
    forall m | m in h.attrs && !h.attrs[m].dirty
      ensures Resolved(h, m)
    {
      WriteDirtyKeepsResolved(g, h, n, v, m);
    }
  }

  lemma WriteDirtyKeepsResolved(g: Graph, h: Graph, n: string, v: Option<real>, m: string)
    requires WellFormed(g) && WellFormed(h) && Consistent(g) && n in g.attrs && g.attrs[n].dirty
    requires h == g.(attrs := g.attrs[n := g.attrs[n].(value := v)])
    requires m in g.attrs && !h.attrs[m].dirty
    ensures Resolved(h, m)
  {
    assert m != n && Resolved(g, m);
    NeighboursExist(g, m);
    var ins := Inputs(g, m);
    forall i | 0 <= i < |ins|
      ensures ins[i] != n
    {
      assert !g.attrs[ins[i]].dirty;
    }
    ResolvedFrame(g, h, m);
  }

  /** addEdge of src/cgraph.ts, before its update, keeps the store
      consistent, refused or not. */
  lemma MarkedLinkKeepsConsistent(s: Snapshot, a: string, b: string)
    requires Valid(s) && Consistent(s.graph)
    ensures Consistent(MarkedLink(s, a, b).graph)
  {
    LinkThenMarkKeepsConsistent(s, a, b);
  }

  /** ... and so does addEdges. */
  lemma {:induction false} MarkedLinksKeepsConsistent(s: Snapshot, edges: seq<Edge>)
    requires Valid(s) && Consistent(s.graph)
    ensures Consistent(MarkedLinks(s, edges).graph)
    decreases |edges|
  {
    if edges != [] {
      var last := edges[|edges| - 1];
      MarkedLinksKeepsConsistent(s, edges[..|edges| - 1]);
      MarkedLinkKeepsConsistent(MarkedLinks(s, edges[..|edges| - 1]), last.0, last.1);
    }
  }

  /** The new vertex of addNode, with its value, keeps the store consistent. */
  lemma CreatedKeepsConsistent(s: Snapshot, c: NodeConfig)
    requires Valid(s) && Consistent(s.graph) && c.id !in s.graph.attrs
    ensures Consistent(Created(s, c).graph)
  {
    AddVertexKeepsConsistent(s, c.id, c.kind, c.operation);
    if c.value.Some? {
      WriteDirtyKeepsConsistent(s.(graph := AddVertex(s.graph, c.id, c.kind, c.operation)), c.id, c.value);
    }
  }

  /** addNode of src/cgraph.ts, before its update, keeps the store consistent. */
  lemma NewNodeKeepsConsistent(s: Snapshot, c: NodeConfig)
    requires Valid(s) && Consistent(s.graph)
    ensures Consistent(NewNode(s, c).graph)
  {
    if c.id !in s.graph.attrs {
      CreatedKeepsConsistent(s, c);
      MarkedLinksKeepsConsistent(Created(s, c), NodeEdges(c));
      MarkKeepsConsistent(MarkedLinks(Created(s, c), NodeEdges(c)), c.id);
    }
  }

  /** addNode of src/graph.ts, before its update, keeps the store consistent
      too although its edges are not marked: every vertex whose inputs changed
      is the new vertex or one of its targets, and both are marked from it. */
  lemma LegacyNewNodeKeepsConsistent(s: Snapshot, c: NodeConfig)
    requires Valid(s) && Consistent(s.graph)
    ensures Consistent(LegacyNewNode(s, c).graph)
  {
    if c.id !in s.graph.attrs {
      CreatedKeepsConsistent(s, c);
      LinksValid(Created(s, c), NodeEdges(c));
      LinksThenMarkKeepsConsistent(Created(s, c), NodeEdges(c), c.id);
    }
  }

  /** addNodes of src/cgraph.ts, before its update, keeps the store consistent. */
  lemma {:induction false} NewNodesKeepsConsistent(s: Snapshot, cs: seq<NodeConfig>)
    requires Valid(s) && Consistent(s.graph)
    ensures Consistent(NewNodes(s, cs).graph)
    decreases |cs|
  {
    if cs != [] {
      NewNodesKeepsConsistent(s, cs[..|cs| - 1]);
      NewNodeKeepsConsistent(NewNodes(s, cs[..|cs| - 1]), cs[|cs| - 1]);
    }
  }

  /** ... and so does addNodes of src/graph.ts, taken one node after the other. */
  lemma {:induction false} LegacyNewNodesKeepsConsistent(s: Snapshot, cs: seq<NodeConfig>)
    requires Valid(s) && Consistent(s.graph)
    ensures Consistent(LegacyNewNodes(s, cs).graph)
    decreases |cs|
  {
    if cs != [] {
      LegacyNewNodesKeepsConsistent(s, cs[..|cs| - 1]);
      LegacyNewNodeKeepsConsistent(LegacyNewNodes(s, cs[..|cs| - 1]), cs[|cs| - 1]);
    }
  }

  /** Edges that all start or end at x, added without marking, then
      setDescendantsDirty(x). */
  lemma LinksThenMarkKeepsConsistent(t: Snapshot, edges: seq<Edge>, x: string)
    requires Valid(t) && Consistent(t.graph) && Valid(t.(graph := Links(t.graph, edges)))
    requires forall i :: 0 <= i < |edges| ==> edges[i].0 == x || edges[i].1 == x
    ensures Consistent(MarkFrom(t.(graph := Links(t.graph, edges)), x).graph)
  {
    LinksKeepUnreached(t.graph, edges, x);
    MarkRepairs(t, t.(graph := Links(t.graph, edges)), x);
  }

  /** ... so a vertex x does not reach keeps its attributes and inputs. */
  lemma LinksKeepUnreached(g: Graph, edges: seq<Edge>, x: string)
    requires g.attrs.Keys <= g.inN.Keys
    requires forall i :: 0 <= i < |edges| ==> edges[i].0 == x || edges[i].1 == x
    ensures forall m :: m in g.attrs && !Reachable(Links(g, edges).outN, x, m) ==>
      Links(g, edges).attrs[m] == g.attrs[m] && Links(g, edges).inN[m] == g.inN[m]
  {
    LinksTouch(g, edges, x);
    UnreachedKept(g, Links(g, edges), x);
  }

  lemma UnreachedKept(g: Graph, h: Graph, x: string)
    requires h.attrs == g.attrs && h.inN.Keys == g.inN.Keys && g.attrs.Keys <= g.inN.Keys
    requires forall m :: m in g.inN ==> h.inN[m] == g.inN[m] || m == x || m in Nbrs(h.outN, x)
    ensures forall m :: m in g.attrs && !Reachable(h.outN, x, m) ==> h.attrs[m] == g.attrs[m] && h.inN[m] == g.inN[m]
  {
    ReachableRefl(h.outN, x);
    forall m | m in g.attrs && m in Nbrs(h.outN, x)
      ensures Reachable(h.outN, x, m)
    {
      ReachableStep(h.outN, x, x, m);
    }
  }

  /** Adding edges that all start or end at x changes the inputs only of x
      and of the out-neighbours of x. */
  lemma {:induction false} LinksTouch(g: Graph, edges: seq<Edge>, x: string)
    requires forall i :: 0 <= i < |edges| ==> edges[i].0 == x || edges[i].1 == x
    ensures forall m :: m in g.inN ==>
      Links(g, edges).inN[m] == g.inN[m] || m == x || m in Nbrs(Links(g, edges).outN, x)
    decreases |edges|
  {
    if edges != [] {
      var init := edges[..|edges| - 1];
      var last := edges[|edges| - 1];
      LinksTouch(g, init, x);
      LinkTouch(g, Links(g, init), last.0, last.1, x);
    }
  }

  lemma LinkTouch(g: Graph, h: Graph, a: string, b: string, x: string)
    requires a == x || b == x
    requires forall m :: m in g.inN ==> m in h.inN && (h.inN[m] == g.inN[m] || m == x || m in Nbrs(h.outN, x))
    ensures forall m :: m in g.inN ==>
      m in Link(h, a, b).inN && (Link(h, a, b).inN[m] == g.inN[m] || m == x || m in Nbrs(Link(h, a, b).outN, x))
  {
    if CanLink(h, a, b) {
      var k := Link(h, a, b);
      forall m | m in g.inN
        ensures m in k.inN && (k.inN[m] == g.inN[m] || m == x || m in Nbrs(k.outN, x))
      {
        if m in Nbrs(h.outN, x) {
          assert Nbrs(k.outN, x) == Nbrs(h.outN, x) || Nbrs(k.outN, x) == Nbrs(h.outN, x) + [b];
        }
        if m == b && a == x {
          assert b in Nbrs(k.outN, x);
        }
      }
    }
  }

  /** setValues, before its update, keeps the store consistent, whatever
      order the keys are taken in. */
  lemma {:induction false} AssignedKeepsConsistent(s: Snapshot, vals: map<string, real>)
    requires Valid(s) && Consistent(s.graph) && vals.Keys <= s.graph.attrs.Keys
    ensures Consistent(Assigned(s, vals).graph)
    decreases |vals|
  {
    if vals == map[] {
      AssignedNothing(s);
    } else {
      var k :| k in vals;
      var done := vals - {k};
      Removed(vals, k);
      AssignedKeepsConsistent(s, done);
      AssignedStep(s, done, k, vals[k]);
      WriteThenMarkKeepsConsistent(Assigned(s, done), k, vals[k]);
    }
  }

  lemma Removed(vals: map<string, real>, k: string)
    requires k in vals
    ensures |vals - {k}| < |vals| && (vals - {k})[k := vals[k]] == vals
  {
    assert (vals - {k}).Keys < vals.Keys;
  }

  /** The update a mutator may end with keeps the store consistent. */
  lemma RefreshKeepsConsistent(s: Snapshot, now: bool)
    requires Valid(s) && Consistent(s.graph)
    ensures Consistent(Refresh(s, now).graph)
  {
    if now {
      UpdateKeepsQueue(s);
    }
  }

  /** The mutators of src/cgraph.ts with their optional update, as CGraph
      states them. */
  lemma RefreshedLinkKeepsConsistent(s: Snapshot, a: string, b: string, now: bool)
    requires Valid(s) && Consistent(s.graph)
    ensures Consistent(Refresh(MarkedLink(s, a, b), now).graph)
  {
    MarkedLinkKeepsConsistent(s, a, b);
    RefreshKeepsConsistent(MarkedLink(s, a, b), now);
  }

  lemma RefreshedLinksKeepConsistent(s: Snapshot, edges: seq<Edge>, now: bool)
    requires Valid(s) && Consistent(s.graph)
    ensures Consistent(Refresh(MarkedLinks(s, edges), now).graph)
  {
    MarkedLinksKeepsConsistent(s, edges);
    RefreshKeepsConsistent(MarkedLinks(s, edges), now);
  }

  lemma RefreshedNodeKeepsConsistent(s: Snapshot, c: NodeConfig, now: bool)
    requires Valid(s) && Consistent(s.graph)
    ensures Consistent(Refresh(NewNode(s, c), now).graph)
  {
    NewNodeKeepsConsistent(s, c);
    RefreshKeepsConsistent(NewNode(s, c), now);
  }

  lemma RefreshedNodesKeepConsistent(s: Snapshot, cs: seq<NodeConfig>, now: bool)
    requires Valid(s) && Consistent(s.graph)
    ensures Consistent(Refresh(NewNodes(s, cs), now).graph)
  {
    NewNodesKeepsConsistent(s, cs);
    RefreshKeepsConsistent(NewNodes(s, cs), now);
  }

  // ---------------------------------------------------------------------------
  // addEdge of src/graph.ts links without marking.

  /** Two clean vertices without inputs: a = 1, b = 2. */
  function TwoSources(): Snapshot {
    Snapshot(
      Graph(["a", "b"],
            map["a" := Vertex(Scalar, None, Some(1.0), false), "b" := Vertex(Scalar, None, Some(2.0), false)],
            map["a" := [], "b" := []],
            map["a" := [], "b" := []]),
      map["a" := Some(1.0), "b" := Some(2.0)])
  }

  lemma TwoSourcesValid()
    ensures Valid(TwoSources())
  {
    var s := TwoSources();
    var g := s.graph;
    assert "a" != "b";
    assert g.attrs.Keys == {"a", "b"} && g.inN.Keys == {"a", "b"} && g.outN.Keys == {"a", "b"};
    assert Distinct(g.order);
    assert forall n :: n in g.order <==> n == "a" || n == "b";
    assert forall v :: v in g.outN ==> g.outN[v] == [] && g.inN[v] == [];
    assert Mirrored(g.outN, g.inN) && Mirrored(g.inN, g.outN);
    assert InSync(s);
  }

  lemma TwoSourcesConsistent()
    ensures Valid(TwoSources()) && Consistent(TwoSources().graph)
  {
    TwoSourcesValid();
    var g := TwoSources().graph;
    assert g.attrs.Keys == {"a", "b"};
    forall n | n in g.attrs ensures Resolved(g, n) {
      assert g.inN[n] == [];
      assert Inputs(g, n) == [];
    }
  }

  /** TwoSources after addDirectedEdge("a", "b"). */
  function Linked(): Snapshot {
    Snapshot(
      Graph(["a", "b"],
            map["a" := Vertex(Scalar, None, Some(1.0), false), "b" := Vertex(Scalar, None, Some(2.0), false)],
            map["a" := [], "b" := ["a"]],
            map["a" := ["b"], "b" := []]),
      map["a" := Some(1.0), "b" := Some(2.0)])
  }

  lemma LinkedIsLink()
    ensures Link(TwoSources().graph, "a", "b") == Linked().graph
  {
    var g0 := TwoSources().graph;
    assert "a" != "b";
    assert CanLink(g0, "a", "b");
    assert g0.inN["b"] + ["a"] == ["a"] && g0.outN["a"] + ["b"] == ["b"];
    assert g0.inN["b" := ["a"]] == Linked().graph.inN;
    assert g0.outN["a" := ["b"]] == Linked().graph.outN;
  }

  lemma LinkedValid()
    ensures Valid(Linked())
  {
    TwoSourcesValid();
    LinkedIsLink();
    LinkWellFormed(TwoSources().graph, "a", "b");
  }

  lemma LinkedStale()
    ensures Valid(Linked()) && !Consistent(Linked().graph)
    ensures Inputs(Linked().graph, "b") == ["a"]
  {
    LinkedValid();
    var g := Linked().graph;
    assert g.inN["b"] == ["a"];
    assert !Resolved(g, "b");
  }

  /** Both vertices of Linked() are clean and hold different values. */
  lemma LinkedClean()
    ensures forall n :: n in Linked().graph.attrs ==> !Linked().graph.attrs[n].dirty
    ensures Linked().graph.attrs["b"].value != Linked().graph.attrs["a"].value
  {
    var g := Linked().graph;
    assert "a" != "b";
    assert g.attrs.Keys == {"a", "b"};
  }

  /** Linking a -> b without marking leaves b clean although it now should
      copy a; update() does not revisit it, so b keeps 2 while its input is 1. */
  lemma UnmarkedLinkGoesStale()
    ensures Link(TwoSources().graph, "a", "b") == Linked().graph
    ensures Valid(Linked()) && !Consistent(Linked().graph)
    ensures Update(Linked()).snap == Linked()
    ensures Inputs(Linked().graph, "b") == ["a"]
    ensures Linked().graph.attrs["b"].value != Linked().graph.attrs["a"].value
  {
    LinkedIsLink();
    LinkedStale();
    LinkedClean();
    UpdateWhenClean(Linked());
  }
}
