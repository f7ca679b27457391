/** What the public mutators of `ComputeGraph` do to the store, before the
    update() they may end with: setValues, addEdge(s) and addNode in the two
    copies of the class. */
module Mutations {
  import opened Wrappers
  import opened Traversal
  import opened Store
  import opened Scheduler

  // ---------------------------------------------------------------------------
  // The ranking that lets every walk of recurseNeighbors end: every vertex
  // has a rank and every edge descends.

  ghost predicate Acyclic(g: Graph, rank: map<string, nat>) {
    g.attrs.Keys <= rank.Keys && Ranked(g.outN, rank)
  }

  /** The edge a -> b goes from a higher to a lower rank. */
  ghost predicate Descends(a: string, b: string, rank: map<string, nat>) {
    a in rank && b in rank && rank[b] < rank[a]
  }

  /** The edges a call asks for, each from a higher to a lower rank. */
  ghost predicate EdgesDescend(edges: seq<Edge>, rank: map<string, nat>) {
    forall i :: 0 <= i < |edges| ==> Descends(edges[i].0, edges[i].1, rank)
  }

  lemma AddVertexAcyclic(g: Graph, id: string, kind: VertexType, operation: Option<string>, rank: map<string, nat>)
    requires Acyclic(g, rank) && id in rank
    ensures Acyclic(AddVertex(g, id, kind, operation), rank)
  {
    if id !in g.attrs {
      var outN := g.outN[id := []];
      forall v, w | v in rank && w in Nbrs(outN, v)
        ensures w in rank && rank[w] < rank[v]
      {
        assert v != id && w in Nbrs(g.outN, v);
      }
    }
  }

  lemma LinkAcyclic(g: Graph, a: string, b: string, rank: map<string, nat>)
    requires Acyclic(g, rank)
    requires CanLink(g, a, b) ==> Descends(a, b, rank)
    ensures Acyclic(Link(g, a, b), rank)
  {
    if CanLink(g, a, b) {
      var outN := Link(g, a, b).outN;
      forall v, w | v in rank && w in Nbrs(outN, v)
        ensures w in rank && rank[w] < rank[v]
      {
        if v != a || w != b {
          assert w in Nbrs(g.outN, v);
        }
      }
    }
  }

  // ---------------------------------------------------------------------------
  // The optional update at the end of a mutator.

  ghost function Refresh(s: Snapshot, now: bool): (r: Snapshot)
    requires Valid(s)
    ensures Valid(r)
    ensures r.graph == s.graph.(attrs := r.graph.attrs) && r.graph.attrs.Keys == s.graph.attrs.Keys
  {
    if now then UpdateKeepsQueue(s); Update(s).snap else s
  }

  // ---------------------------------------------------------------------------
  // addEdge and addEdges.

  type Edge = (string, string)

  /** addEdge(a, b) of src/cgraph.ts before its update: the edge is added and
      a and everything reachable from it marked dirty; a refused edge throws
      before the marking and changes nothing. */
  ghost function MarkedLink(s: Snapshot, a: string, b: string): (r: Snapshot)
    requires Valid(s)
    ensures Valid(r)
  {
    LinkWellFormed(s.graph, a, b);
    if CanLink(s.graph, a, b) then MarkFrom(s.(graph := Link(s.graph, a, b)), a) else s
  }

  /** addEdges(edges) of src/cgraph.ts before its update: addEdge on each
      edge in turn. */
  ghost function MarkedLinks(s: Snapshot, edges: seq<Edge>): (r: Snapshot)
    requires Valid(s)
    ensures Valid(r)
    decreases |edges|
  {
    if edges == [] then s
    else
      var last := edges[|edges| - 1];
      MarkedLink(MarkedLinks(s, edges[..|edges| - 1]), last.0, last.1)
  }

  /** addEdges(edges) of src/graph.ts: addDirectedEdge on each edge in turn,
      a refused edge skipped, nothing marked. */
  function Links(g: Graph, edges: seq<Edge>): (r: Graph)
    ensures r.order == g.order && r.attrs == g.attrs && r.inN.Keys == g.inN.Keys
    decreases |edges|
  {
    if edges == [] then g
    else
      var last := edges[|edges| - 1];
      Link(Links(g, edges[..|edges| - 1]), last.0, last.1)
  }

  /** Edges that descend keep the graph ranked. */
  lemma {:induction false} LinksAcyclic(g: Graph, edges: seq<Edge>, rank: map<string, nat>)
    requires Acyclic(g, rank) && EdgesDescend(edges, rank)
    ensures Acyclic(Links(g, edges), rank)
    decreases |edges|
  {
    if edges != [] {
      var last := edges[|edges| - 1];
      LinksAcyclic(g, edges[..|edges| - 1], rank);
      LinkAcyclic(Links(g, edges[..|edges| - 1]), last.0, last.1, rank);
    }
  }

  lemma {:induction false} LinksWellFormed(g: Graph, edges: seq<Edge>)
    requires WellFormed(g)
    ensures WellFormed(Links(g, edges))
    decreases |edges|
  {
    if edges != [] {
      var last := edges[|edges| - 1];
      LinksWellFormed(g, edges[..|edges| - 1]);
      LinkWellFormed(Links(g, edges[..|edges| - 1]), last.0, last.1);
    }
  }

  lemma LinksValid(s: Snapshot, edges: seq<Edge>)
    requires Valid(s)
    ensures Valid(s.(graph := Links(s.graph, edges)))
  {
    LinksWellFormed(s.graph, edges);
  }

  // ---------------------------------------------------------------------------
  // addNode.

  /** The configuration addNode takes; `visible` is presentation only. */
  datatype NodeConfig = NodeConfig(id: string, kind: VertexType, value: Option<real>, operation: Option<string>,
                                   sources: seq<string>, targets: seq<string>)

  /** The edges addNode adds: each source into id, then id into each target. */
  function NodeEdges(c: NodeConfig): (r: seq<Edge>)
    ensures |r| == |c.sources| + |c.targets|
    ensures forall i :: 0 <= i < |c.sources| ==> r[i] == (c.sources[i], c.id)
    ensures forall i :: 0 <= i < |c.targets| ==> r[|c.sources| + i] == (c.id, c.targets[i])
    ensures forall i :: 0 <= i < |r| ==> r[i].0 == c.id || r[i].1 == c.id
  {
    SourceEdges(c) + TargetEdges(c)
  }

  function SourceEdges(c: NodeConfig): (r: seq<Edge>)
    ensures |r| == |c.sources| && forall i :: 0 <= i < |r| ==> r[i] == (c.sources[i], c.id)
  {
    seq(|c.sources|, i requires 0 <= i < |c.sources| => (c.sources[i], c.id))
  }

  function TargetEdges(c: NodeConfig): (r: seq<Edge>)
    ensures |r| == |c.targets| && forall i :: 0 <= i < |r| ==> r[i] == (c.id, c.targets[i])
  {
    seq(|c.targets|, i requires 0 <= i < |c.targets| => (c.id, c.targets[i]))
  }

  /** Adding a + b is adding a, then b. */
  lemma {:induction false} LinksAppend(g: Graph, a: seq<Edge>, b: seq<Edge>)
    ensures Links(g, a + b) == Links(Links(g, a), b)
    decreases |b|
  {
    if b == [] {
      assert a + b == a;
    } else {
      var b' := b[..|b| - 1];
      assert (a + b)[..|a + b| - 1] == a + b';
      LinksAppend(g, a, b');
    }
  }

  /** The new vertex with its value, if one is given. */
  function Created(s: Snapshot, c: NodeConfig): (r: Snapshot)
    requires Valid(s) && c.id !in s.graph.attrs
    ensures Valid(r) && c.id in r.graph.attrs && r.graph.attrs[c.id].dirty
    ensures r.graph.attrs == s.graph.attrs[c.id := Vertex(c.kind, c.operation, c.value, true)]
    ensures r.graph.order == s.graph.order + [c.id]
    ensures r.graph.inN == s.graph.inN[c.id := []] && r.graph.outN == s.graph.outN[c.id := []]
    ensures r.values == if c.value.Some? then s.values[c.id := c.value] else s.values
    ensures c.id in r.values <==> c.value.Some?
  {
    CreatedValid(s, c);
    CreatedShape(s, c);
    Fresh(s, c)
  }

  /** The vertex added, then its value written when one is given. */
  function Fresh(s: Snapshot, c: NodeConfig): Snapshot
    requires c.id !in s.graph.attrs
  {
    var t := s.(graph := AddVertex(s.graph, c.id, c.kind, c.operation));
    if c.value.Some? then Write(t, c.id, c.value) else t
  }

  lemma CreatedShape(s: Snapshot, c: NodeConfig)
    requires c.id !in s.graph.attrs && s.values.Keys <= s.graph.attrs.Keys
    ensures Fresh(s, c).graph.attrs == s.graph.attrs[c.id := Vertex(c.kind, c.operation, c.value, true)]
    ensures Fresh(s, c).graph.order == s.graph.order + [c.id]
    ensures Fresh(s, c).graph.inN == s.graph.inN[c.id := []] && Fresh(s, c).graph.outN == s.graph.outN[c.id := []]
    ensures Fresh(s, c).values == if c.value.Some? then s.values[c.id := c.value] else s.values
    ensures c.id in Fresh(s, c).values <==> c.value.Some?
  {
  }

  lemma CreatedValid(s: Snapshot, c: NodeConfig)
    requires Valid(s) && c.id !in s.graph.attrs
    ensures Valid(Fresh(s, c))
  {
    AddVertexValid(s, c.id, c.kind, c.operation);
  }

  /** addNode(c) of src/cgraph.ts before its update: a taken id throws and
      changes nothing; otherwise the vertex, its value, addEdges over its
      edges, and setDescendantsDirty(id). */
  ghost function NewNode(s: Snapshot, c: NodeConfig): (r: Snapshot)
    requires Valid(s)
    ensures Valid(r)
  {
    if c.id in s.graph.attrs then s
    else MarkFrom(MarkedLinks(Created(s, c), NodeEdges(c)), c.id)
  }

  /** addNode(c) of src/graph.ts before its update: the edges are added
      without marking; only setDescendantsDirty(id) marks. */
  ghost function LegacyNewNode(s: Snapshot, c: NodeConfig): (r: Snapshot)
    requires Valid(s)
    ensures Valid(r)
  {
    if c.id in s.graph.attrs then s
    else
      var t := Created(s, c);
      LinksValid(t, NodeEdges(c));
      MarkFrom(t.(graph := Links(t.graph, NodeEdges(c))), c.id)
  }

  /** addNodes(cs) of src/cgraph.ts before its update: addNode on each
      configuration in turn, without updating. */
  ghost function NewNodes(s: Snapshot, cs: seq<NodeConfig>): (r: Snapshot)
    requires Valid(s)
    ensures Valid(r)
    decreases |cs|
  {
    if cs == [] then s else NewNode(NewNodes(s, cs[..|cs| - 1]), cs[|cs| - 1])
  }

  lemma NewNodesStep(s: Snapshot, cs: seq<NodeConfig>, i: int)
    requires Valid(s) && 0 <= i < |cs|
    ensures NewNodes(s, cs[..i + 1]) == NewNode(NewNodes(s, cs[..i]), cs[i])
  {
    assert cs[..i + 1][..i] == cs[..i];
  }

  /** addNodes(cs) of src/graph.ts before its update, one configuration
      after the other. */
  ghost function LegacyNewNodes(s: Snapshot, cs: seq<NodeConfig>): (r: Snapshot)
    requires Valid(s)
    ensures Valid(r)
    decreases |cs|
  {
    if cs == [] then s else LegacyNewNode(LegacyNewNodes(s, cs[..|cs| - 1]), cs[|cs| - 1])
  }

  lemma LegacyNewNodesStep(s: Snapshot, cs: seq<NodeConfig>, i: int)
    requires Valid(s) && 0 <= i < |cs|
    ensures LegacyNewNodes(s, cs[..i + 1]) == LegacyNewNode(LegacyNewNodes(s, cs[..i]), cs[i])
  {
    assert cs[..i + 1][..i] == cs[..i];
  }

  /** The vertex and the edges of a configuration fit the ranking. */
  ghost predicate NodeDescends(c: NodeConfig, rank: map<string, nat>) {
    c.id in rank && EdgesDescend(NodeEdges(c), rank)
  }

  // ---------------------------------------------------------------------------
  // setValues.

  /** Some key of vals reaches v. */
  ghost predicate Touched(outN: Adjacency, vals: map<string, real>, v: string) {
    exists k :: k in vals && Reachable(outN, k, v)
  }

  /** The attributes after setValues(vals): each key takes its value, and
      every vertex a key reaches is dirty. */
  ghost function AssignAttrs(attrs: map<string, Vertex>, outN: Adjacency, vals: map<string, real>): (r: map<string, Vertex>)
    ensures r.Keys == attrs.Keys
  {
    map v | v in attrs ::
      attrs[v].(value := if v in vals then Some(vals[v]) else attrs[v].value,
                dirty := attrs[v].dirty || Touched(outN, vals, v))
  }

  /** setValues(vals) before its update: every key takes its value, and the
      keys and everything reachable from them are dirty. The order of the
      keys does not matter. */
  ghost function Assigned(s: Snapshot, vals: map<string, real>): (r: Snapshot)
    requires vals.Keys <= s.graph.attrs.Keys
    ensures r.graph == s.graph.(attrs := r.graph.attrs) && r.graph.attrs.Keys == s.graph.attrs.Keys
    ensures Valid(s) ==> Valid(r)
  {
    var attrs := AssignAttrs(s.graph.attrs, s.graph.outN, vals);
    var values := s.values + map k | k in vals :: Some(vals[k]);
    AssignedInSync(s, vals, attrs, values);
    Snapshot(s.graph.(attrs := attrs), values)
  }

  lemma AssignedInSync(s: Snapshot, vals: map<string, real>, attrs: map<string, Vertex>, values: map<string, Option<real>>)
    requires vals.Keys <= s.graph.attrs.Keys
    requires attrs == AssignAttrs(s.graph.attrs, s.graph.outN, vals)
    requires values == s.values + map k | k in vals :: Some(vals[k])
    ensures InSync(s) ==> InSync(Snapshot(s.graph.(attrs := attrs), values))
  {
  }

  /** One more key, handled as the source does it: setNodeValue, then
      setDescendantsDirty. */
  lemma AssignedStep(s: Snapshot, done: map<string, real>, k: string, x: real)
    requires done.Keys <= s.graph.attrs.Keys && k in s.graph.attrs
    ensures MarkFrom(Write(Assigned(s, done), k, Some(x)), k) == Assigned(s, done[k := x])
  {
    AssignedAttrsStep(s, done, k, x);
    AssignedValuesStep(s.values, done, done[k := x], k, x);
  }

  lemma AssignedAttrsStep(s: Snapshot, done: map<string, real>, k: string, x: real)
    requires done.Keys <= s.graph.attrs.Keys && k in s.graph.attrs
    ensures MarkFrom(Write(Assigned(s, done), k, Some(x)), k).graph.attrs == Assigned(s, done[k := x]).graph.attrs
  {
    var g := s.graph;
    var w := Write(Assigned(s, done), k, Some(x));
    var a := AssignAttrs(g.attrs, g.outN, done);
    assert w.graph.outN == g.outN;
    assert w.graph.attrs == a[k := a[k].(value := Some(x))];
    var m := MarkFrom(w, k).graph.attrs;
    var b := AssignAttrs(g.attrs, g.outN, done[k := x]);
    assert m.Keys == b.Keys;
    forall v | v in g.attrs
      ensures m[v] == b[v]
    {
      AssignAttrsStepAt(g.attrs, g.outN, done, k, x, v);
    }
  }

  lemma AssignAttrsStepAt(attrs: map<string, Vertex>, outN: Adjacency, done: map<string, real>, k: string, x: real, v: string)
    requires k in attrs && v in attrs
    ensures var a := AssignAttrs(attrs, outN, done);
            var w := a[k := a[k].(value := Some(x))];
            (if Reachable(outN, k, v) then w[v].(dirty := true) else w[v]) == AssignAttrs(attrs, outN, done[k := x])[v]
  {
    TouchedStep(outN, done, k, x, v);
  }

  lemma TouchedStep(outN: Adjacency, done: map<string, real>, k: string, x: real, v: string)
    ensures Touched(outN, done[k := x], v) <==> Touched(outN, done, v) || Reachable(outN, k, v)
  {
    if Touched(outN, done[k := x], v) {
      var k' :| k' in done[k := x] && Reachable(outN, k', v);
      if k' != k {
        assert k' in done;
      }
    }
    if Touched(outN, done, v) {
      var k' :| k' in done && Reachable(outN, k', v);
      assert k' in done[k := x];
    }
    if Reachable(outN, k, v) {
      assert k in done[k := x];
    }
  }

  lemma AssignedValuesStep(values: map<string, Option<real>>, done: map<string, real>, more: map<string, real>, k: string, x: real)
    requires more == done[k := x]
    ensures (values + map j | j in done :: Some(done[j]))[k := Some(x)] == values + map j | j in more :: Some(more[j])
  {
  }

  lemma AssignedNothing(s: Snapshot)
    ensures Assigned(s, map[]) == s
  {
    var none: map<string, real> := map[];
    assert s.values + (map k | k in none :: Some(none[k])) == s.values;
    assert AssignAttrs(s.graph.attrs, s.graph.outN, none) == s.graph.attrs;
  }
}
