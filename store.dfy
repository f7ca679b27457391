/** The vertex/edge store the engine keeps in a graph library: vertices in
    insertion order, per-vertex attributes, in- and out-neighbour lists, and
    the `_values` mirror of the value attributes. */
module Store {
  import opened Wrappers
  import opened Traversal

  datatype VertexType = Scalar | Compute | Validator

  /** The attributes the engine reads and writes (`visible` is presentation only). */
  datatype Vertex = Vertex(kind: VertexType, operation: Option<string>, value: Option<real>, dirty: bool)

  /** The directed graph: vertex order, attributes, and neighbours in store order. */
  datatype Graph = Graph(order: seq<string>, attrs: map<string, Vertex>, inN: Adjacency, outN: Adjacency)

  /** The graph together with `_values`. */
  datatype Snapshot = Snapshot(graph: Graph, values: map<string, Option<real>>)

  ghost predicate Distinct(s: seq<string>) {
    forall i, j :: 0 <= i < j < |s| ==> s[i] != s[j]
  }

  /** The store's structural invariant: every listed vertex exists once, every
      vertex has neighbour lists, and each edge is listed at both ends. */
  ghost predicate WellFormed(g: Graph) {
    Shaped(g.order, g.attrs.Keys, g.inN, g.outN)
  }

  ghost predicate Shaped(order: seq<string>, keys: set<string>, inN: Adjacency, outN: Adjacency) {
    && Distinct(order)
    && (forall n :: n in keys <==> n in order)
    && inN.Keys == keys
    && outN.Keys == keys
    && Mirrored(outN, inN)
    && Mirrored(inN, outN)
  }

  /** Each edge listed in a is listed the other way round in b. */
  ghost predicate Mirrored(a: Adjacency, b: Adjacency) {
    forall v, w :: v in a && w in a[v] ==> w in b && v in b[w]
  }

  lemma DistinctSnoc(s: seq<string>, x: string)
    requires Distinct(s) && x !in s
    ensures Distinct(s + [x])
  {
  }

  /** A vertex with no edges keeps the lists mirrored. */
  lemma MirroredAdd(a: Adjacency, b: Adjacency, id: string)
    requires Mirrored(a, b) && id !in a && id !in b
    ensures Mirrored(a[id := []], b[id := []])
  {
    var a', b' := a[id := []], b[id := []];
    forall v, w | v in a' && w in a'[v]
      ensures w in b' && v in b'[w]
    {
      assert v in a && w in a[v];
    }
  }

  /** `_values` holds exactly the values written through `setNodeValue`:
      it agrees with the value attribute, and holds every vertex that has one. */
  ghost predicate InSync(s: Snapshot) {
    && s.values.Keys <= s.graph.attrs.Keys
    && (forall n :: n in s.values ==> s.values[n] == s.graph.attrs[n].value)
    && (forall n :: n in s.graph.attrs && s.graph.attrs[n].value.Some? ==> n in s.values)
  }

  ghost predicate Valid(s: Snapshot) {
    WellFormed(s.graph) && InSync(s)
  }

  /** Neighbours are vertices of the store. */
  lemma NeighboursExist(g: Graph, v: string)
    requires WellFormed(g) && v in g.attrs
    ensures forall i :: 0 <= i < |g.inN[v]| ==> g.inN[v][i] in g.attrs
    ensures forall i :: 0 <= i < |g.outN[v]| ==> g.outN[v][i] in g.attrs
  {
    forall i | 0 <= i < |g.inN[v]| ensures g.inN[v][i] in g.attrs {
      assert g.inN[v][i] in g.inN[v];
    }
    forall i | 0 <= i < |g.outN[v]| ensures g.outN[v][i] in g.attrs {
      assert g.outN[v][i] in g.outN[v];
    }
  }

  /** Each input of v lists v among its out-neighbours. */
  lemma InputFeeds(g: Graph, v: string, i: nat)
    requires WellFormed(g) && v in g.inN && i < |g.inN[v]|
    ensures g.inN[v][i] in g.outN && v in g.outN[g.inN[v][i]]
  {
    assert g.inN[v][i] in g.inN[v];
  }

  // ---------------------------------------------------------------------------
  // getDirtyNodes: the vertices, in store order, whose dirty flag is set.

  /** x is listed before y in s. */
  ghost predicate Before(s: seq<string>, x: string, y: string) {
    exists a, b :: 0 <= a < b < |s| && s[a] == x && s[b] == y
  }

  /** The entries of r are listed in the order they have in s. */
  ghost predicate InOrder(r: seq<string>, s: seq<string>) {
    forall i, j :: 0 <= i < j < |r| ==> Before(s, r[i], r[j])
  }

  function DirtyAmong(ns: seq<string>, attrs: map<string, Vertex>): (r: seq<string>)
    requires forall i :: 0 <= i < |ns| ==> ns[i] in attrs
    ensures forall n :: n in r <==> n in ns && attrs[n].dirty
    ensures Distinct(ns) ==> Distinct(r)
    ensures InOrder(r, ns)
    decreases |ns|
  {
    if ns == [] then []
    else
      var rest := DirtyAmong(ns[1..], attrs);
      assert forall n :: n in ns <==> n == ns[0] || n in ns[1..];
      InOrderSkip(rest, ns);
      if attrs[ns[0]].dirty then InOrderCons(rest, ns); [ns[0]] + rest else rest
  }

  /** Order within the tail of s is order within s. */
  lemma InOrderSkip(r: seq<string>, s: seq<string>)
    requires s != [] && InOrder(r, s[1..])
    ensures InOrder(r, s)
  {
    forall i, j | 0 <= i < j < |r|
      ensures Before(s, r[i], r[j])
    {
      var a, b :| 0 <= a < b < |s[1..]| && s[1..][a] == r[i] && s[1..][b] == r[j];
      assert s[a + 1] == r[i] && s[b + 1] == r[j];
    }
  }

  /** The head of s goes before anything taken from its tail. */
  lemma InOrderCons(r: seq<string>, s: seq<string>)
    requires s != [] && InOrder(r, s) && forall n :: n in r ==> n in s[1..]
    ensures InOrder([s[0]] + r, s)
  {
    var r' := [s[0]] + r;
    forall i, j | 0 <= i < j < |r'|
      ensures Before(s, r'[i], r'[j])
    {
      if i == 0 {
        assert r'[j] == r[j - 1] && r[j - 1] in r;
        var b :| 0 <= b < |s[1..]| && s[1..][b] == r[j - 1];
        assert s[0] == r'[i] && s[b + 1] == r'[j];
      } else {
        assert r'[i] == r[i - 1] && r'[j] == r[j - 1];
      }
    }
  }

  function DirtyNodes(g: Graph): (r: seq<string>)
    requires WellFormed(g)
    ensures Distinct(r)
    ensures forall n :: n in r <==> n in g.attrs && g.attrs[n].dirty
    ensures InOrder(r, g.order)
  {
    DirtyAmong(g.order, g.attrs)
  }

  lemma {:induction false} NoneDirtyAmong(ns: seq<string>, attrs: map<string, Vertex>)
    requires forall i :: 0 <= i < |ns| ==> ns[i] in attrs && !attrs[ns[i]].dirty
    ensures DirtyAmong(ns, attrs) == []
    decreases |ns|
  {
    if ns != [] {
      NoneDirtyAmong(ns[1..], attrs);
    }
  }

  /** With no dirty vertex, getDirtyNodes() is empty. */
  lemma NoDirtyNodes(g: Graph)
    requires WellFormed(g) && forall n :: n in g.attrs ==> !g.attrs[n].dirty
    ensures DirtyNodes(g) == []
  {
    NoneDirtyAmong(g.order, g.attrs);
  }

  // ---------------------------------------------------------------------------
  // Single-vertex writes.

  /** setNodeValue: the value attribute and `_values[n]` together. */
  function Write(s: Snapshot, n: string, v: Option<real>): (r: Snapshot)
    requires n in s.graph.attrs
    ensures Valid(s) ==> Valid(r)
    ensures r.graph == s.graph.(attrs := s.graph.attrs[n := s.graph.attrs[n].(value := v)])
    ensures r.values == s.values[n := v] && r.values.Keys == s.values.Keys + {n}
  {
    var r := Snapshot(s.graph.(attrs := s.graph.attrs[n := s.graph.attrs[n].(value := v)]), s.values[n := v]);
    assert r.graph.attrs.Keys == s.graph.attrs.Keys;
    r
  }

  /** Replacing a vertex's attributes while mirroring its value into
      `_values` keeps the store valid. */
  lemma ReplacedValid(s: Snapshot, n: string, u: Vertex)
    requires Valid(s) && n in s.graph.attrs
    ensures Valid(Snapshot(s.graph.(attrs := s.graph.attrs[n := u]), s.values[n := u.value]))
  {
    assert s.graph.attrs[n := u].Keys == s.graph.attrs.Keys;
  }

  /** setNodeDirty(n, d). */
  function SetDirty(s: Snapshot, n: string, d: bool): (r: Snapshot)
    requires n in s.graph.attrs
    ensures Valid(s) ==> Valid(r)
    ensures n in r.graph.attrs && r.graph.attrs[n].dirty == d
    ensures r == s.(graph := s.graph.(attrs := s.graph.attrs[n := s.graph.attrs[n].(dirty := d)]))
  {
    var r := s.(graph := s.graph.(attrs := s.graph.attrs[n := s.graph.attrs[n].(dirty := d)]));
    assert r.graph.attrs.Keys == s.graph.attrs.Keys;
    r
  }

  // ---------------------------------------------------------------------------
  // Structural edits.

  /** addDirectedEdge succeeds only between two known vertices not yet linked. */
  predicate CanLink(g: Graph, source: string, target: string) {
    source in g.attrs && target in g.attrs && source in g.outN && target in g.inN
    && target !in g.outN[source]
  }

  /** addDirectedEdge: the target joins the end of the source's out-list and
      the source joins the end of the target's in-list; a refused edge leaves
      the graph as it was. */
  function Link(g: Graph, source: string, target: string): (r: Graph)
    ensures r.order == g.order && r.attrs == g.attrs
    ensures CanLink(g, source, target) ==>
      && r.outN == g.outN[source := g.outN[source] + [target]]
      && r.inN == g.inN[target := g.inN[target] + [source]]
    ensures !CanLink(g, source, target) ==> r == g
  {
    if CanLink(g, source, target) then
      g.(outN := g.outN[source := g.outN[source] + [target]],
         inN := g.inN[target := g.inN[target] + [source]])
    else g
  }

  lemma LinkWellFormed(g: Graph, source: string, target: string)
    requires WellFormed(g)
    ensures WellFormed(Link(g, source, target))
  {
    if CanLink(g, source, target) {
      MirroredLink(g.outN, g.inN, source, target);
      MirroredLink(g.inN, g.outN, target, source);
    }
  }

  /** ... and `_values`, which no edge touches. */
  lemma LinkValid(s: Snapshot, source: string, target: string)
    requires Valid(s)
    ensures Valid(s.(graph := Link(s.graph, source, target)))
  {
    LinkWellFormed(s.graph, source, target);
  }

  /** Listing v -> w in a and w -> v in b keeps the lists mirrored. */
  lemma MirroredLink(a: Adjacency, b: Adjacency, v: string, w: string)
    requires Mirrored(a, b) && v in a && w in b
    ensures Mirrored(a[v := a[v] + [w]], b[w := b[w] + [v]])
  {
    var a', b' := a[v := a[v] + [w]], b[w := b[w] + [v]];
    forall x, y | x in a' && y in a'[x]
      ensures y in b' && x in b'[y]
    {
      if x == v && y == w {
      } else {
        assert y in a[x];
      }
    }
  }

  /** addNode(id, attributes): a new vertex, dirty, without a value or edges;
      an id already present is refused and the graph is left as it was. */
  function AddVertex(g: Graph, id: string, kind: VertexType, operation: Option<string>): (r: Graph)
    ensures id in r.attrs && r.attrs.Keys == g.attrs.Keys + {id}
    ensures id !in g.attrs ==>
      && r.order == g.order + [id] && r.attrs == g.attrs[id := Vertex(kind, operation, None, true)]
      && r.inN == g.inN[id := []] && r.outN == g.outN[id := []]
    ensures id in g.attrs ==> r == g
  {
    if id in g.attrs then g
    else
      Graph(g.order + [id], g.attrs[id := Vertex(kind, operation, None, true)],
            g.inN[id := []], g.outN[id := []])
  }

  /** The new vertex keeps the store's structure. */
  lemma AddVertexWellFormed(g: Graph, id: string, kind: VertexType, operation: Option<string>)
    requires WellFormed(g)
    ensures WellFormed(AddVertex(g, id, kind, operation))
  {
    if id !in g.attrs {
      ShapedAdd(g.order, g.attrs.Keys, g.inN, g.outN, id);
    }
  }

  lemma ShapedAdd(order: seq<string>, keys: set<string>, inN: Adjacency, outN: Adjacency, id: string)
    requires Shaped(order, keys, inN, outN) && id !in keys
    ensures Shaped(order + [id], keys + {id}, inN[id := []], outN[id := []])
  {
    DistinctSnoc(order, id);
    MirroredAdd(outN, inN, id);
    MirroredAdd(inN, outN, id);
  }

  /** ... and `_values`: the new vertex has no value. */
  lemma AddVertexValid(s: Snapshot, id: string, kind: VertexType, operation: Option<string>)
    requires Valid(s)
    ensures Valid(s.(graph := AddVertex(s.graph, id, kind, operation)))
  {
    AddVertexWellFormed(s.graph, id, kind, operation);
    assert forall n :: n in s.values ==> n != id || id in s.graph.attrs;
  }

  /** setDescendantsDirty(x): x and every vertex reachable from it along
      out-edges become dirty; nothing else changes. */
  ghost function MarkFrom(s: Snapshot, x: string): (r: Snapshot)
    ensures Valid(s) ==> Valid(r)
  {
    var g := s.graph;
    var attrs := map v | v in g.attrs ::
                   if Reachable(g.outN, x, v) then g.attrs[v].(dirty := true) else g.attrs[v];
    assert attrs.Keys == g.attrs.Keys;
    s.(graph := g.(attrs := attrs))
  }
}
