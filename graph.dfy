/** `ComputeGraph` of src/graph.ts, the older copy of the class: the same
    engine, but addEdge and addEdges only link, and addNode and addNodes
    update whenever asked, initialized or not. */
module LegacyGraph {
  import opened Wrappers
  import opened Store
  import opened Mutations
  import Engine

  class ComputeGraph {
    const engine: Engine.Engine

    ghost predicate Valid()
      reads this, engine
    {
      engine.Valid()
    }

    constructor ()
      ensures Valid() && fresh(engine) && !engine.initialized
      ensures engine.graph == Graph([], map[], map[], map[]) && engine.values == map[]
    {
      engine := new Engine.Engine();
    }

    /** addEdge(source, target): addDirectedEdge and nothing else; a refused
        edge is reported and skipped. Neither end is marked dirty. */
    method AddEdge(source: string, target: string)
      requires Valid()
      modifies engine
      ensures Valid() && engine.initialized == old(engine.initialized)
      ensures engine.Current() == old(engine.Current()).(graph := Link(old(engine.graph), source, target))
    {
      var _ := engine.AddDirectedEdge(source, target);
    }

    /** addEdges(edges): addEdge on each edge in turn. */
    method AddEdges(edges: seq<Edge>)
      requires Valid()
      modifies engine
      ensures Valid() && engine.initialized == old(engine.initialized)
      ensures engine.Current() == old(engine.Current()).(graph := Links(old(engine.graph), edges))
    {
      ghost var s0 := engine.Current();
      var i := 0;
      while i < |edges|
        invariant 0 <= i <= |edges|
        invariant Valid() && engine.initialized == old(engine.initialized)
        invariant engine.Current() == s0.(graph := Links(s0.graph, edges[..i]))
      {
        assert edges[..i + 1][..i] == edges[..i];
        AddEdge(edges[i].0, edges[i].1);
        i := i + 1;
      }
      assert edges[..i] == edges;
    }

    /** addNode(c, shouldUpdate): a taken id throws and changes nothing;
        otherwise the vertex, dirty, its value if one is given, addEdge from
        each source and to each target, setDescendantsDirty(id), and
        update() if asked for. */
    method AddNode(c: NodeConfig, shouldUpdate: bool, ghost rank: map<string, nat>)
      requires Valid() && Acyclic(engine.graph, rank) && NodeDescends(c, rank)
      modifies engine
      ensures Valid() && engine.initialized == old(engine.initialized) && Acyclic(engine.graph, rank)
      ensures engine.Current() ==
        if c.id in old(engine.graph.attrs) then old(engine.Current())
        else Refresh(LegacyNewNode(old(engine.Current()), c), shouldUpdate)
    {
      ghost var s0 := engine.Current();
      var ok := engine.AddGraphNode(c.id, c.kind, c.operation);
      if !ok {
        return;
      }
      AddVertexAcyclic(s0.graph, c.id, c.kind, c.operation, rank);
      if c.value.Some? {
        engine.SetNodeValue(c.id, c.value);
      }
      ghost var t := Created(s0, c);
      assert engine.Current() == t;
      AddEdges(SourceEdges(c));
      AddEdges(TargetEdges(c));
      LinksAppend(t.graph, SourceEdges(c), TargetEdges(c));
      LinksAcyclic(t.graph, NodeEdges(c), rank);
      var _ := engine.SetDescendantsDirty(c.id, rank);
      if shouldUpdate {
        engine.Update();
      }
    }

    /** addNodes(cs, shouldUpdate): addNode on each configuration without
        updating, then update() if asked for. */
    method AddNodes(cs: seq<NodeConfig>, shouldUpdate: bool, ghost rank: map<string, nat>)
      requires Valid() && Acyclic(engine.graph, rank)
      requires forall i :: 0 <= i < |cs| ==> NodeDescends(cs[i], rank)
      modifies engine
      ensures Valid() && engine.initialized == old(engine.initialized) && Acyclic(engine.graph, rank)
      ensures engine.Current() == Refresh(LegacyNewNodes(old(engine.Current()), cs), shouldUpdate)
    {
      ghost var s0 := engine.Current();
      var i := 0;
      while i < |cs|
        invariant 0 <= i <= |cs|
        invariant Valid() && engine.initialized == old(engine.initialized) && Acyclic(engine.graph, rank)
        invariant engine.Current() == LegacyNewNodes(s0, cs[..i])
      {
        ghost var before := engine.Current();
        AddNode(cs[i], false, rank);
        assert engine.Current() == LegacyNewNode(before, cs[i]);
        LegacyNewNodesStep(s0, cs, i);
        i := i + 1;
      }
      assert cs[..i] == cs;
      if shouldUpdate {
        engine.Update();
      }
    }
  }
}
