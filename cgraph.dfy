/** `ComputeGraph` of src/cgraph.ts: the engine with the mutators that mark
    what they change. Every other public member (init, getValues, setValues,
    getValue, setValue, getDescendants, getAncestors) is the engine's own.
    Every walk needs a ranking in which edges descend, so the mutators that
    walk ask for one that fits the edges they add. Because each mutator marks
    what it changes, each keeps every clean vertex resolved. */
module CGraph {
  import opened Wrappers
  import opened Store
  import opened Mutations
  import opened Scheduler
  import Engine
  import Consistency

  class ComputeGraph {
    const engine: Engine.Engine

    ghost predicate Valid()
      reads this, engine
    {
      engine.Valid()
    }

    constructor ()
      ensures Valid() && fresh(engine) && !engine.initialized
      ensures engine.graph == Graph([], map[], map[], map[]) && engine.values == map[]
    {
      engine := new Engine.Engine();
    }

    /** addEdge(source, target, shouldUpdate): the edge, then
        setDescendantsDirty(source), then update() if asked for and
        initialized. A refused edge throws before any of it. */
    method AddEdge(source: string, target: string, shouldUpdate: bool, ghost rank: map<string, nat>)
      requires Valid() && Acyclic(engine.graph, rank)
      requires CanLink(engine.graph, source, target) ==> Descends(source, target, rank)
      modifies engine
      ensures Valid() && engine.initialized == old(engine.initialized) && Acyclic(engine.graph, rank)
      ensures engine.Current() ==
        if CanLink(old(engine.graph), source, target)
        then Refresh(MarkedLink(old(engine.Current()), source, target), shouldUpdate && old(engine.initialized))
        else old(engine.Current())
      ensures Consistent(old(engine.graph)) ==> Consistent(engine.graph)
    {
      ghost var s0 := engine.Current();
      var ok := engine.AddDirectedEdge(source, target);
      if !ok {
        return;
      }
      LinkAcyclic(old(engine.graph), source, target, rank);
      var _ := engine.SetDescendantsDirty(source, rank);
      if shouldUpdate && engine.initialized {
        engine.Update();
      }
      if Consistent(s0.graph) {
        Consistency.RefreshedLinkKeepsConsistent(s0, source, target, shouldUpdate && old(engine.initialized));
      }
    }

    /** addEdges(edges, shouldUpdate): addEdge on each edge without
        updating, then update() if asked for and initialized. */
    method AddEdges(edges: seq<Edge>, shouldUpdate: bool, ghost rank: map<string, nat>)
      requires Valid() && Acyclic(engine.graph, rank) && EdgesDescend(edges, rank)
      modifies engine
      ensures Valid() && engine.initialized == old(engine.initialized) && Acyclic(engine.graph, rank)
      ensures engine.Current() == Refresh(MarkedLinks(old(engine.Current()), edges), shouldUpdate && old(engine.initialized))
      ensures Consistent(old(engine.graph)) ==> Consistent(engine.graph)
    {
      ghost var s0 := engine.Current();
      var i := 0;
      while i < |edges|
        invariant 0 <= i <= |edges|
        invariant Valid() && engine.initialized == old(engine.initialized) && Acyclic(engine.graph, rank)
        invariant engine.Current() == MarkedLinks(s0, edges[..i])
      {
        assert edges[..i + 1][..i] == edges[..i];
        AddEdge(edges[i].0, edges[i].1, false, rank);
        i := i + 1;
      }
      assert edges[..i] == edges;
      if shouldUpdate && engine.initialized {
        engine.Update();
      }
      if Consistent(s0.graph) {
        Consistency.RefreshedLinksKeepConsistent(s0, edges, shouldUpdate && old(engine.initialized));
      }
    }

    /** addNode(c, shouldUpdate): a taken id throws and changes nothing;
        otherwise the vertex, dirty, its value if one is given, addEdges
        over its edges without updating, setDescendantsDirty(id), and
        update() if asked for and initialized. */
    method AddNode(c: NodeConfig, shouldUpdate: bool, ghost rank: map<string, nat>)
      requires Valid() && Acyclic(engine.graph, rank) && NodeDescends(c, rank)
      modifies engine
      ensures Valid() && engine.initialized == old(engine.initialized) && Acyclic(engine.graph, rank)
      ensures engine.Current() ==
        if c.id in old(engine.graph.attrs) then old(engine.Current())
        else Refresh(NewNode(old(engine.Current()), c), shouldUpdate && old(engine.initialized))
      ensures Consistent(old(engine.graph)) ==> Consistent(engine.graph)
    {
      ghost var s0 := engine.Current();
      var ok := engine.AddGraphNode(c.id, c.kind, c.operation);
      if !ok {
        return;
      }
      AddVertexAcyclic(s0.graph, c.id, c.kind, c.operation, rank);
      if c.value.Some? {
        engine.SetNodeValue(c.id, c.value);
      }
      assert engine.Current() == Created(s0, c);
      var edges := NodeEdges(c);
      if |edges| > 0 {
        AddEdges(edges, false, rank);
      }
      assert engine.Current() == MarkedLinks(Created(s0, c), edges);
      var _ := engine.SetDescendantsDirty(c.id, rank);
      if shouldUpdate && engine.initialized {
        engine.Update();
      }
      if Consistent(s0.graph) {
        Consistency.RefreshedNodeKeepsConsistent(s0, c, shouldUpdate && old(engine.initialized));
      }
    }

    /** addNodes(cs, shouldUpdate): addNode on each configuration without
        updating, then update() if asked for and initialized. */
    method AddNodes(cs: seq<NodeConfig>, shouldUpdate: bool, ghost rank: map<string, nat>)
      requires Valid() && Acyclic(engine.graph, rank)
      requires forall i :: 0 <= i < |cs| ==> NodeDescends(cs[i], rank)
      modifies engine
      ensures Valid() && engine.initialized == old(engine.initialized) && Acyclic(engine.graph, rank)
      ensures engine.Current() == Refresh(NewNodes(old(engine.Current()), cs), shouldUpdate && old(engine.initialized))
      ensures Consistent(old(engine.graph)) ==> Consistent(engine.graph)
    {
      ghost var s0 := engine.Current();
      AddEach(cs, rank);
      if shouldUpdate && engine.initialized {
        engine.Update();
      }
      if Consistent(s0.graph) {
        Consistency.RefreshedNodesKeepConsistent(s0, cs, shouldUpdate && old(engine.initialized));
      }
    }

    /** The loop of `addNodes`: each configuration is added in turn, without an update. */
    method AddEach(cs: seq<NodeConfig>, ghost rank: map<string, nat>)
      requires Valid() && Acyclic(engine.graph, rank)
      requires forall i :: 0 <= i < |cs| ==> NodeDescends(cs[i], rank)
      modifies engine
      ensures Valid() && engine.initialized == old(engine.initialized) && Acyclic(engine.graph, rank)
      ensures engine.Current() == NewNodes(old(engine.Current()), cs)
    {
      ghost var s0 := engine.Current();
      var i := 0;
      while i < |cs|
        invariant 0 <= i <= |cs|
        invariant Valid() && engine.initialized == old(engine.initialized) && Acyclic(engine.graph, rank)
        invariant engine.Current() == NewNodes(s0, cs[..i])
      {
        assert cs[..i + 1][..i] == cs[..i];
        ghost var before := engine.Current();
        AddNode(cs[i], false, rank);
        assert engine.Current() == NewNode(before, cs[i]);
        NewNodesStep(s0, cs, i);
        i := i + 1;
      }
      assert cs[..i] == cs;
    }
  }
}
