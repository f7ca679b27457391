/** The mutable state of `ComputeGraph` and the machinery both copies of the
    class share: the store accessors, updateNode, update, recurseNeighbors,
    setDescendantsDirty, init and the value accessors. Every method is
    proved against the functions of Store, Traversal and Scheduler. */
module Engine {
  import opened Wrappers
  import opened Traversal
  import opened Store
  import opened Scheduler
  import opened Mutations

  /** What recurseNeighbors is asked to do with each visited vertex: the
      engine only ever passes `setNodeDirty`; other callbacks are ignored. */
  datatype Callback = Ignore | MarkDirty

  /** The vertices in s become dirty; every other attribute is kept. */
  ghost function DirtyOn(attrs: map<string, Vertex>, s: set<string>): (r: map<string, Vertex>)
    ensures r.Keys == attrs.Keys
  {
    map v | v in attrs :: if v in s then attrs[v].(dirty := true) else attrs[v]
  }

  /** Marking keeps the store valid: only dirty flags change. */
  lemma MarkedValid(s: Snapshot, callback: Callback, q: seq<string>)
    requires Valid(s)
    ensures Valid(Snapshot(s.graph.(attrs := Marked(callback, s.graph.attrs, q)), s.values))
  {
    var attrs := Marked(callback, s.graph.attrs, q);
    assert forall n :: n in attrs ==> attrs[n].value == s.graph.attrs[n].value;
  }

  /** The attributes after the callback has run on every entry of q. */
  ghost function Marked(callback: Callback, attrs: map<string, Vertex>, q: seq<string>): (r: map<string, Vertex>)
    ensures r.Keys == attrs.Keys
  {
    if callback == MarkDirty then DirtyOn(attrs, set v | v in q) else attrs
  }

  lemma MarkedEmpty(callback: Callback, attrs: map<string, Vertex>)
    ensures Marked(callback, attrs, []) == attrs
  {
    assert (set v: string | v in []) == {};
  }

  /** Running the callback on one more entry q[p]. */
  lemma MarkedStep(callback: Callback, attrs: map<string, Vertex>, q: seq<string>, p: nat)
    requires p < |q| && q[p] in attrs
    ensures Marked(callback, attrs, q[..p + 1]) ==
      if callback == MarkDirty then Marked(callback, attrs, q[..p])[q[p] := Marked(callback, attrs, q[..p])[q[p]].(dirty := true)]
      else Marked(callback, attrs, q[..p])
  {
    var before, after := q[..p], q[..p + 1];
    assert after == before + [q[p]];
    assert (set w | w in after) == (set w | w in before) + {q[p]};
  }

  /** The direction recurseNeighbors follows: `outNeighbors` or `inNeighbors`. */
  function Direction(g: Graph, descendants: bool): Adjacency {
    if descendants then g.outN else g.inN
  }

  /** Both directions stay inside the store. */
  lemma DirectionClosed(g: Graph, descendants: bool)
    requires WellFormed(g)
    ensures Closed(Direction(g, descendants), g.attrs.Keys)
  {
    forall v, i | v in g.attrs && 0 <= i < |Nbrs(Direction(g, descendants), v)|
      ensures Nbrs(Direction(g, descendants), v)[i] in g.attrs
    {
      NeighboursExist(g, v);
    }
  }

  /** Marking every entry of a walk from x is setDescendantsDirty(x): the
      entries are exactly the vertices reachable from x. */
  lemma MarkedIsMarkFrom(s: Snapshot, x: string, visits: seq<string>)
    requires IsWalk(s.graph.outN, x, visits)
    ensures s.(graph := s.graph.(attrs := Marked(MarkDirty, s.graph.attrs, visits))) == MarkFrom(s, x)
  {
    WalkHoldsReachable(s.graph.outN, x, visits);
    var a := Marked(MarkDirty, s.graph.attrs, visits);
    var b := MarkFrom(s, x).graph.attrs;
    assert a.Keys == b.Keys;
    forall v | v in a
      ensures a[v] == b[v]
    {
      assert v in visits <==> Reachable(s.graph.outN, x, v);
    }
  }

  /** An unknown vertex reaches no vertex of the store, so marking from it
      changes nothing. */
  lemma MarkFromUnknown(s: Snapshot, x: string)
    requires WellFormed(s.graph) && x !in s.graph.attrs
    ensures MarkFrom(s, x) == s
  {
    forall v | v in s.graph.attrs
      ensures !Reachable(s.graph.outN, x, v)
    {
      if Reachable(s.graph.outN, x, v) {
        var p :| IsPath(s.graph.outN, p) && p[0] == x && p[|p| - 1] == v;
        PathFromUnknown(s.graph.outN, p);
      }
    }
    assert MarkFrom(s, x).graph.attrs == s.graph.attrs;
  }

  /** A path that starts outside the adjacency goes nowhere. */
  lemma PathFromUnknown(adj: Adjacency, p: seq<string>)
    requires IsPath(adj, p) && p[0] !in adj
    ensures p == [p[0]]
  {
    assert |p| == 1 || p[1] in Nbrs(adj, p[0]);
  }

  /** Progress of setValues: `done` holds the keys of vals already
      handled, with their values, and `keys` the rest. */
  ghost predicate Pending(vals: map<string, real>, keys: set<string>, done: map<string, real>) {
    keys <= vals.Keys && done.Keys == vals.Keys - keys && forall k :: k in done ==> done[k] == vals[k]
  }

  lemma PendingStep(vals: map<string, real>, keys: set<string>, done: map<string, real>, k: string)
    requires Pending(vals, keys, done) && k in keys
    ensures Pending(vals, keys - {k}, done[k := vals[k]]) && done.Keys <= vals.Keys && k in vals
  {
  }

  lemma PendingDone(vals: map<string, real>, done: map<string, real>)
    requires Pending(vals, {}, done)
    ensures done == vals
  {
  }

  class Engine {
    var graph: Graph
    var values: map<string, Option<real>>
    var initialized: bool

    function Current(): Snapshot
      reads this
    {
      Snapshot(graph, values)
    }

    ghost predicate Valid()
      reads this
    {
      Store.Valid(Current())
    }

    constructor ()
      ensures Valid() && !initialized
      ensures graph == Graph([], map[], map[], map[]) && values == map[]
    {
      graph := Graph([], map[], map[], map[]);
      values := map[];
      initialized := false;
    }

    /** setNodeDirty(n, d). */
    method SetNodeDirty(n: string, d: bool)
      requires n in graph.attrs
      modifies this
      ensures initialized == old(initialized) && values == old(values)
      ensures graph == old(graph).(attrs := old(graph.attrs)[n := old(graph.attrs)[n].(dirty := d)])
      ensures Current() == SetDirty(old(Current()), n, d)
    {
      var next := SetDirty(Current(), n, d);
      graph := next.graph;
    }

    /** setNodeValue(n, v): `_values[n]` and the value attribute together. */
    method SetNodeValue(n: string, v: Option<real>)
      requires Valid() && n in graph.attrs
      modifies this
      ensures Valid() && initialized == old(initialized)
      ensures Current() == Write(old(Current()), n, v)
    {
      var next := Write(Current(), n, v);
      values := next.values;
      graph := next.graph;
    }

    /** updateNode(n): returns whether the vertex could be resolved; when it
        could not, nothing changed. */
    method UpdateNode(n: string) returns (ok: bool)
      requires Valid()
      modifies this
      ensures Valid() && initialized == old(initialized)
      ensures ok == Resolve(old(Current()), n).Some?
      ensures ok ==> Current() == Resolve(old(Current()), n).value
      ensures !ok ==> Current() == old(Current())
    {
      ghost var s0 := Current();
      if n !in graph.attrs {
        return false;
      }
      var kind := graph.attrs[n].kind;
      var ins := Inputs(graph, n);
      var inputDirty := AnyDirty(graph, ins);
      if kind == Compute {
        if inputDirty {
          return false;
        }
        var outcome := Evaluate(graph, graph.attrs[n].operation, ins);
        if outcome.Throws? {
          return false;
        }
        SetNodeValue(n, outcome.value);
        AssignSteps(s0, n, outcome.value);
      } else if |ins| > 0 {
        if inputDirty {
          return false;
        }
        SetNodeValue(n, graph.attrs[ins[0]].value);
        AssignSteps(s0, n, s0.graph.attrs[ins[0]].value);
      } else {
        AssignSteps(s0, n, None);
      }
      SetNodeDirty(n, false);
      ok := true;
    }

    /** update(): the retry queue, seeded with the dirty vertices. */
    method Update()
      requires Valid()
      modifies this
      ensures Valid() && initialized == old(initialized)
      ensures Current() == Scheduler.Update(old(Current())).snap
      ensures graph == old(graph).(attrs := graph.attrs) && graph.attrs.Keys == old(graph.attrs.Keys)
    {
      UpdateKeepsQueue(Current());
      var queue := DirtyNodes(graph);
      var iteration: nat := 0;
      ghost var target := Scheduler.Update(Current()).snap;
      var stop := false;
      while !stop
        invariant Valid() && initialized == old(initialized)
        invariant iteration <= 21
        invariant !stop ==> Drain(Current(), queue, iteration).snap == target
        invariant stop ==> Current() == target
        decreases 21 - iteration, if stop then 0 else 1
      {
        if queue != [] {
          ghost var before, q0 := Current(), queue;
          DrainUnfold(before, q0, iteration);
          var next := queue[0];
          queue := queue[1..];
          var ok := UpdateNode(next);
          if !ok {
            queue := queue + [next];
          }
          assert (Current(), queue) == Step(before, q0);
        }
        if |queue| == 0 || iteration > 20 {
          stop := true;
        } else {
          iteration := iteration + 1;
        }
      }
    }
  
    /** setDescendantsDirty(x): recurseNeighbors along out-edges with
        setNodeDirty as the callback. */
    method SetDescendantsDirty(x: string, ghost rank: map<string, nat>) returns (visits: Option<seq<string>>)
      requires Valid() && Acyclic(graph, rank)
      modifies this
      ensures Valid() && initialized == old(initialized)
      ensures Current() == MarkFrom(old(Current()), x)
      ensures graph == old(graph).(attrs := graph.attrs) && graph.attrs.Keys == old(graph.attrs.Keys)
      ensures visits.Some? <==> x in old(graph.attrs)
      ensures visits.Some? ==> forall v :: v in visits.value <==> Reachable(old(graph.outN), x, v)
    {
      visits := RecurseNeighbors(x, true, MarkDirty, rank);
      if visits.Some? {
        MarkedIsMarkFrom(old(Current()), x, visits.value);
        WalkHoldsReachable(old(graph.outN), x, visits.value);
      } else {
        MarkFromUnknown(old(Current()), x);
      }
    }

    /** getDescendants(x, callbackFn): the walk along out-edges. */
    method GetDescendants(x: string, callback: Callback, ghost rank: map<string, nat>) returns (visits: Option<seq<string>>)
      requires Valid() && Acyclic(graph, rank)
      modifies this
      ensures Valid() && initialized == old(initialized)
      ensures graph == old(graph).(attrs := graph.attrs) && values == old(values)
      ensures visits.Some? <==> x in old(graph.attrs)
      ensures visits.None? ==> graph == old(graph)
      ensures visits.Some? ==>
        && IsWalk(old(graph.outN), x, visits.value)
        && |visits.value| == PathCount(old(graph.outN), rank, x)
        && graph.attrs == Marked(callback, old(graph.attrs), visits.value)
    {
      visits := RecurseNeighbors(x, true, callback, rank);
    }

    /** getAncestors(x, callbackFn): the walk along in-edges; the ranking
        here rises along every edge. */
    method GetAncestors(x: string, callback: Callback, ghost rank: map<string, nat>) returns (visits: Option<seq<string>>)
      requires Valid() && graph.attrs.Keys <= rank.Keys && Ranked(graph.inN, rank)
      modifies this
      ensures Valid() && initialized == old(initialized)
      ensures graph == old(graph).(attrs := graph.attrs) && values == old(values)
      ensures visits.Some? <==> x in old(graph.attrs)
      ensures visits.None? ==> graph == old(graph)
      ensures visits.Some? ==>
        && IsWalk(old(graph.inN), x, visits.value)
        && |visits.value| == PathCount(old(graph.inN), rank, x)
        && graph.attrs == Marked(callback, old(graph.attrs), visits.value)
    {
      visits := RecurseNeighbors(x, false, callback, rank);
    }

    /** init(): one update, then the graph counts as initialized. */
    method Init() returns (r: bool)
      requires Valid()
      modifies this
      ensures Valid() && initialized && r
      ensures Current() == Scheduler.Update(old(Current())).snap
    {
      Update();
      initialized := true;
      r := true;
    }

    /** getValues(): a copy of `_values`, which agrees with the store. */
    function GetValues(): (r: map<string, Option<real>>)
      requires Valid()
      reads this
      ensures forall n :: n in r ==> n in graph.attrs && r[n] == graph.attrs[n].value
      ensures forall n :: n in graph.attrs && graph.attrs[n].value.Some? ==> n in r
      ensures r.Keys == values.Keys
    {
      values
    }

    /** getValue(key): `_values[key]`, undefined when absent. */
    function GetValue(key: string): (r: Option<real>)
      requires Valid()
      reads this
      ensures r == if key in graph.attrs then graph.attrs[key].value else None
    {
      if key in values then values[key] else None
    }

    /** setValues(vals): for each key, setNodeValue then setDescendantsDirty;
        then one update. */
    method SetValues(vals: map<string, real>, ghost rank: map<string, nat>)
      requires Valid() && Acyclic(graph, rank) && vals.Keys <= graph.attrs.Keys
      modifies this
      ensures Valid() && initialized == old(initialized)
      ensures Current() == Scheduler.Update(Assigned(old(Current()), vals)).snap
    {
      AssignKeys(vals, rank);
      Update();
    }

    /** The marking half of setValues, one key at a time in any order. */
    method AssignKeys(vals: map<string, real>, ghost rank: map<string, nat>)
      requires Valid() && Acyclic(graph, rank) && vals.Keys <= graph.attrs.Keys
      modifies this
      ensures Valid() && initialized == old(initialized)
      ensures Current() == Assigned(old(Current()), vals)
    {
      ghost var s0 := Current();
      var keys := vals.Keys;
      ghost var done: map<string, real> := map[];
      AssignedNothing(s0);
      while keys != {}
        invariant Pending(vals, keys, done)
        invariant initialized == old(initialized)
        invariant Current() == Assigned(s0, done)
        decreases keys
      {
        var k :| k in keys;
        AssignKey(k, vals[k], s0, done, rank);
        PendingStep(vals, keys, done, k);
        done := done[k := vals[k]];
        keys := keys - {k};
      }
      PendingDone(vals, done);
    }

    /** One key of setValues: setNodeValue(k, x), then setDescendantsDirty(k). */
    method AssignKey(k: string, x: real, ghost s0: Snapshot, ghost done: map<string, real>, ghost rank: map<string, nat>)
      requires Store.Valid(s0) && Acyclic(s0.graph, rank) && done.Keys <= s0.graph.attrs.Keys && k in s0.graph.attrs
      requires Current() == Assigned(s0, done)
      modifies this
      ensures initialized == old(initialized)
      ensures Current() == Assigned(s0, done[k := x])
    {
      SetNodeValue(k, Some(x));
      var _ := SetDescendantsDirty(k, rank);
      AssignedStep(s0, done, k, x);
    }

    /** setValue(key, x): setValues with the one key. */
    method SetValue(key: string, x: real, ghost rank: map<string, nat>)
      requires Valid() && Acyclic(graph, rank) && key in graph.attrs
      modifies this
      ensures Valid() && initialized == old(initialized)
      ensures Current() == Scheduler.Update(Assigned(old(Current()), map[key := x])).snap
    {
      SetValues(map[key := x], rank);
    }

    /** The graphology addNode(id, attributes) call: refused, with nothing
        changed, when the id is taken. */
    method AddGraphNode(id: string, kind: VertexType, operation: Option<string>) returns (ok: bool)
      requires Valid()
      modifies this
      ensures Valid() && initialized == old(initialized) && values == old(values)
      ensures ok <==> id !in old(graph.attrs)
      ensures graph == AddVertex(old(graph), id, kind, operation)
    {
      ok := id !in graph.attrs;
      AddVertexValid(Current(), id, kind, operation);
      graph := AddVertex(graph, id, kind, operation);
    }

    /** The graphology addDirectedEdge(a, b) call: refused, with nothing
        changed, when an end is missing or the edge exists. */
    method AddDirectedEdge(a: string, b: string) returns (ok: bool)
      requires Valid()
      modifies this
      ensures Valid() && initialized == old(initialized) && values == old(values)
      ensures ok == CanLink(old(graph), a, b)
      ensures graph == Link(old(graph), a, b)
    {
      ok := CanLink(graph, a, b);
      LinkValid(Current(), a, b);
      graph := Link(graph, a, b);
    }

    /** recurseNeighbors(start, descendants, callbackFn): start, then the
        neighbour lists of the entries in turn, appended without removing
        repeats, calling back on every entry in that order. An unknown start
        makes the first call throw; the error is swallowed and nothing is
        returned. The walk ends only when no cycle is reachable from start,
        which the ranking witnesses. */
    method RecurseNeighbors(start: string, descendants: bool, callback: Callback, ghost rank: map<string, nat>)
      returns (visits: Option<seq<string>>)
      requires Valid()
      requires Ranked(Direction(graph, descendants), rank) && (start in graph.attrs ==> start in rank)
      modifies this
      ensures Valid() && initialized == old(initialized)
      ensures graph == old(graph).(attrs := graph.attrs) && values == old(values)
      ensures visits.None? <==> start !in old(graph.attrs)
      ensures visits.None? ==> graph == old(graph)
      ensures visits.Some? ==>
        && IsWalk(Direction(old(graph), descendants), start, visits.value)
        && |visits.value| == PathCount(Direction(old(graph), descendants), rank, start)
        && graph.attrs == Marked(callback, old(graph.attrs), visits.value)
    {
      if start !in graph.attrs {
        return None;
      }
      DirectionClosed(graph, descendants);
      VisitingStart(Direction(graph, descendants), graph.attrs.Keys, rank, start);
      MarkedEmpty(callback, graph.attrs);
      assert [start][..0] == [];
      var queue := Recurse(start, descendants, callback, [start], 0, rank, start, graph);
      visits := Some(queue);
      MarkedValid(old(Current()), callback, queue);
    }

    /** One call of recurseNeighbors(node, descendants, callbackFn, queue, pos),
        with node == queue[pos]: call back on node, append its neighbours,
        and stop when pos is the last position, otherwise go on with the next
        entry. `g0` is the graph before the walk began. */
    method Recurse(node: string, descendants: bool, callback: Callback, queue: seq<string>, pos: nat,
                   ghost rank: map<string, nat>, ghost start: string, ghost g0: Graph)
      returns (visits: seq<string>)
      requires Visiting(Direction(g0, descendants), g0.attrs.Keys, rank, start, queue, pos) && queue[pos] == node
      requires graph == g0.(attrs := Marked(callback, g0.attrs, queue[..pos]))
      modifies this
      ensures initialized == old(initialized) && values == old(values)
      ensures graph == g0.(attrs := Marked(callback, g0.attrs, visits))
      ensures IsWalk(Direction(g0, descendants), start, visits)
      ensures |visits| == PathCount(Direction(g0, descendants), rank, start)
      decreases SumPaths(Direction(g0, descendants), rank, queue[pos..])
    {
      VisitingStep(Direction(g0, descendants), g0.attrs.Keys, rank, start, queue, pos);
      MarkedStep(callback, g0.attrs, queue, pos);
      if callback == MarkDirty {
        SetNodeDirty(node, true);
      }
      var next := queue + Nbrs(Direction(graph, descendants), node);
      if pos == |next| - 1 {
        visits := next;
      } else {
        visits := Recurse(next[pos + 1], descendants, callback, next, pos + 1, rank, start, g0);
      }
    }
  }
}
