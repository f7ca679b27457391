/** The neighbour walk behind `recurseNeighbors`, stated over an adjacency
    map (vertex -> its neighbours in store order, in one direction). */
module Traversal {

  type Adjacency = map<string, seq<string>>

  /** The neighbours of v; an unknown vertex has none. */
  function Nbrs(adj: Adjacency, v: string): seq<string> {
    if v in adj then adj[v] else []
  }

  /** The neighbour lists of q[0], q[1], ... appended in that order. */
  function Appended(adj: Adjacency, q: seq<string>): seq<string>
    decreases |q|
  {
    if q == [] then [] else Appended(adj, q[..|q| - 1]) + Nbrs(adj, q[|q| - 1])
  }

  lemma AppendedSnoc(adj: Adjacency, q: seq<string>, v: string)
    ensures Appended(adj, q + [v]) == Appended(adj, q) + Nbrs(adj, v)
  {
    assert (q + [v])[..|q|] == q;
  }

  /** Every neighbour of an entry of q is among the appended entries. */
  lemma {:induction false} AppendedCovers(adj: Adjacency, q: seq<string>, j: nat, w: string)
    requires j < |q| && w in Nbrs(adj, q[j])
    ensures w in Appended(adj, q)
    decreases |q|
  {
    if j < |q| - 1 {
      AppendedCovers(adj, q[..|q| - 1], j, w);
    }
  }

  // ---------------------------------------------------------------------------
  // Reachability along the adjacency.

  ghost predicate IsPath(adj: Adjacency, p: seq<string>) {
    |p| >= 1 && forall i :: 0 <= i < |p| - 1 ==> p[i + 1] in Nbrs(adj, p[i])
  }

  ghost predicate Reachable(adj: Adjacency, a: string, b: string) {
    exists p :: IsPath(adj, p) && p[0] == a && p[|p| - 1] == b
  }

  lemma ReachableRefl(adj: Adjacency, a: string)
    ensures Reachable(adj, a, a)
  {
    assert IsPath(adj, [a]);
  }

  lemma ReachableStep(adj: Adjacency, a: string, v: string, w: string)
    requires Reachable(adj, a, v) && w in Nbrs(adj, v)
    ensures Reachable(adj, a, w)
  {
    var p :| IsPath(adj, p) && p[0] == a && p[|p| - 1] == v;
    var p' := p + [w];
    assert IsPath(adj, p');
  }

  /** A sequence that holds a and every neighbour of each of its entries holds
      every vertex reachable from a. */
  lemma ClosedHoldsReachable(adj: Adjacency, q: seq<string>, a: string, b: string)
    requires a in q
    requires forall i, w :: 0 <= i < |q| && w in Nbrs(adj, q[i]) ==> w in q
    requires Reachable(adj, a, b)
    ensures b in q
  {
    var p :| IsPath(adj, p) && p[0] == a && p[|p| - 1] == b;
    var k := 0;
    while k < |p| - 1
      invariant 0 <= k <= |p| - 1
      invariant p[k] in q
    {
      var i :| 0 <= i < |q| && q[i] == p[k];
      assert p[k + 1] in Nbrs(adj, q[i]);
      k := k + 1;
    }
  }

  // ---------------------------------------------------------------------------
  // The walk `recurseNeighbors` produces: start, then the neighbour lists of
  // the entries in order, without removing repeats.

  ghost predicate IsWalk(adj: Adjacency, start: string, q: seq<string>) {
    && q == [start] + Appended(adj, q)
    && forall i :: 0 <= i < |q| ==> Reachable(adj, start, q[i])
  }

  /** The entries of a walk are exactly the vertices reachable from its start. */
  lemma WalkHoldsReachable(adj: Adjacency, start: string, q: seq<string>)
    requires IsWalk(adj, start, q)
    ensures forall v :: v in q <==> Reachable(adj, start, v)
  {
    forall i, w | 0 <= i < |q| && w in Nbrs(adj, q[i])
      ensures w in q
    {
      AppendedCovers(adj, q, i, w);
    }
    forall v | Reachable(adj, start, v)
      ensures v in q
    {
      ClosedHoldsReachable(adj, q, start, v);
    }
  }

  // ---------------------------------------------------------------------------
  // Termination. The walk ends exactly when the part of the graph reachable
  // from its start has no cycle; a ranking that falls along every edge of a
  // closed set of vertices witnesses this.

  ghost predicate Ranked(adj: Adjacency, rank: map<string, nat>) {
    forall v, w :: v in rank && w in Nbrs(adj, v) ==> w in rank && rank[w] < rank[v]
  }

  /** One more than the highest rank in ws; 0 for no vertices. */
  ghost function Height(rank: map<string, nat>, ws: seq<string>): (h: nat)
    requires forall i :: 0 <= i < |ws| ==> ws[i] in rank
    ensures ws != [] ==> rank[ws[0]] < h && Height(rank, ws[1..]) <= h
    decreases |ws|
  {
    if ws == [] then 0
    else
      var rest := Height(rank, ws[1..]);
      if rank[ws[0]] + 1 < rest then rest else rank[ws[0]] + 1
  }

  lemma {:induction false} HeightBelow(rank: map<string, nat>, ws: seq<string>, b: nat)
    requires forall i :: 0 <= i < |ws| ==> ws[i] in rank && rank[ws[i]] < b
    ensures Height(rank, ws) <= b
    decreases |ws|
  {
    if ws != [] {
      HeightBelow(rank, ws[1..], b);
    }
  }

  /** The number of paths that start at v. */
  ghost function PathCount(adj: Adjacency, rank: map<string, nat>, v: string): nat
    requires Ranked(adj, rank) && v in rank
    decreases rank[v], 1, 0
  {
    var ws := Nbrs(adj, v);
    HeightBelow(rank, ws, rank[v]);
    1 + SumPaths(adj, rank, ws)
  }

  /** The number of paths that start at some entry of ws, counted per entry. */
  ghost function SumPaths(adj: Adjacency, rank: map<string, nat>, ws: seq<string>): nat
    requires Ranked(adj, rank) && forall i :: 0 <= i < |ws| ==> ws[i] in rank
    decreases Height(rank, ws), 0, |ws|
  {
    if ws == [] then 0 else PathCount(adj, rank, ws[0]) + SumPaths(adj, rank, ws[1..])
  }

  lemma {:induction false} SumPathsAppend(adj: Adjacency, rank: map<string, nat>, a: seq<string>, b: seq<string>)
    requires Ranked(adj, rank)
    requires forall i :: 0 <= i < |a| ==> a[i] in rank
    requires forall i :: 0 <= i < |b| ==> b[i] in rank
    ensures SumPaths(adj, rank, a + b) == SumPaths(adj, rank, a) + SumPaths(adj, rank, b)
    decreases |a|
  {
    if a != [] {
      assert (a + b)[1..] == a[1..] + b;
      SumPathsAppend(adj, rank, a[1..], b);
    } else {
      assert a + b == b;
    }
  }

  /** Visiting the entry at p uses up exactly one path. */
  lemma SumPathsStep(adj: Adjacency, rank: map<string, nat>, q: seq<string>, p: nat)
    requires Ranked(adj, rank) && p < |q|
    requires forall i :: 0 <= i < |q| ==> q[i] in rank
    ensures forall i :: 0 <= i < |Nbrs(adj, q[p])| ==> Nbrs(adj, q[p])[i] in rank
    ensures SumPaths(adj, rank, q[p..]) == 1 + SumPaths(adj, rank, (q + Nbrs(adj, q[p]))[p + 1..])
  {
    var v := q[p];
    var ns := Nbrs(adj, v);
    var tail := q[p + 1..];
    SumPathsAt(adj, rank, q, p);
    assert (q + ns)[p + 1..] == tail + ns;
    SumPathsAppend(adj, rank, tail, ns);
  }

  lemma SumPathsAt(adj: Adjacency, rank: map<string, nat>, q: seq<string>, p: nat)
    requires Ranked(adj, rank) && p < |q|
    requires forall i :: 0 <= i < |q| ==> q[i] in rank
    ensures forall i :: 0 <= i < |Nbrs(adj, q[p])| ==> Nbrs(adj, q[p])[i] in rank
    ensures SumPaths(adj, rank, q[p..]) == 1 + SumPaths(adj, rank, Nbrs(adj, q[p])) + SumPaths(adj, rank, q[p + 1..])
  {
    var v := q[p];
    var ns := Nbrs(adj, v);
    assert forall i :: 0 <= i < |ns| ==> ns[i] in Nbrs(adj, v);
    assert q[p..][0] == v && q[p..][1..] == q[p + 1..];
  }

  /** One step of the walk: visiting q[p] appends its neighbours and keeps
      every entry ranked and reachable. */
  lemma WalkStep(adj: Adjacency, rank: map<string, nat>, start: string, q: seq<string>, p: nat)
    requires Ranked(adj, rank)
    requires p < |q| && q == [start] + Appended(adj, q[..p])
    requires forall i :: 0 <= i < |q| ==> q[i] in rank && Reachable(adj, start, q[i])
    ensures (q + Nbrs(adj, q[p]))[..p + 1] == q[..p] + [q[p]]
    ensures q + Nbrs(adj, q[p]) == [start] + Appended(adj, (q + Nbrs(adj, q[p]))[..p + 1])
    ensures forall i :: 0 <= i < |q + Nbrs(adj, q[p])| ==>
      (q + Nbrs(adj, q[p]))[i] in rank && Reachable(adj, start, (q + Nbrs(adj, q[p]))[i])
  {
    WalkAppends(adj, start, q, p);
    WalkReaches(adj, rank, start, q, p);
  }

  lemma WalkAppends(adj: Adjacency, start: string, q: seq<string>, p: nat)
    requires p < |q| && q == [start] + Appended(adj, q[..p])
    ensures (q + Nbrs(adj, q[p]))[..p + 1] == q[..p] + [q[p]]
    ensures q + Nbrs(adj, q[p]) == [start] + Appended(adj, (q + Nbrs(adj, q[p]))[..p + 1])
  {
    var v := q[p];
    var q' := q + Nbrs(adj, v);
    assert q'[..p + 1] == q[..p] + [v];
    AppendedSnoc(adj, q[..p], v);
  }

  lemma WalkReaches(adj: Adjacency, rank: map<string, nat>, start: string, q: seq<string>, p: nat)
    requires Ranked(adj, rank) && p < |q|
    requires forall i :: 0 <= i < |q| ==> q[i] in rank && Reachable(adj, start, q[i])
    ensures forall i :: 0 <= i < |q + Nbrs(adj, q[p])| ==>
      (q + Nbrs(adj, q[p]))[i] in rank && Reachable(adj, start, (q + Nbrs(adj, q[p]))[i])
  {
    var v := q[p];
    var ns := Nbrs(adj, v);
    var q' := q + ns;
    forall i | 0 <= i < |q'|
      ensures q'[i] in rank && Reachable(adj, start, q'[i])
    {
      if i >= |q| {
        assert q'[i] == ns[i - |q|];
        assert q'[i] in Nbrs(adj, v);
        ReachableStep(adj, start, v, q'[i]);
      } else {
        assert q'[i] == q[i];
      }
    }
  }

  /** The state of the walk when it is about to visit q[p]: q is start
      followed by the neighbour lists of q[..p], every entry is ranked and
      reachable, and p plus the paths still to be followed is the number of
      paths from start. */
  ghost predicate Walking(adj: Adjacency, rank: map<string, nat>, start: string, q: seq<string>, p: nat) {
    && Ranked(adj, rank) && start in rank
    && p < |q| && q == [start] + Appended(adj, q[..p])
    && (forall i :: 0 <= i < |q| ==> q[i] in rank && Reachable(adj, start, q[i]))
    && p + SumPaths(adj, rank, q[p..]) == PathCount(adj, rank, start)
  }

  /** The walk begins with start alone at position 0. */
  lemma WalkingStart(adj: Adjacency, rank: map<string, nat>, start: string)
    requires Ranked(adj, rank) && start in rank
    ensures Walking(adj, rank, start, [start], 0)
  {
    ReachableRefl(adj, start);
    assert [start][..0] == [];
    assert [start][0..] == [start];
    assert SumPaths(adj, rank, [start]) == PathCount(adj, rank, start) + SumPaths(adj, rank, []);
  }

  /** Visiting q[p] either ends the walk, when q[p] was its last entry and
      has no neighbours, or moves on to p + 1 with fewer paths left. */
  lemma WalkingStep(adj: Adjacency, rank: map<string, nat>, start: string, q: seq<string>, p: nat)
    requires Walking(adj, rank, start, q, p)
    ensures (q + Nbrs(adj, q[p]))[..p + 1] == q[..p + 1]
    ensures p == |q + Nbrs(adj, q[p])| - 1 ==>
      IsWalk(adj, start, q) && |q| == PathCount(adj, rank, start) && q + Nbrs(adj, q[p]) == q && q[..p + 1] == q
    ensures p < |q + Nbrs(adj, q[p])| - 1 ==>
      && Walking(adj, rank, start, q + Nbrs(adj, q[p]), p + 1)
      && SumPaths(adj, rank, (q + Nbrs(adj, q[p]))[p + 1..]) < SumPaths(adj, rank, q[p..])
  {
    var q' := q + Nbrs(adj, q[p]);
    SumPathsStep(adj, rank, q, p);
    WalkStep(adj, rank, start, q, p);
    assert q'[..p + 1] == q[..p + 1];
    if p == |q'| - 1 {
      assert q' == q;
      assert q[..p + 1] == q;
      assert q[p + 1..] == [];
    }
  }

  /** Every neighbour of a vertex in keys is in keys. */
  ghost predicate Closed(adj: Adjacency, keys: set<string>) {
    forall v, i :: v in keys && 0 <= i < |Nbrs(adj, v)| ==> Nbrs(adj, v)[i] in keys
  }

  /** The walk state inside a closed set of vertices. */
  ghost predicate Visiting(adj: Adjacency, keys: set<string>, rank: map<string, nat>, start: string, q: seq<string>, p: nat) {
    && Closed(adj, keys)
    && Walking(adj, rank, start, q, p)
    && (forall i :: 0 <= i < |q| ==> q[i] in keys)
  }

  lemma VisitingStart(adj: Adjacency, keys: set<string>, rank: map<string, nat>, start: string)
    requires Closed(adj, keys) && Ranked(adj, rank) && start in rank && start in keys
    ensures Visiting(adj, keys, rank, start, [start], 0)
  {
    WalkingStart(adj, rank, start);
  }

  /** Appending the neighbours of an entry keeps the queue inside a closed set. */
  lemma KeysStep(adj: Adjacency, keys: set<string>, q: seq<string>, p: nat)
    requires Closed(adj, keys) && p < |q| && forall i :: 0 <= i < |q| ==> q[i] in keys
    ensures q[p] in keys
    ensures forall i :: 0 <= i < |q + Nbrs(adj, q[p])| ==> (q + Nbrs(adj, q[p]))[i] in keys
  {
    var ns := Nbrs(adj, q[p]);
    forall i | 0 <= i < |q + ns|
      ensures (q + ns)[i] in keys
    {
      if i >= |q| {
        assert (q + ns)[i] == ns[i - |q|];
      }
    }
  }

  /** One visit inside a closed set: the visited entry is in the set, and the
      walk either ends with a complete walk or goes on in the set. */
  lemma VisitingStep(adj: Adjacency, keys: set<string>, rank: map<string, nat>, start: string, q: seq<string>, p: nat)
    requires Visiting(adj, keys, rank, start, q, p)
    ensures q[p] in keys && (q + Nbrs(adj, q[p]))[..p + 1] == q[..p + 1]
    ensures p == |q + Nbrs(adj, q[p])| - 1 ==>
      IsWalk(adj, start, q + Nbrs(adj, q[p])) && |q + Nbrs(adj, q[p])| == PathCount(adj, rank, start)
      && q[..p + 1] == q + Nbrs(adj, q[p])
    ensures p < |q + Nbrs(adj, q[p])| - 1 ==>
      && Visiting(adj, keys, rank, start, q + Nbrs(adj, q[p]), p + 1)
      && SumPaths(adj, rank, (q + Nbrs(adj, q[p]))[p + 1..]) < SumPaths(adj, rank, q[p..])
  {
    WalkingStep(adj, rank, start, q, p);
    KeysStep(adj, keys, q, p);
  }
}
