/**
 * Walks through the adjacency lists of a navigation graph that avoid occupied
 * vertices, and the facts about breadth-first search that the path search in
 * module NavGraphs relies on.
 */
module Walks {
  import opened Wrappers

  /** Every neighbour listed in the adjacency lists is itself a vertex index. */
  ghost predicate WellFormed(adj: seq<seq<int>>) {
    forall u, j :: 0 <= u < |adj| && 0 <= j < |adj[u]| ==> 0 <= adj[u][j] < |adj|
  }

  /** One move: from `u` to a neighbour `v` listed for `u`, where `v` is not occupied. */
  ghost predicate Step(adj: seq<seq<int>>, occupied: set<int>, u: int, v: int) {
    0 <= u < |adj| && v in adj[u] && v !in occupied
  }

  /** A walk from `start` to `end`: every move is a Step, so no vertex after the first is occupied. */
  ghost predicate IsWalk(adj: seq<seq<int>>, occupied: set<int>, w: seq<int>, start: int, end: int) {
    && |w| > 0 && w[0] == start && w[|w| - 1] == end
    && forall i :: 0 <= i < |w| - 1 ==> Step(adj, occupied, w[i], w[i + 1])
  }

  ghost predicate Distinct(w: seq<int>) {
    forall i, j :: 0 <= i < j < |w| ==> w[i] != w[j]
  }

  /** A walk without repeated vertices that is no longer than any other walk between the same ends. */
  ghost predicate IsShortestPath(adj: seq<seq<int>>, occupied: set<int>, p: seq<int>, start: int, end: int) {
    && IsWalk(adj, occupied, p, start, end)
    && Distinct(p)
    && forall w :: IsWalk(adj, occupied, w, start, end) ==> |p| <= |w|
  }

  ghost predicate Unreachable(adj: seq<seq<int>>, occupied: set<int>, start: int, end: int) {
    forall w :: !IsWalk(adj, occupied, w, start, end)
  }

  /** What a path search may answer: a shortest path, or None exactly when there is no walk at all. */
  ghost predicate SearchResult(adj: seq<seq<int>>, occupied: set<int>, start: int, end: int, r: Option<seq<int>>) {
    match r
    case Some(p) => IsShortestPath(adj, occupied, p, start, end)
    case None => Unreachable(adj, occupied, start, end)
  }

  /** The parent links of a breadth-first search, with the ghost distance of each visited vertex. */
  ghost predicate ParentTree(adj: seq<seq<int>>, occupied: set<int>, start: int,
                             parents: map<int, Option<int>>, dist: map<int, nat>)
  {
    && parents.Keys == dist.Keys
    && start in parents && parents[start] == None && dist[start] == 0
    && forall v :: v in parents && v != start ==>
         && parents[v].Some? && parents[v].value in parents
         && Step(adj, occupied, parents[v].value, v)
         && dist[v] == dist[parents[v].value] + 1
  }

  /** Every vertex in `done` has had all its Step-neighbours discovered, at most one level further. */
  ghost predicate Closed(adj: seq<seq<int>>, occupied: set<int>, dist: map<int, nat>, done: set<int>) {
    && done <= dist.Keys
    && forall u, x :: u in done && Step(adj, occupied, u, x) ==> x in dist && dist[x] <= dist[u] + 1
  }

  /**
   * Along any walk from a vertex at distance 0, there is a first point where the walk either leaves
   * the closed region or ends, and the walk reaches that point no faster than the recorded distance.
   */
  lemma {:induction false} Crossing(adj: seq<seq<int>>, occupied: set<int>, dist: map<int, nat>, done: set<int>, w: seq<int>)
    returns (i: nat)
    requires |w| > 0 && w[0] in dist && dist[w[0]] == 0
    requires Closed(adj, occupied, dist, done)
    requires forall k :: 0 <= k < |w| - 1 ==> Step(adj, occupied, w[k], w[k + 1])
    ensures i < |w| && w[i] in dist && dist[w[i]] <= i
    ensures w[i] !in done || i == |w| - 1
  {
    if |w| == 1 {
      i := 0;
    } else {
      var prefix := w[..|w| - 1];
      var j := Crossing(adj, occupied, dist, done, prefix);
      if prefix[j] !in done {
        i := j;
      } else {
        assert Step(adj, occupied, w[|w| - 2], w[|w| - 1]);
        i := |w| - 1;
      }
    }
  }

  /** Once the queue is empty, every vertex reachable by a walk has been visited. */
  lemma ExhaustedSearch(adj: seq<seq<int>>, occupied: set<int>, dist: map<int, nat>, done: set<int>, start: int, end: int)
    requires start in dist && dist[start] == 0
    requires Closed(adj, occupied, dist, done)
    requires dist.Keys <= done
    ensures forall w :: IsWalk(adj, occupied, w, start, end) ==> end in dist
  {
    forall w | IsWalk(adj, occupied, w, start, end)
      ensures end in dist
    {
      var i := Crossing(adj, occupied, dist, done, w);
    }
  }

  /**
   * When `end` is still undiscovered and the frontier (queue) is sorted by distance from `head`,
   * every walk to `end` has at least dist[head] + 1 moves.
   */
  lemma LowerBound(adj: seq<seq<int>>, occupied: set<int>, dist: map<int, nat>, done: set<int>,
                   frontier: seq<int>, start: int, end: int)
    requires start in dist && dist[start] == 0
    requires Closed(adj, occupied, dist, done)
    requires forall v :: v in dist ==> v in done || v in frontier
    requires |frontier| > 0
    requires forall k :: 0 <= k < |frontier| ==> frontier[k] in dist
    requires forall k :: 0 <= k < |frontier| ==> dist[frontier[0]] <= dist[frontier[k]]
    requires end !in dist
    ensures forall w :: IsWalk(adj, occupied, w, start, end) ==> |w| >= dist[frontier[0]] + 2
  {
    forall w | IsWalk(adj, occupied, w, start, end)
      ensures |w| >= dist[frontier[0]] + 2
    {
      var i := Crossing(adj, occupied, dist, done, w);
      assert i < |w| - 1;
      var v := w[i];
      assert v in dist && v !in done;
      assert v in frontier;
    }
  }


  /** The frontier's vertices are visited, sorted by distance, and span at most two levels. */
  ghost predicate FrontierSorted(dist: map<int, nat>, frontier: seq<int>) {
    && (forall k :: 0 <= k < |frontier| ==> frontier[k] in dist)
    && (forall k, l :: 0 <= k <= l < |frontier| ==> dist[frontier[k]] <= dist[frontier[l]])
    && (forall k :: 0 <= k < |frontier| ==> dist[frontier[k]] <= dist[frontier[0]] + 1)
  }

  /** Every visited vertex is expanded or waiting in the frontier; expanded ones are no deeper than its head. */
  ghost predicate Covered(dist: map<int, nat>, done: set<int>, frontier: seq<int>) {
    && (forall v :: v in dist ==> v in done || v in frontier)
    && (forall u :: u in done && u in dist && frontier != [] && frontier[0] in dist ==> dist[u] <= dist[frontier[0]])
  }

  /**
   * The loop invariant of the breadth-first search: parent links and distances for the visited
   * vertices, a closed set `done` of expanded vertices, and a FIFO frontier sorted by distance.
   */
  ghost predicate SearchInv(adj: seq<seq<int>>, occupied: set<int>, start: int, parents: map<int, Option<int>>,
                            dist: map<int, nat>, done: set<int>, frontier: seq<int>)
  {
    && ParentTree(adj, occupied, start, parents, dist)
    && (forall v :: v in parents ==> 0 <= v < |adj|)
    && Closed(adj, occupied, dist, done)
    && FrontierSorted(dist, frontier)
    && Covered(dist, done, frontier)
  }

  /** The search starts with only `start` visited and queued. */
  lemma SearchInit(adj: seq<seq<int>>, occupied: set<int>, start: int)
    requires 0 <= start < |adj|
    ensures SearchInv(adj, occupied, start, map[start := None], map[start := 0], {}, [start])
  {
  }

  /** Every visited vertex is at most one level beyond the vertex being expanded. */
  lemma VisitedNear(adj: seq<seq<int>>, occupied: set<int>, start: int, parents: map<int, Option<int>>,
                    dist: map<int, nat>, done: set<int>, current: int, queue: seq<int>, x: int)
    requires SearchInv(adj, occupied, start, parents, dist, done, [current] + queue)
    requires x in dist
    ensures dist[x] <= dist[current] + 1
  {
    var frontier := [current] + queue;
    if x !in done {
      var k :| 0 <= k < |frontier| && frontier[k] == x;
    }
  }

  /** Appending a vertex one level beyond the head keeps the frontier sorted. */
  lemma SortedAppend(dist: map<int, nat>, frontier: seq<int>, x: int)
    requires FrontierSorted(dist, frontier) && frontier != []
    requires x in dist && dist[x] == dist[frontier[0]] + 1
    ensures FrontierSorted(dist, frontier + [x])
  {
    var f := frontier + [x];
    forall k, l | 0 <= k <= l < |f|
      ensures dist[f[k]] <= dist[f[l]]
    {
      if l == |f| - 1 && k < l {
        assert f[k] == frontier[k];
      }
    }
  }

  /** Discovering an unvisited Step-neighbour of the vertex being expanded keeps the invariant. */
  lemma Discover(adj: seq<seq<int>>, occupied: set<int>, start: int, parents: map<int, Option<int>>,
                 dist: map<int, nat>, done: set<int>, current: int, queue: seq<int>, x: int)
    requires SearchInv(adj, occupied, start, parents, dist, done, [current] + queue)
    requires Step(adj, occupied, current, x) && x !in parents
    requires WellFormed(adj)
    ensures SearchInv(adj, occupied, start, parents[x := Some(current)], dist[x := dist[current] + 1], done,
                      [current] + (queue + [x]))
  {
    var frontier := [current] + queue;
    var dist' := dist[x := dist[current] + 1];
    assert [current] + (queue + [x]) == frontier + [x];
    var k :| 0 <= k < |adj[current]| && adj[current][k] == x;
    assert FrontierSorted(dist', frontier) by {
      forall k | 0 <= k < |frontier| ensures frontier[k] != x && dist'[frontier[k]] == dist[frontier[k]] {}
    }
    SortedAppend(dist', frontier, x);
  }

  /** Removing the head keeps the rest of the frontier sorted. */
  lemma SortedTail(dist: map<int, nat>, current: int, queue: seq<int>)
    requires FrontierSorted(dist, [current] + queue)
    ensures FrontierSorted(dist, queue) && current in dist
    ensures forall k :: 0 <= k < |queue| ==> dist[current] <= dist[queue[k]] <= dist[current] + 1
  {
    var frontier := [current] + queue;
    assert frontier[0] == current;
    forall k | 0 <= k < |queue|
      ensures queue[k] in dist && dist[current] <= dist[queue[k]] <= dist[current] + 1
    {
      assert frontier[k + 1] == queue[k];
    }
    forall k, l | 0 <= k <= l < |queue|
      ensures dist[queue[k]] <= dist[queue[l]]
    {
      assert frontier[k + 1] == queue[k] && frontier[l + 1] == queue[l];
    }
  }

  /** The first j neighbours in `nbrs` that are not occupied are visited, within `bound`. */
  ghost predicate KnownUpTo(nbrs: seq<int>, j: int, occupied: set<int>, dist: map<int, nat>, bound: int) {
    forall k :: 0 <= k < j && k < |nbrs| && nbrs[k] !in occupied ==> nbrs[k] in dist && dist[nbrs[k]] <= bound
  }

  lemma KnownExtend(nbrs: seq<int>, j: int, occupied: set<int>, dist: map<int, nat>, dist': map<int, nat>, bound: int)
    requires 0 <= j < |nbrs|
    requires KnownUpTo(nbrs, j, occupied, dist, bound)
    requires forall v :: v in dist ==> v in dist' && dist'[v] == dist[v]
    requires nbrs[j] !in occupied ==> nbrs[j] in dist' && dist'[nbrs[j]] <= bound
    ensures KnownUpTo(nbrs, j + 1, occupied, dist', bound)
  {
    forall k | 0 <= k < j + 1 && k < |nbrs| && nbrs[k] !in occupied
      ensures nbrs[k] in dist' && dist'[nbrs[k]] <= bound
    {
      if k < j {
        var v := nbrs[k];
        assert v in dist && dist[v] <= bound;
        assert v in dist' && dist'[v] == dist[v];
      }
    }
  }

  /** Once all neighbours of the expanded vertex are known, it joins the closed set. */
  lemma Finish(adj: seq<seq<int>>, occupied: set<int>, start: int, parents: map<int, Option<int>>,
               dist: map<int, nat>, done: set<int>, current: int, queue: seq<int>)
    requires SearchInv(adj, occupied, start, parents, dist, done, [current] + queue)
    requires 0 <= current < |adj|
    requires current in dist && KnownUpTo(adj[current], |adj[current]|, occupied, dist, dist[current] + 1)
    ensures SearchInv(adj, occupied, start, parents, dist, done + {current}, queue)
  {
    var frontier := [current] + queue;
    assert current in dist;
    forall x | Step(adj, occupied, current, x)
      ensures x in dist && dist[x] <= dist[current] + 1
    {
      var k :| 0 <= k < |adj[current]| && adj[current][k] == x;
    }
    assert Closed(adj, occupied, dist, done + {current});
    SortedTail(dist, current, queue);
    assert Covered(dist, done + {current}, queue) by {
      forall v | v in dist ensures v in done + {current} || v in queue {
        if v !in done && v != current {
          var k :| 0 <= k < |frontier| && frontier[k] == v;
          assert k > 0 && queue[k - 1] == v;
        }
      }
    }
  }

  /** The vertex indices below n not yet seen: the search's termination measure. */
  ghost function Unvisited(n: int, seen: set<int>): set<int> {
    set v | 0 <= v < n && v !in seen
  }

  lemma UnvisitedShrinks(n: int, before: set<int>, after: set<int>, w: int)
    requires before <= after && w in after && w !in before && 0 <= w < n
    ensures Unvisited(n, after) < Unvisited(n, before)
  {
    assert w in Unvisited(n, before);
  }

  /** A walk from an in-range start in a well-formed graph only visits vertex indices. */
  lemma {:induction false} WalkInRange(adj: seq<seq<int>>, occupied: set<int>, w: seq<int>, start: int, end: int)
    requires WellFormed(adj) && 0 <= start < |adj|
    requires IsWalk(adj, occupied, w, start, end)
    ensures forall k :: 0 <= k < |w| ==> 0 <= w[k] < |adj|
  {
    forall k | 0 <= k < |w|
      ensures 0 <= w[k] < |adj|
    {
      if k > 0 {
        assert Step(adj, occupied, w[k - 1], w[k]);
      }
    }
  }

  /**
   * An occupied destination other than the start is never reached, even from a neighbour of it,
   * so a search that answers as SearchResult demands can only answer None.
   */
  lemma OccupiedEnd(adj: seq<seq<int>>, occupied: set<int>, start: int, end: int, r: Option<seq<int>>)
    requires end != start && end in occupied
    requires SearchResult(adj, occupied, start, end, r)
    ensures Unreachable(adj, occupied, start, end) && r == None
  {
    forall w
      ensures !IsWalk(adj, occupied, w, start, end)
    {
      if |w| >= 2 && w[|w| - 1] == end {
        assert !Step(adj, occupied, w[|w| - 2], w[|w| - 1]);
      }
    }
  }
}
