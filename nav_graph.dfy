/**
 * The navigation graph: vertex attributes, adjacency lists and lane properties built from the
 * lane list, and the breadth-first shortest-path search that avoids occupied vertices.
 */
module NavGraphs {
  import opened Wrappers
  import opened Walks
  import opened GraphData

  /**
   * The edge length the robots use. The original computes the Euclidean distance of the two
   * vertex positions; here it is given: non-negative, symmetric, and zero exactly when the two
   * vertices share a position.
   */
  ghost predicate IsEdgeMetric(vertices: seq<Vertex>, distance: (int, int) -> real) {
    && (forall u, v :: distance(u, v) >= 0.0)
    && (forall u, v :: distance(u, v) == distance(v, u))
    && (forall u, v :: 0 <= u < |vertices| && 0 <= v < |vertices| ==>
          (distance(u, v) == 0.0 <==> vertices[u].x == vertices[v].x && vertices[u].y == vertices[v].y))
  }

  /** Fills the adjacency lists lane by lane, appending to both endpoints' lists. */
  method BuildAdjacencyList(n: nat, lanes: seq<Lane>) returns (adj: seq<seq<int>>)
    requires LanesInRange(n, lanes)
    ensures adj == AdjacencyOf(n, lanes)
  {
    adj := seq(n, _ => []);
    for i := 0 to |lanes|
      invariant adj == AdjacencyOf(n, lanes[..i])
    {
      assert lanes[..i + 1][..i] == lanes[..i];
      var lane := lanes[i];
      adj := adj[lane.a := adj[lane.a] + [lane.b]];
      adj := adj[lane.b := adj[lane.b] + [lane.a]];
    }
    assert lanes[..|lanes|] == lanes;
  }

  /** Fills the lane-property table, storing each lane's bag under both directions of its pair. */
  method ExtractLaneProperties(lanes: seq<Lane>) returns (properties: map<(int, int), LaneProps>)
    ensures properties == LanePropertiesOf(lanes)
  {
    properties := map[];
    for i := 0 to |lanes|
      invariant properties == LanePropertiesOf(lanes[..i])
    {
      assert lanes[..i + 1][..i] == lanes[..i];
      var lane := lanes[i];
      properties := properties[(lane.a, lane.b) := lane.props];
      properties := properties[(lane.b, lane.a) := lane.props];
    }
    assert lanes[..|lanes|] == lanes;
  }

  /**
   * Follows the parent links back from `end` to the search's start. The original appends while
   * walking back and reverses at the end; prepending gives the same sequence.
   */
  method TracePath(parents: map<int, Option<int>>, end: int, ghost adj: seq<seq<int>>, ghost occupied: set<int>,
                   ghost start: int, ghost dist: map<int, nat>) returns (path: seq<int>)
    requires ParentTree(adj, occupied, start, parents, dist)
    requires end in parents
    ensures IsWalk(adj, occupied, path, start, end) && Distinct(path)
    ensures |path| == dist[end] + 1
  {
    path := [];
    var node := Some(end);
    while node.Some?
      invariant node.Some? ==> node.value in parents && |path| + dist[node.value] == dist[end]
      invariant node.Some? && path == [] ==> node.value == end
      invariant node.Some? && path != [] ==> Step(adj, occupied, node.value, path[0])
      invariant node.None? ==> |path| == dist[end] + 1 && path != [] && path[0] == start
      invariant path != [] ==> path[|path| - 1] == end
      invariant forall i :: 0 <= i < |path| ==> path[i] in dist && dist[path[i]] == dist[end] + 1 - |path| + i
      invariant forall i :: 0 <= i < |path| - 1 ==> Step(adj, occupied, path[i], path[i + 1])
      decreases if node.Some? then dist[node.value] + 1 else 0
    {
      var v := node.value;
      path := [v] + path;
      node := parents[v];
    }
  }

  class NavGraph {
    const vertices: seq<Vertex>
    const lanes: seq<Lane>
    const adjacency: seq<seq<int>>
    const laneProperties: map<(int, int), LaneProps>
    const distance: (int, int) -> real

    /** The lanes reference existing vertices, speed limits are non-negative, and the tables match the lanes. */
    ghost predicate Valid() {
      && LanesInRange(|vertices|, lanes)
      && SpeedLimitsNonNegative(lanes)
      && IsEdgeMetric(vertices, distance)
      && adjacency == AdjacencyOf(|vertices|, lanes)
      && laneProperties == LanePropertiesOf(lanes)
    }

    /** Builds the graph from in-memory vertex and lane lists (the file loading is not modelled). */
    constructor (vertices: seq<Vertex>, lanes: seq<Lane>, distance: (int, int) -> real)
      requires LanesInRange(|vertices|, lanes)
      requires SpeedLimitsNonNegative(lanes)
      requires IsEdgeMetric(vertices, distance)
      ensures Valid()
      ensures this.vertices == vertices && this.lanes == lanes && this.distance == distance
    {
      this.vertices := vertices;
      this.lanes := lanes;
      this.distance := distance;
      var adj := BuildAdjacencyList(|vertices|, lanes);
      var props := ExtractLaneProperties(lanes);
      adjacency := adj;
      laneProperties := props;
    }

    /** The position of vertex `v`: the first two entries of its record. */
    function GetVertexPosition(v: int): (p: (real, real))
      requires 0 <= v < |vertices|
      ensures p.0 == vertices[v].x && p.1 == vertices[v].y
    {
      (vertices[v].x, vertices[v].y)
    }

    /**
     * The length of the lane from `u` to `v`: non-negative, the same in both directions, and zero
     * exactly when the two vertices share a position.
     */
    function EdgeLength(u: int, v: int): (d: real)
      requires Valid()
      ensures d >= 0.0 && d == distance(v, u)
      ensures 0 <= u < |vertices| && 0 <= v < |vertices| ==> (d == 0.0 <==> GetVertexPosition(u) == GetVertexPosition(v))
    {
      assert IsEdgeMetric(vertices, distance);
      distance(u, v)
    }

    /** The vertex's `name` attribute, or "V" followed by its index. */
    function GetVertexName(v: int): (name: string)
      requires 0 <= v < |vertices|
      ensures vertices[v].name.Some? ==> name == vertices[v].name.value
      ensures vertices[v].name.None? ==>
                && |name| > 1 && name[0] == 'V'
                && (forall i :: 1 <= i < |name| ==> '0' <= name[i] <= '9')
                && DecimalValue(name[1..]) == v
                && (name[1] == '0' ==> name == "V0")
    {
      DecimalRoundTrip(v);
      assert ("V" + Decimal(v))[1..] == Decimal(v);
      vertices[v].name.GetOr("V" + Decimal(v))
    }

    /** The vertex's `is_charger` attribute, false when absent. */
    function IsCharger(v: int): (charger: bool)
      requires 0 <= v < |vertices|
      ensures charger <==> vertices[v].isCharger == Some(true)
    {
      vertices[v].isCharger.GetOr(false)
    }

    /** The `speed_limit` of the lane stored under (x, y); 0 when there is no lane or no limit. */
    function GetLaneSpeedLimit(x: int, y: int): (limit: real)
      requires Valid()
      ensures limit >= 0.0
    {
      if (x, y) in laneProperties then laneProperties[(x, y)].speedLimit.GetOr(0.0) else 0.0
    }

    /**
     * The speed limit does not depend on the direction of travel; it is 0 for a pair no lane joins,
     * and otherwise the limit of the last lane listed on that pair.
     */
    lemma SpeedLimitLookup(x: int, y: int)
      requires Valid()
      ensures GetLaneSpeedLimit(x, y) == GetLaneSpeedLimit(y, x)
      ensures (forall i :: 0 <= i < |lanes| ==> !OnPair(lanes[i], x, y)) ==> GetLaneSpeedLimit(x, y) == 0.0
      ensures forall i :: LastOnPair(lanes, i, x, y) ==> GetLaneSpeedLimit(x, y) == lanes[i].props.speedLimit.GetOr(0.0)
    {
      LanePropertiesKeys(lanes, x, y);
      LanePropertiesSymmetric(lanes, x, y);
      LanePropertiesSymmetric(lanes, y, x);
      forall i | LastOnPair(lanes, i, x, y)
        ensures GetLaneSpeedLimit(x, y) == lanes[i].props.speedLimit.GetOr(0.0)
      {
        LanePropertiesLastWins(lanes, i, x, y);
      }
    }

    /** Neighbours are listed symmetrically, and exactly for the pairs some lane joins. */
    lemma AdjacencyFacts(u: int, v: int)
      requires Valid() && 0 <= u < |vertices| && 0 <= v < |vertices|
      ensures v in adjacency[u] <==> u in adjacency[v]
      ensures v in adjacency[u] <==> exists i :: 0 <= i < |lanes| && OnPair(lanes[i], u, v)
    {
      AdjacencySymmetric(|vertices|, lanes, u, v);
      AdjacencyMatchesLanes(|vertices|, lanes, u, v);
    }

    /**
     * Breadth-first search from `start` to `end` that never enters an occupied vertex (the start
     * itself may be occupied). The answer is a shortest such path, or None exactly when no walk
     * avoiding the occupied vertices exists; an occupied `end` other than `start` is never reached.
     */
    method FindShortestPath(start: int, end: int, occupied: set<int>) returns (path: Option<seq<int>>)
      requires Valid()
      requires start != end ==> 0 <= start < |vertices|
      ensures start == end ==> path == Some([start])
      ensures SearchResult(adjacency, occupied, start, end, path)
    {
      if start == end {
        return Some([start]);
      }
      var visited: map<int, Option<int>> := map[start := None];
      var queue: seq<int> := [start];
      ghost var dist: map<int, nat> := map[start := 0];
      ghost var done: set<int> := {};
      SearchInit(adjacency, occupied, start);
      while queue != []
        invariant SearchInv(adjacency, occupied, start, visited, dist, done, queue)
        invariant end !in visited
        decreases Unvisited(|adjacency|, visited.Keys), |queue|
      {
        var current := queue[0];
        assert queue == [current] + queue[1..];
        queue := queue[1..];
        var found;
        found, queue, visited, dist := ExpandNeighbours(start, end, occupied, current, queue, visited, dist, done);
        if found.Some? {
          return found;
        }
        done := done + {current};
      }
      assert forall v :: v in dist ==> v in done;
      ExhaustedSearch(adjacency, occupied, dist, done, start, end);
      return None;
    }

    /**
     * One round of the search: scans the neighbours of the dequeued vertex `current` in adjacency
     * order, skipping occupied ones and `current` itself, and records each first-discovered one with
     * `current` as its parent. Reaching `end` ends the search with the traced path.
     */
    method ExpandNeighbours(start: int, end: int, occupied: set<int>, current: int, queue: seq<int>,
                            visited: map<int, Option<int>>, ghost dist: map<int, nat>, ghost done: set<int>)
      returns (found: Option<seq<int>>, queue': seq<int>, visited': map<int, Option<int>>, ghost dist': map<int, nat>)
      requires Valid()
      requires SearchInv(adjacency, occupied, start, visited, dist, done, [current] + queue)
      requires end !in visited
      ensures found.Some? ==> IsShortestPath(adjacency, occupied, found.value, start, end)
      ensures found.None? ==> SearchInv(adjacency, occupied, start, visited', dist', done + {current}, queue')
      ensures found.None? ==> end !in visited'
      ensures found.None? ==> Unvisited(|adjacency|, visited'.Keys) < Unvisited(|adjacency|, visited.Keys)
                              || (visited'.Keys == visited.Keys && queue' == queue)
    {
      queue', visited', dist' := queue, visited, dist;
      assert current in dist && 0 <= current < |adjacency|;
      var neighbors := adjacency[current];
      for j := 0 to |neighbors|
        invariant SearchInv(adjacency, occupied, start, visited', dist', done, [current] + queue')
        invariant current in dist' && dist'[current] == dist[current]
        invariant KnownUpTo(neighbors, j, occupied, dist', dist[current] + 1)
        invariant end !in visited'
        invariant visited.Keys <= visited'.Keys
        invariant Unvisited(|adjacency|, visited'.Keys) < Unvisited(|adjacency|, visited.Keys)
                  || (visited'.Keys == visited.Keys && queue' == queue)
      {
        ghost var distBefore := dist';
        var found';
        found', queue', visited', dist' := VisitNeighbour(start, end, occupied, current, neighbors[j], queue', visited', dist', done);
        if found'.Some? {
          return found', queue', visited', dist';
        }
        KnownExtend(neighbors, j, occupied, distBefore, dist', dist[current] + 1);
      }
      Finish(adjacency, occupied, start, visited', dist', done, current, queue');
      found := None;
    }

    /**
     * The scan of one neighbour `x` of the vertex being expanded: an occupied neighbour or `current`
     * itself is skipped, an already visited one is left alone, and a new one is recorded with
     * `current` as its parent and queued; when it is `end`, the traced path is the answer.
     */
    method VisitNeighbour(start: int, end: int, occupied: set<int>, current: int, x: int, queue: seq<int>,
                          visited: map<int, Option<int>>, ghost dist: map<int, nat>, ghost done: set<int>)
      returns (found: Option<seq<int>>, queue': seq<int>, visited': map<int, Option<int>>, ghost dist': map<int, nat>)
      requires Valid()
      requires SearchInv(adjacency, occupied, start, visited, dist, done, [current] + queue)
      requires end !in visited
      requires current in dist && 0 <= current < |adjacency| && x in adjacency[current]
      ensures found.Some? ==> IsShortestPath(adjacency, occupied, found.value, start, end)
      ensures found.None? ==> SearchInv(adjacency, occupied, start, visited', dist', done, [current] + queue')
      ensures found.None? ==> end !in visited'
      ensures found.None? ==> forall v :: v in dist ==> v in dist' && dist'[v] == dist[v]
      ensures found.None? && x !in occupied ==> x in dist' && dist'[x] <= dist[current] + 1
      ensures found.None? ==> Unvisited(|adjacency|, visited'.Keys) < Unvisited(|adjacency|, visited.Keys)
                              || (visited' == visited && queue' == queue)
    {
      found, queue', visited', dist' := None, queue, visited, dist;
      if x !in occupied && x != current {
        if x !in visited {
          LowerBound(adjacency, occupied, dist, done, [current] + queue, start, end);
          ghost var bound := dist[current] + 2;
          Discover(adjacency, occupied, start, visited, dist, done, current, queue, x);
          assert 0 <= x < |adjacency|;
          UnvisitedShrinks(|adjacency|, visited.Keys, visited.Keys + {x}, x);
          visited' := visited[x := Some(current)];
          dist' := dist[x := dist[current] + 1];
          queue' := queue + [x];
          if x == end {
            var p := TracePath(visited', end, adjacency, occupied, start, dist');
            assert |p| == bound;
            found := Some(p);
          }
        } else {
          VisitedNear(adjacency, occupied, start, visited, dist, done, current, queue, x);
        }
      } else if x == current {
        VisitedNear(adjacency, occupied, start, visited, dist, done, current, queue, current);
      }
    }
  }
}
