/**
 * The navigation graph's data: vertices, lanes, and the two lookup tables the
 * graph derives from the lanes (adjacency lists and lane properties), each
 * defined once as a function of the lane list.
 */
module GraphData {
  import opened Wrappers
  import opened Walks

  /** A vertex: position and its attribute bag (optional name, optional charger flag). */
  datatype Vertex = Vertex(x: real, y: real, name: Option<string>, isCharger: Option<bool>)

  /** The attribute bag of a lane; only the speed limit is used by the core. */
  datatype LaneProps = LaneProps(speedLimit: Option<real>)

  /** A lane between vertex indices `a` and `b`; a lane given without a property bag has an empty one. */
  datatype Lane = Lane(a: int, b: int, props: LaneProps)

  ghost predicate LanesInRange(n: nat, lanes: seq<Lane>) {
    forall i :: 0 <= i < |lanes| ==> 0 <= lanes[i].a < n && 0 <= lanes[i].b < n
  }

  ghost predicate SpeedLimitsNonNegative(lanes: seq<Lane>) {
    forall i :: 0 <= i < |lanes| ==> lanes[i].props.speedLimit.GetOr(0.0) >= 0.0
  }

  /** The lane joins x and y, in either direction. */
  predicate OnPair(lane: Lane, x: int, y: int) {
    (lane.a == x && lane.b == y) || (lane.a == y && lane.b == x)
  }

  /** Lane i is the last lane of the list that joins x and y. */
  ghost predicate LastOnPair(lanes: seq<Lane>, i: int, x: int, y: int) {
    && 0 <= i < |lanes| && OnPair(lanes[i], x, y)
    && forall j :: i < j < |lanes| ==> !OnPair(lanes[j], x, y)
  }

  /**
   * The adjacency lists built lane by lane: every vertex starts with an empty list, and each
   * lane (a, b) appends b to the list of a and then a to the list of b.
   */
  function AdjacencyOf(n: nat, lanes: seq<Lane>): (adj: seq<seq<int>>)
    requires LanesInRange(n, lanes)
    ensures |adj| == n && WellFormed(adj)
  {
    if lanes == [] then seq(n, _ => [])
    else
      var prior := AdjacencyOf(n, lanes[..|lanes| - 1]);
      var lane := lanes[|lanes| - 1];
      var once := prior[lane.a := prior[lane.a] + [lane.b]];
      once[lane.b := once[lane.b] + [lane.a]]
  }

  /** A neighbour is listed exactly when some lane joins the two vertices. */
  lemma {:induction false} AdjacencyMatchesLanes(n: nat, lanes: seq<Lane>, u: int, v: int)
    requires LanesInRange(n, lanes) && 0 <= u < n
    ensures v in AdjacencyOf(n, lanes)[u] <==> exists i :: 0 <= i < |lanes| && OnPair(lanes[i], u, v)
  {
    if lanes != [] {
      var init := lanes[..|lanes| - 1];
      AdjacencyMatchesLanes(n, init, u, v);
      var lane := lanes[|lanes| - 1];
      if v in AdjacencyOf(n, lanes)[u] && !(v in AdjacencyOf(n, init)[u]) {
        assert OnPair(lanes[|lanes| - 1], u, v);
      }
      if exists i :: 0 <= i < |lanes| && OnPair(lanes[i], u, v) {
        var i :| 0 <= i < |lanes| && OnPair(lanes[i], u, v);
        if i < |lanes| - 1 {
          assert OnPair(init[i], u, v);
        }
      }
    }
  }

  /** The adjacency lists are symmetric: b is a neighbour of a exactly when a is a neighbour of b. */
  lemma AdjacencySymmetric(n: nat, lanes: seq<Lane>, u: int, v: int)
    requires LanesInRange(n, lanes) && 0 <= u < n && 0 <= v < n
    ensures v in AdjacencyOf(n, lanes)[u] <==> u in AdjacencyOf(n, lanes)[v]
  {
    AdjacencyMatchesLanes(n, lanes, u, v);
    AdjacencyMatchesLanes(n, lanes, v, u);
    if exists i :: 0 <= i < |lanes| && OnPair(lanes[i], u, v) {
      var i :| 0 <= i < |lanes| && OnPair(lanes[i], u, v);
      assert OnPair(lanes[i], v, u);
    }
    if exists i :: 0 <= i < |lanes| && OnPair(lanes[i], v, u) {
      var i :| 0 <= i < |lanes| && OnPair(lanes[i], v, u);
      assert OnPair(lanes[i], u, v);
    }
  }

  /** The lane-property table: each lane stores its bag under (a, b) and (b, a), later lanes overwriting. */
  function LanePropertiesOf(lanes: seq<Lane>): (m: map<(int, int), LaneProps>)
    ensures SpeedLimitsNonNegative(lanes) ==> forall k :: k in m ==> m[k].speedLimit.GetOr(0.0) >= 0.0
  {
    if lanes == [] then map[]
    else
      var lane := lanes[|lanes| - 1];
      LanePropertiesOf(lanes[..|lanes| - 1])[(lane.a, lane.b) := lane.props][(lane.b, lane.a) := lane.props]
  }

  /** A pair has an entry exactly when some lane joins it. */
  lemma {:induction false} LanePropertiesKeys(lanes: seq<Lane>, x: int, y: int)
    ensures (x, y) in LanePropertiesOf(lanes) <==> exists i :: 0 <= i < |lanes| && OnPair(lanes[i], x, y)
  {
    if lanes != [] {
      var init := lanes[..|lanes| - 1];
      LanePropertiesKeys(init, x, y);
      if exists i :: 0 <= i < |lanes| && OnPair(lanes[i], x, y) {
        var i :| 0 <= i < |lanes| && OnPair(lanes[i], x, y);
        if i < |lanes| - 1 {
          assert OnPair(init[i], x, y);
        }
      }
    }
  }

  /** The entry of a pair is the same in both directions. */
  lemma {:induction false} LanePropertiesSymmetric(lanes: seq<Lane>, x: int, y: int)
    ensures (x, y) in LanePropertiesOf(lanes) ==>
              (y, x) in LanePropertiesOf(lanes) && LanePropertiesOf(lanes)[(x, y)] == LanePropertiesOf(lanes)[(y, x)]
  {
    if lanes != [] {
      LanePropertiesSymmetric(lanes[..|lanes| - 1], x, y);
    }
  }

  /** The entry of a pair is the property bag of the last lane on that pair: later lanes overwrite. */
  lemma {:induction false} LanePropertiesLastWins(lanes: seq<Lane>, i: int, x: int, y: int)
    requires LastOnPair(lanes, i, x, y)
    ensures (x, y) in LanePropertiesOf(lanes) && LanePropertiesOf(lanes)[(x, y)] == lanes[i].props
  {
    var last := |lanes| - 1;
    if i < last {
      var init := lanes[..last];
      assert LastOnPair(init, i, x, y);
      LanePropertiesLastWins(init, i, x, y);
      assert !OnPair(lanes[last], x, y);
    }
  }

  /** The decimal digits of n, as Python's str() writes a non-negative int. */
  function Decimal(n: nat): (s: string)
    ensures |s| > 0 && forall i :: 0 <= i < |s| ==> '0' <= s[i] <= '9'
    ensures (s[0] == '0') == (n == 0)
    ensures s[0] == '0' ==> s == "0"
  {
    if n < 10 then ["0123456789"[n]] else Decimal(n / 10) + ["0123456789"[n % 10]]
  }

  /** The number a string of decimal digits denotes. */
  function DecimalValue(s: string): nat
    requires forall i :: 0 <= i < |s| ==> '0' <= s[i] <= '9'
  {
    if s == [] then 0 else DecimalValue(s[..|s| - 1]) * 10 + (s[|s| - 1] - '0') as nat
  }

  /** Reading back the generated digits gives the index again, so generated names are distinct. */
  lemma {:induction false} DecimalRoundTrip(n: nat)
    ensures DecimalValue(Decimal(n)) == n
  {
    if n >= 10 {
      DecimalRoundTrip(n / 10);
      var s := Decimal(n);
      assert s[..|s| - 1] == Decimal(n / 10);
    }
  }
}
