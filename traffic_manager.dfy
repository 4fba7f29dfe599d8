/**
 * The traffic manager: an exclusive-ownership ledger from vertices and from undirected lanes to
 * the id of the robot holding them. A request is granted when the key is free or already held by
 * the caller; a release removes only an entry the caller holds.
 */
module Traffic {

  /** Robot ids are handed out from 0 upwards by the fleet manager. */
  type RobotId = nat

  /** The ledger key of the lane between `a` and `b`: the smaller endpoint first. */
  function NormalizeLane(a: int, b: int): (lane: (int, int))
    ensures lane.0 <= lane.1
    ensures lane == (a, b) || lane == (b, a)
  {
    if a <= b then (a, b) else (b, a)
  }

  /** Both directions of travel between two vertices use the same ledger key. */
  lemma NormalizeSymmetric(a: int, b: int)
    ensures NormalizeLane(a, b) == NormalizeLane(b, a)
    ensures NormalizeLane(a, b) == (a, b) <==> a <= b
  {
  }

  /** `id` may take `key`: nobody holds it, or `id` already does. */
  predicate Available<K>(holders: map<K, RobotId>, key: K, id: RobotId) {
    key !in holders || holders[key] == id
  }

  /**
   * A request for `key` by `id`: granted exactly when the key is available to `id`, and then the
   * key is recorded as held by `id`. A granted request never displaces another holder: every
   * existing entry keeps its holder, and the only key that can be added is `key`.
   */
  function Acquire<K>(holders: map<K, RobotId>, key: K, id: RobotId): (r: (bool, map<K, RobotId>))
    ensures r.0 <==> Available(holders, key, id)
    ensures r.0 ==> key in r.1 && r.1[key] == id
    ensures forall k :: k in holders ==> k in r.1 && r.1[k] == holders[k]
    ensures r.1.Keys == if r.0 then holders.Keys + {key} else holders.Keys
  {
    if key in holders && holders[key] != id then (false, holders) else (true, holders[key := id])
  }

  /**
   * A release of `key` by `id`: the entry disappears when `id` holds it; otherwise nothing
   * changes. Every other entry keeps its holder.
   */
  function Release<K(!new)>(holders: map<K, RobotId>, key: K, id: RobotId): (r: map<K, RobotId>)
    ensures key !in r || (key in holders && holders[key] != id && r[key] == holders[key])
    ensures forall k :: k != key ==> (k in r <==> k in holders) && (k in r ==> r[k] == holders[k])
    ensures (key in holders && holders[key] != id) ==> r == holders
  {
    if key in holders && holders[key] == id then holders - {key} else holders
  }

  /** Repeating a request is idempotent: it is granted again and the ledger stays as it is. */
  lemma AcquireIdempotent<K>(holders: map<K, RobotId>, key: K, id: RobotId)
    requires Acquire(holders, key, id).0
    ensures Acquire(Acquire(holders, key, id).1, key, id) == (true, Acquire(holders, key, id).1)
  {
    var h := Acquire(holders, key, id).1;
    assert h[key := id] == h;
  }

  /** Taking a free key and giving it back restores the ledger. */
  lemma AcquireReleaseRoundTrip<K(!new)>(holders: map<K, RobotId>, key: K, id: RobotId)
    requires key !in holders
    ensures Release(Acquire(holders, key, id).1, key, id) == holders
  {
    assert holders[key := id] - {key} == holders;
  }

  /** Two different robots can never both be granted the same key, in either order. */
  lemma MutualExclusion<K>(holders: map<K, RobotId>, key: K, id1: RobotId, id2: RobotId)
    requires id1 != id2
    ensures var (ok1, h1) := Acquire(holders, key, id1); ok1 ==> !Acquire(h1, key, id2).0
  {
    var (ok1, h1) := Acquire(holders, key, id1);
    if ok1 {
      assert h1[key] == id1;
    }
  }

  /** Every lane key of the ledger is normalised, smaller endpoint first. */
  ghost predicate NormalizedKeys(lanes: map<(int, int), RobotId>) {
    forall lane :: lane in lanes ==> lane.0 <= lane.1
  }

  class TrafficManager {
    var laneOccupancy: map<(int, int), RobotId>
    var vertexOccupancy: map<int, RobotId>

    ghost predicate Valid()
      reads this
    {
      NormalizedKeys(laneOccupancy)
    }

    constructor ()
      ensures Valid()
      ensures laneOccupancy == map[] && vertexOccupancy == map[]
    {
      laneOccupancy := map[];
      vertexOccupancy := map[];
    }

    /** Requests the lane between `from` and `to` in either direction; the vertex ledger is untouched. */
    method RequestLane(robotId: RobotId, from: int, to: int) returns (granted: bool)
      requires Valid()
      modifies this
      ensures Valid()
      ensures (granted, laneOccupancy) == Acquire(old(laneOccupancy), NormalizeLane(from, to), robotId)
      ensures vertexOccupancy == old(vertexOccupancy)
    {
      var lane := NormalizeLane(from, to);
      if lane in laneOccupancy && laneOccupancy[lane] != robotId {
        return false;
      }
      laneOccupancy := laneOccupancy[lane := robotId];
      return true;
    }

    /** Requests a vertex; the lane ledger is untouched. */
    method RequestVertex(robotId: RobotId, vertex: int) returns (granted: bool)
      modifies this
      ensures (granted, vertexOccupancy) == Acquire(old(vertexOccupancy), vertex, robotId)
      ensures laneOccupancy == old(laneOccupancy)
    {
      if vertex in vertexOccupancy && vertexOccupancy[vertex] != robotId {
        return false;
      }
      vertexOccupancy := vertexOccupancy[vertex := robotId];
      return true;
    }

    /** Releases the lane between `from` and `to` if `robotId` holds it. */
    method ReleaseLane(robotId: RobotId, from: int, to: int)
      requires Valid()
      modifies this
      ensures Valid()
      ensures laneOccupancy == Release(old(laneOccupancy), NormalizeLane(from, to), robotId)
      ensures vertexOccupancy == old(vertexOccupancy)
    {
      var lane := NormalizeLane(from, to);
      if lane in laneOccupancy && laneOccupancy[lane] == robotId {
        laneOccupancy := laneOccupancy - {lane};
      }
    }

    /** Releases a vertex if `robotId` holds it. */
    method ReleaseVertex(robotId: RobotId, vertex: int)
      modifies this
      ensures vertexOccupancy == Release(old(vertexOccupancy), vertex, robotId)
      ensures laneOccupancy == old(laneOccupancy)
    {
      if vertex in vertexOccupancy && vertexOccupancy[vertex] == robotId {
        vertexOccupancy := vertexOccupancy - {vertex};
      }
    }

    /** The lanes currently held, each as its normalised pair. */
    function GetOccupiedLanes(): (lanes: set<(int, int)>)
      requires Valid()
      reads this
      ensures forall lane :: lane in lanes <==> lane in laneOccupancy
      ensures forall lane :: lane in lanes ==> lane.0 <= lane.1
    {
      laneOccupancy.Keys
    }

    /** The vertices currently held. */
    function GetOccupiedVertices(): (vertices: set<int>)
      reads this
      ensures forall v :: v in vertices <==> v in vertexOccupancy
    {
      vertexOccupancy.Keys
    }
  }
}
