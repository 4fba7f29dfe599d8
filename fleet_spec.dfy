/**
 * The fleet manager's behaviour on values: the robots by id, their insertion order, the next id,
 * and the traffic ledger. Each operation of the fleet manager is a function here, and the
 * properties it keeps are lemmas about those functions.
 */
module Fleet {
  import opened Wrappers
  import opened Walks
  import opened NavGraphs
  import opened Traffic
  import opened Robots

  /** The two maps of the traffic manager: normalised lane to holder, vertex to holder. */
  datatype Ledger = Ledger(lanes: map<(int, int), RobotId>, vertices: map<int, RobotId>)

  datatype FleetState = FleetState(
    robots: map<RobotId, RobotState>,
    order: seq<RobotId>,
    nextId: RobotId,
    ledger: Ledger)

  /** `id` holds `key` in `holders`. */
  predicate Holds<K>(holders: map<K, RobotId>, key: K, id: RobotId) {
    key in holders && holders[key] == id
  }

  /** Between the two ledger maps, every robot other than `id` holds exactly the same keys. */
  ghost predicate KeptFor<K(!new)>(before: map<K, RobotId>, after: map<K, RobotId>, id: RobotId) {
    forall k, other :: other != id ==> (Holds(before, k, other) <==> Holds(after, k, other))
  }

  /** No robot other than `id` gains or loses anything in the ledger. */
  ghost predicate OthersKept(before: Ledger, after: Ledger, id: RobotId) {
    KeptFor(before.lanes, after.lanes, id) && KeptFor(before.vertices, after.vertices, id)
  }

  /**
   * Whether the robot `id` standing on `current` may move on to `next`, and the ledger afterwards.
   * Staying put is always allowed and touches nothing. Otherwise the vertex is requested before the
   * lane; a vertex granted before the lane is refused stays held.
   */
  function CanMoveTo(l: Ledger, id: RobotId, current: int, next: int): (r: (bool, Ledger))
    ensures next == current ==> r == (true, l)
    ensures next != current ==>
              (r.0 <==> Available(l.vertices, next, id) && Available(l.lanes, NormalizeLane(current, next), id))
    ensures next != current && !Available(l.vertices, next, id) ==> r.1 == l
    ensures next != current && Available(l.vertices, next, id) ==>
              && Holds(r.1.vertices, next, id)
              && r.1.vertices == l.vertices[next := id]
              && r.1.lanes == (if r.0 then l.lanes[NormalizeLane(current, next) := id] else l.lanes)
    ensures OthersKept(l, r.1, id)
  {
    if next == current then (true, l)
    else
      var (vertexOk, vertices) := Acquire(l.vertices, next, id);
      if !vertexOk then (false, l)
      else
        var (laneOk, lanes) := Acquire(l.lanes, NormalizeLane(current, next), id);
        (laneOk, Ledger(lanes, vertices))
  }

  /**
   * The bookkeeping when a robot has snapped onto the head of its path: the lane it came along and
   * the vertex it came from are released, the path's head is dropped, and a robot whose path is
   * now empty has completed its task and releases the vertex it stands on.
   */
  function VertexReached(l: Ledger, s: RobotState, id: RobotId): (r: (RobotState, Ledger))
    requires s.path != []
    ensures r.0 == (if |s.path| == 1 then s.(path := [], status := TaskComplete) else s.(path := s.path[1..]))
    ensures s.previous.Some? ==>
              !Holds(r.1.vertices, s.previous.value, id) && !Holds(r.1.lanes, NormalizeLane(s.previous.value, s.current), id)
    ensures r.0.status == TaskComplete && s.status != TaskComplete ==> !Holds(r.1.vertices, s.current, id)
    ensures r.1.vertices.Keys <= l.vertices.Keys && r.1.lanes.Keys <= l.lanes.Keys
    ensures forall k :: Holds(r.1.vertices, k, id) <==>
              && Holds(l.vertices, k, id)
              && (s.previous.None? || k != s.previous.value)
              && (|s.path| > 1 || k != s.current)
    ensures forall k :: Holds(r.1.lanes, k, id) <==>
              Holds(l.lanes, k, id) && (s.previous.None? || k != NormalizeLane(s.previous.value, s.current))
    ensures OthersKept(l, r.1, id)
  {
    var l1 :=
      if s.previous.Some? then
        Ledger(Release(l.lanes, NormalizeLane(s.previous.value, s.current), id), Release(l.vertices, s.previous.value, id))
      else l;
    var s1 := s.(path := s.path[1..]);
    if s1.path == [] then
      (s1.(status := TaskComplete), l1.(vertices := Release(l1.vertices, s1.current, id)))
    else
      (s1, l1)
  }

  /** Every robot's state fits the graph. */
  ghost predicate RobotsOk(g: NavGraph, f: FleetState) {
    forall id :: id in f.robots ==> StateOk(g, f.robots[id])
  }

  /** The robot `id` is MOVING with a non-empty path: the movement pass handles it. */
  predicate ReadyToMove(f: FleetState, id: RobotId) {
    id in f.robots && f.robots[id].status == Moving && f.robots[id].path != []
  }

  /** The robot `id` is WAITING with a non-empty path: the recovery pass handles it. */
  predicate ReadyToRecover(f: FleetState, id: RobotId) {
    id in f.robots && f.robots[id].status == Waiting && f.robots[id].path != []
  }

  /** All of the fleet except the robot `id` and the ledger entries `id` holds is the same. */
  ghost predicate OnlyRobotChanged(f: FleetState, r: FleetState, id: RobotId) {
    && r.robots.Keys == f.robots.Keys && r.order == f.order && r.nextId == f.nextId
    && (forall other :: other in f.robots && other != id ==> r.robots[other] == f.robots[other])
    && OthersKept(f.ledger, r.ledger, id)
  }

  /**
   * One robot's turn in the movement pass. When it may move on to the head of its path, it takes
   * a kinematic step and, if that brought it onto the head, does the arrival bookkeeping; when it
   * may not, it becomes WAITING where it is.
   */
  function ProcessMovement(g: NavGraph, f: FleetState, id: RobotId, dt: real): (r: FleetState)
    requires g.Valid() && dt >= 0.0
    requires ReadyToMove(f, id) && StateOk(g, f.robots[id])
    ensures OnlyRobotChanged(f, r, id)
    ensures StateOk(g, r.robots[id])
    ensures var s := f.robots[id];
            !CanMoveTo(f.ledger, id, s.current, s.path[0]).0 ==>
              r.robots[id] == s.(status := Waiting) && r.ledger == CanMoveTo(f.ledger, id, s.current, s.path[0]).1
    ensures r.robots[id].status == TaskComplete ==> !Holds(r.ledger.vertices, r.robots[id].current, id)
    ensures r.robots[id].status in {Moving, Waiting, TaskComplete}
  {
    var s := f.robots[id];
    var next := s.path[0];
    var (ok, l1) := CanMoveTo(f.ledger, id, s.current, next);
    if ok then
      var s1 := Advance(s, g.GetLaneSpeedLimit(s.current, next), g.EdgeLength(s.current, next), dt).0;
      if s1.current == next then
        var (s2, l2) := VertexReached(l1, s1, id);
        f.(robots := f.robots[id := s2], ledger := l2)
      else
        f.(robots := f.robots[id := s1], ledger := l1)
    else
      f.(robots := f.robots[id := s.(status := Waiting)], ledger := l1)
  }

  /** The movement pass over `ids` in order: each robot that is MOVING with a path takes its turn. */
  function MovementPass(g: NavGraph, f: FleetState, ids: seq<RobotId>, dt: real): (r: FleetState)
    requires g.Valid() && dt >= 0.0 && RobotsOk(g, f)
    ensures RobotsOk(g, r)
    ensures r.robots.Keys == f.robots.Keys && r.order == f.order && r.nextId == f.nextId
    decreases |ids|
  {
    if ids == [] then f
    else
      var f1 := MovementPass(g, f, ids[..|ids| - 1], dt);
      var id := ids[|ids| - 1];
      if ReadyToMove(f1, id) then ProcessMovement(g, f1, id, dt) else f1
  }

  /** A waiting robot's replanning: a path found makes it MOVING along that path; otherwise nothing changes. */
  function Recover(s: RobotState, plan: Option<seq<int>>): (r: RobotState)
    ensures plan.Some? && plan.value != [] ==> r == s.(path := plan.value, status := Moving)
    ensures plan.None? || plan.value == [] ==> r == s
  {
    if plan.Some? && plan.value != [] then s.(path := plan.value, status := Moving) else s
  }

  /** The plan computed for `id`, None when none was computed. */
  function PlanOf(plans: map<RobotId, Option<seq<int>>>, id: RobotId): Option<seq<int>> {
    if id in plans then plans[id] else None
  }

  /** The recovery pass over `ids` in order: each robot WAITING with a path replans with its plan. */
  function RecoveryPass(f: FleetState, ids: seq<RobotId>, plans: map<RobotId, Option<seq<int>>>): (r: FleetState)
    ensures r.robots.Keys == f.robots.Keys && r.order == f.order && r.nextId == f.nextId && r.ledger == f.ledger
    decreases |ids|
  {
    if ids == [] then f
    else
      var f1 := RecoveryPass(f, ids[..|ids| - 1], plans);
      var id := ids[|ids| - 1];
      if ReadyToRecover(f1, id) then f1.(robots := f1.robots[id := Recover(f1.robots[id], PlanOf(plans, id))])
      else f1
  }

  /** One update of the fleet: the movement pass, then the recovery pass, both in insertion order. */
  function Tick(g: NavGraph, f: FleetState, dt: real, plans: map<RobotId, Option<seq<int>>>): (r: FleetState)
    requires g.Valid() && dt >= 0.0 && RobotsOk(g, f)
    ensures r.robots.Keys == f.robots.Keys && r.order == f.order && r.nextId == f.nextId
    ensures r.ledger == MovementPass(g, f, f.order, dt).ledger
  {
    RecoveryPass(MovementPass(g, f, f.order, dt), f.order, plans)
  }

  /**
   * A new robot at vertex `v`: refused when `v` is not a vertex or is held by someone else;
   * otherwise the robot gets the next id, holds `v`, and is IDLE there.
   */
  function Spawn(g: NavGraph, f: FleetState, v: int): (r: (Option<RobotId>, FleetState))
    ensures !(0 <= v < |g.vertices|) || !Available(f.ledger.vertices, v, f.nextId) ==> r == (None, f)
    ensures 0 <= v < |g.vertices| && Available(f.ledger.vertices, v, f.nextId) ==>
              && r.0 == Some(f.nextId)
              && r.1.robots == f.robots[f.nextId := InitialState(v)]
              && r.1.order == f.order + [f.nextId] && r.1.nextId == f.nextId + 1
              && r.1.ledger == f.ledger.(vertices := f.ledger.vertices[v := f.nextId])
  {
    if v < 0 || v >= |g.vertices| then (None, f)
    else
      var (ok, vertices) := Acquire(f.ledger.vertices, v, f.nextId);
      if !ok then (None, f)
      else
        var id := f.nextId;
        (Some(id), FleetState(f.robots[id := InitialState(v)], f.order + [id], id + 1, f.ledger.(vertices := vertices)))
  }

  /**
   * A task for robot `id` to `destination`, given the path `plan` found against the current vertex
   * holds. Refused for an unknown or charging robot and when no path was found; otherwise the robot
   * is MOVING along the path, and it gives up its vertex exactly when the path leaves it.
   */
  function AssignTask(f: FleetState, id: RobotId, destination: int, plan: Option<seq<int>>): (r: (bool, FleetState))
    ensures r.0 <==> id in f.robots && f.robots[id].status != Charging && plan.Some? && plan.value != []
    ensures !r.0 ==> r.1 == f
    ensures r.0 ==>
              && r.1.robots == f.robots[id := TaskAssigned(f.robots[id], destination, plan.value)]
              && r.1.order == f.order && r.1.nextId == f.nextId && r.1.ledger.lanes == f.ledger.lanes
              && (|plan.value| > 1 ==> r.1.ledger.vertices == Release(f.ledger.vertices, f.robots[id].current, id))
              && (|plan.value| <= 1 ==> r.1.ledger.vertices == f.ledger.vertices)
  {
    if id !in f.robots || f.robots[id].status == Charging || plan.None? || plan.value == [] then (false, f)
    else
      var s := f.robots[id];
      var vertices := if |plan.value| > 1 then Release(f.ledger.vertices, s.current, id) else f.ledger.vertices;
      (true, f.(robots := f.robots[id := TaskAssigned(s, destination, plan.value)], ledger := f.ledger.(vertices := vertices)))
  }
}
