/**
 * The fleet manager: robots by id in insertion order, a traffic manager, and the per-update
 * orchestration. The public operations and the per-update helpers are proved to turn the
 * value-level model `Model()` into the result of a function of module Fleet (`CheckWaitingRobot`
 * applies `Recover` to the robot's entry); `CanMoveTo` and
 * `HandleVertexReached` are proved against their Fleet functions on the ledger and the robot's
 * state, and `StartTask` against `TaskAssigned` and `Release`.
 */
module FleetManagement {
  import opened Wrappers
  import opened Walks
  import opened NavGraphs
  import opened Traffic
  import opened Robots
  import opened Fleet
  import opened FleetProperties

  /**
   * The plan computed for a waiting robot in the recovery pass: a path search against the vertex
   * holds `occupied` from where it stands to its destination, or no path when it has no destination.
   */
  ghost predicate Replanned(g: NavGraph, occupied: set<int>, s: RobotState, plan: Option<seq<int>>) {
    && (s.destination.Some? ==> SearchResult(g.adjacency, occupied, s.current, s.destination.value, plan))
    && (s.destination.None? ==> plan == None)
  }

  /** Every recorded plan is the replanning of that robot of `f` against the vertex holds of `f`. */
  ghost predicate AllReplanned(g: NavGraph, f: FleetState, plans: map<RobotId, Option<seq<int>>>) {
    forall id :: id in plans ==> id in f.robots && Replanned(g, f.ledger.vertices.Keys, f.robots[id], plans[id])
  }

  lemma RecordPlan(g: NavGraph, f: FleetState, plans: map<RobotId, Option<seq<int>>>, id: RobotId, plan: Option<seq<int>>)
    requires AllReplanned(g, f, plans)
    requires id in f.robots && Replanned(g, f.ledger.vertices.Keys, f.robots[id], plan)
    ensures AllReplanned(g, f, plans[id := plan])
  {
  }

  /** Every robot among `ids` that is WAITING with a path in `f` has a recorded plan. */
  ghost predicate PlansCover(f: FleetState, ids: seq<RobotId>, plans: map<RobotId, Option<seq<int>>>) {
    forall id :: id in ids && ReadyToRecover(f, id) ==> id in plans
  }

  /** One more robot of the recovery pass is covered once a plan is recorded for it whenever it is ready. */
  lemma CoverNext(f: FleetState, ids: seq<RobotId>, i: nat, plans: map<RobotId, Option<seq<int>>>,
                  plans': map<RobotId, Option<seq<int>>>)
    requires i < |ids| && PlansCover(f, ids[..i], plans) && plans.Keys <= plans'.Keys
    requires ReadyToRecover(f, ids[i]) ==> ids[i] in plans'
    ensures PlansCover(f, ids[..i + 1], plans')
  {
    forall id | id in ids[..i + 1] && ReadyToRecover(f, id)
      ensures id in plans'
    {
      var k :| 0 <= k < i + 1 && ids[..i + 1][k] == id;
      if k < i {
        assert id in ids[..i];
      }
    }
  }

  /**
   * A robot that the movement pass leaves WAITING with a path is replanned in the same tick, and
   * when some walk avoiding the vertices then held reaches its destination, it ends the tick MOVING
   * along the path found.
   */
  lemma BlockedRobotResumes(g: NavGraph, f: FleetState, dt: real, plans: map<RobotId, Option<seq<int>>>, id: RobotId)
    requires g.Valid() && dt >= 0.0 && Inv(g, f)
    requires AllReplanned(g, MovementPass(g, f, f.order, dt), plans)
    requires forall x :: ReadyToRecover(MovementPass(g, f, f.order, dt), x) ==> x in plans
    requires ReadyToRecover(MovementPass(g, f, f.order, dt), id)
    requires var m := MovementPass(g, f, f.order, dt);
             && m.robots[id].destination.Some?
             && exists w :: IsWalk(g.adjacency, m.ledger.vertices.Keys, w, m.robots[id].current, m.robots[id].destination.value)
    ensures Tick(g, f, dt, plans).robots[id].status == Moving
    ensures Tick(g, f, dt, plans).robots[id].path == plans[id].value
  {
    var m := MovementPass(g, f, f.order, dt);
    var s := m.robots[id];
    assert Replanned(g, m.ledger.vertices.Keys, s, plans[id]);
    var w :| IsWalk(g.adjacency, m.ledger.vertices.Keys, w, s.current, s.destination.value);
    assert plans[id].Some? && plans[id].value != [];
    SameTickRecovery(g, f, dt, plans, id);
  }

  class FleetManager {
    const graph: NavGraph
    const traffic: TrafficManager
    var robots: map<RobotId, Robot>
    var order: seq<RobotId>
    var nextRobotId: RobotId

    /** The manager as a value: robot states by id, insertion order, next id and the ledger. */
    function Model(): FleetState
      reads this, traffic, robots.Values
    {
      FleetState(map id | id in robots :: robots[id].State(), order, nextRobotId, LedgerOf())
    }

    function LedgerOf(): Ledger
      reads traffic
    {
      Ledger(traffic.laneOccupancy, traffic.vertexOccupancy)
    }

    /** Each id maps to a robot object with that id, on this graph, with the colour of that id. */
    ghost predicate Wired()
      reads this, robots.Values
    {
      forall id :: id in robots ==> robots[id].id == id && robots[id].graph == graph
    }

    /** The objects are wired up and the model keeps the fleet invariant. */
    ghost predicate Valid()
      reads this, traffic, robots.Values
    {
      graph.Valid() && traffic.Valid() && Wired() && Inv(graph, Model())
    }

    /** A listed robot is in the map, under its own id, with the state the model records, fitting the graph. */
    lemma RobotFacts(id: RobotId)
      requires Valid() && (id in robots || id in order)
      ensures id in robots && robots[id].id == id && robots[id].graph == graph
      ensures robots[id].State() == Model().robots[id] && robots[id].Valid()
    {
      assert StateOk(graph, Model().robots[id]);
    }

    /** A listed robot is in the map under its own id. */
    lemma Listed(id: RobotId)
      requires Valid() && id in order
      ensures id in robots && robots[id].id == id
    {
    }

    /**
     * After a change to one robot object and the ledger alone, the model changes in that robot's
     * entry and in the ledger.
     */
    twostate lemma RobotUpdated(r: Robot)
      requires old(Wired()) && old(robots) == robots && old(order) == order && old(nextRobotId) == nextRobotId
      requires r.id in robots && robots[r.id] == r
      requires forall x :: x in robots.Values && x != r ==> unchanged(x)
      ensures Wired()
      ensures Model() == old(Model()).(robots := old(Model()).robots[r.id := r.State()], ledger := LedgerOf())
    {
      var m, m0 := Model(), old(Model());
      forall id | id in robots && id != r.id
        ensures m.robots[id] == m0.robots[id]
      {
        var x := robots[id];
        assert x in robots.Values && x != r;
        assert m.robots[id] == x.State();
        assert m0.robots[id] == old(x.State());
      }
    }

    /** After a change to the ledger alone, the model changes in the ledger alone. */
    twostate lemma LedgerUpdated()
      requires old(Wired()) && old(robots) == robots && old(order) == order && old(nextRobotId) == nextRobotId
      requires forall x :: x in robots.Values ==> unchanged(x)
      ensures Wired()
      ensures Model() == old(Model()).(ledger := LedgerOf())
    {
      var m, m0 := Model(), old(Model());
      forall id | id in robots
        ensures m.robots[id] == m0.robots[id]
      {
        var x := robots[id];
        assert x in robots.Values;
        assert m.robots[id] == x.State();
        assert m0.robots[id] == old(x.State());
      }
    }

    /** After a fresh robot object is added under the next id, the model gains that robot's entry. */
    twostate lemma RobotAdded(new r: Robot)
      requires old(Wired()) && r.id == old(nextRobotId) && r.id !in old(robots)
      requires r.graph == graph
      requires robots == old(robots)[r.id := r] && order == old(order) + [r.id] && nextRobotId == old(nextRobotId) + 1
      requires forall x :: x in old(robots).Values ==> unchanged(x)
      ensures Wired()
      ensures Model() == FleetState(old(Model()).robots[r.id := r.State()], old(order) + [r.id], old(nextRobotId) + 1, LedgerOf())
    {
      var m, m0 := Model(), old(Model());
      forall id | id in old(robots)
        ensures m.robots[id] == m0.robots[id]
      {
        var x := old(robots)[id];
        assert x in old(robots).Values && unchanged(x);
        assert m.robots[id] == x.State();
        assert m0.robots[id] == old(x.State());
      }
    }

    constructor (graph: NavGraph)
      requires graph.Valid()
      ensures Valid() && fresh(traffic)
      ensures this.graph == graph && Model() == FleetState(map[], [], 0, Ledger(map[], map[]))
    {
      this.graph := graph;
      traffic := new TrafficManager();
      robots := map[];
      order := [];
      nextRobotId := 0;
      new;
      InitialInv(graph);
    }

    /** Spawns a robot at vertex `v`: refused for a vertex that does not exist or is held. */
    method SpawnRobot(v: int) returns (robot: Option<Robot>)
      requires Valid()
      modifies this, traffic
      ensures Valid()
      ensures (if robot.Some? then Some(robot.value.id) else None, Model()) == Spawn(graph, old(Model()), v)
      ensures robot.Some? ==> fresh(robot.value) && robots == old(robots)[robot.value.id := robot.value]
      ensures robot.None? ==> robots == old(robots)
    {
      ghost var before := Model();
      SpawnProperties(graph, before, v);
      if v < 0 || v >= |graph.vertices| {
        return None;
      }
      assert nextRobotId !in robots by {
        assert nextRobotId !in before.robots;
      }
      var granted := traffic.RequestVertex(nextRobotId, v);
      if !granted {
        LedgerUpdated();
        return None;
      }
      var r := new Robot(nextRobotId, v, graph);
      robots := robots[nextRobotId := r];
      order := order + [nextRobotId];
      nextRobotId := nextRobotId + 1;
      RobotAdded(r);
      assert Model() == Spawn(graph, before, v).1;
      return Some(r);
    }

    /**
     * Gives robot `robotId` a task to `destination`. The path is searched against the vertices held
     * at the time; `plan` is that search's answer (None when no search was made).
     */
    method AssignTask(robotId: RobotId, destination: int) returns (ok: bool, ghost plan: Option<seq<int>>)
      requires Valid()
      modifies traffic, robots.Values
      ensures Valid()
      ensures (ok, Model()) == Fleet.AssignTask(old(Model()), robotId, destination, plan)
      ensures robotId in old(Model()).robots && old(Model()).robots[robotId].status != Charging ==>
                SearchResult(graph.adjacency, old(traffic.vertexOccupancy).Keys, old(Model()).robots[robotId].current,
                             destination, plan)
    {
      ghost var before := Model();
      ok, plan := false, None;
      if robotId in robots {
        RobotFacts(robotId);
        var robot := robots[robotId];
        if robot.status != Charging {
          var occupied := traffic.GetOccupiedVertices();
          var path := graph.FindShortestPath(robot.currentVertex, destination, occupied);
          plan := path;
          if path.Some? && path.value != [] {
            WalkInRange(graph.adjacency, occupied, path.value, robot.currentVertex, destination);
            AssignTaskProperties(graph, before, robotId, destination, plan);
            StartTask(robot, destination, path.value);
            RobotUpdated(robot);
            ok := true;
          }
        }
      }
    }

    /**
     * The second half of a granted task: the robot gives up the vertex it stands on when the path
     * leaves it, then takes the path.
     */
    method StartTask(robot: Robot, destination: int, path: seq<int>)
      requires traffic.Valid() && robot.Valid() && PathInRange(robot.graph, path)
      modifies robot, traffic
      ensures traffic.Valid() && robot.Valid()
      ensures robot.State() == TaskAssigned(old(robot.State()), destination, path)
      ensures LedgerOf() == old(LedgerOf()).(vertices := if |path| > 1 then Release(old(LedgerOf()).vertices, old(robot.currentVertex), robot.id)
                                                       else old(LedgerOf()).vertices)
    {
      if |path| > 1 {
        traffic.ReleaseVertex(robot.id, robot.currentVertex);
      }
      robot.AssignTask(destination, path);
    }

    /**
     * One update of `dt` seconds: first every MOVING robot with a path takes its movement turn,
     * then every WAITING robot with a path replans; both passes go in insertion order. `plans`
     * holds the recovery pass's search results.
     */
    method UpdateRobots(dt: real) returns (ghost plans: map<RobotId, Option<seq<int>>>)
      requires Valid() && dt >= 0.0
      modifies traffic, robots.Values
      ensures Valid()
      ensures Model() == Tick(graph, old(Model()), dt, plans)
      ensures AllReplanned(graph, MovementPass(graph, old(Model()), order, dt), plans)
      ensures forall id :: ReadyToRecover(MovementPass(graph, old(Model()), order, dt), id) ==> id in plans
    {
      MoveRobots(dt);
      plans := RecoverWaitingRobots();
    }

    /** The movement pass: each robot, in insertion order, that is MOVING with a path takes its turn. */
    method MoveRobots(dt: real)
      requires Valid() && dt >= 0.0
      modifies traffic, robots.Values
      ensures Valid()
      ensures Model() == MovementPass(graph, old(Model()), order, dt)
    {
      ghost var start := Model();
      for i := 0 to |order|
        invariant Valid()
        invariant Model() == MovementPass(graph, start, order[..i], dt)
      {
        assert order[..i + 1][..i] == order[..i];
        RobotFacts(order[i]);
        var robot := robots[order[i]];
        if robot.status == Moving && robot.path != [] {
          ProcessMovement(robot, dt);
        }
      }
      assert order[..|order|] == order;
    }

    /**
     * The recovery pass: each robot, in insertion order, that is WAITING with a path replans.
     * `plans` holds the search result for each robot replanned.
     */
    method RecoverWaitingRobots() returns (ghost plans: map<RobotId, Option<seq<int>>>)
      requires Valid()
      modifies robots.Values
      ensures Valid()
      ensures Model() == RecoveryPass(old(Model()), order, plans)
      ensures AllReplanned(graph, old(Model()), plans)
      ensures forall id :: ReadyToRecover(old(Model()), id) ==> id in plans
    {
      ghost var start := Model();
      plans := map[];
      for i := 0 to |order|
        invariant Valid()
        invariant Model() == RecoveryPass(start, order[..i], plans)
        invariant AllReplanned(graph, start, plans)
        invariant PlansCover(start, order[..i], plans)
      {
        var id := order[i];
        Listed(id);
        var robot := robots[id];
        if robot.status == Waiting && robot.path != [] {
          ghost var before := Model();
          ghost var s := robot.State();
          assert before.robots[id] == s && ReadyToRecover(before, id);
          var plan := CheckWaitingRobot(robot);
          RecoveryStep(start, order, i, plans, plan);
          assert s == start.robots[id] && before.ledger == start.ledger;
          RecordPlan(graph, start, plans, id, plan);
          CoverNext(start, order, i, plans, plans[id := plan]);
          plans := plans[id := plan];
        } else {
          assert Model().robots[id] == robot.State() && !ReadyToRecover(Model(), id);
          RecoveryStep(start, order, i, plans, None);
          assert !ReadyToRecover(start, id);
          CoverNext(start, order, i, plans, plans);
        }
      }
      assert order[..|order|] == order;
      assert forall id :: id in start.robots ==> id in order;
    }

    /** One robot's movement turn (see Fleet.ProcessMovement). */
    method ProcessMovement(robot: Robot, dt: real)
      requires Valid() && dt >= 0.0
      requires robot.id in robots && robots[robot.id] == robot && robot.status == Moving && robot.path != []
      modifies robot, traffic
      ensures Valid()
      ensures Model() == Fleet.ProcessMovement(graph, old(Model()), robot.id, dt)
    {
      RobotFacts(robot.id);
      ghost var before := Model();
      ghost var s := robot.State();
      var next := robot.path[0];
      var ok := CanMoveTo(robot, next);
      ghost var l1 := LedgerOf();
      if ok {
        var _ := robot.UpdatePosition(dt);
        ghost var s1 := robot.State();
        assert s1 == Advance(s, graph.GetLaneSpeedLimit(s.current, next), graph.EdgeLength(s.current, next), dt).0;
        if robot.currentVertex == next {
          HandleVertexReached(robot, next);
          assert (robot.State(), LedgerOf()) == VertexReached(l1, s1, robot.id);
        }
      } else {
        robot.status := Waiting;
      }
      RobotUpdated(robot);
      ProcessMovementInv(graph, before, robot.id, dt);
      assert Model() == Fleet.ProcessMovement(graph, before, robot.id, dt);
    }

    /** Whether `robot` may move on to `next`, requesting the vertex before the lane. */
    method CanMoveTo(robot: Robot, next: int) returns (ok: bool)
      requires traffic.Valid()
      modifies traffic
      ensures traffic.Valid()
      ensures (ok, LedgerOf()) == Fleet.CanMoveTo(old(LedgerOf()), robot.id, robot.currentVertex, next)
    {
      if next == robot.currentVertex {
        return true;
      }
      var vertexGranted := traffic.RequestVertex(robot.id, next);
      if !vertexGranted {
        return false;
      }
      var laneGranted := traffic.RequestLane(robot.id, robot.currentVertex, next);
      if !laneGranted {
        return false;
      }
      return true;
    }

    /** The bookkeeping once `robot` has reached the head `next` of its path (see Fleet.VertexReached). */
    method HandleVertexReached(robot: Robot, next: int)
      requires traffic.Valid() && robot.path != []
      modifies robot, traffic
      ensures traffic.Valid()
      ensures (robot.State(), LedgerOf()) == VertexReached(old(LedgerOf()), old(robot.State()), robot.id)
    {
      if robot.previousVertex.Some? {
        traffic.ReleaseLane(robot.id, robot.previousVertex.value, robot.currentVertex);
        traffic.ReleaseVertex(robot.id, robot.previousVertex.value);
      }
      robot.path := robot.path[1..];
      if robot.path == [] {
        robot.status := TaskComplete;
        traffic.ReleaseVertex(robot.id, robot.currentVertex);
      }
    }

    /**
     * Replans a waiting robot from where it stands against the current vertex holds; a path found
     * replaces its path and makes it MOVING.
     */
    method CheckWaitingRobot(robot: Robot) returns (ghost plan: Option<seq<int>>)
      requires Valid() && robot.id in robots && robots[robot.id] == robot
      modifies robot
      ensures Valid()
      ensures Replanned(graph, old(LedgerOf()).vertices.Keys, old(robot.State()), plan)
      ensures Model() == old(Model()).(robots := old(Model()).robots[robot.id := Recover(old(robot.State()), plan)])
    {
      RobotFacts(robot.id);
      ghost var before := Model();
      plan := None;
      if robot.destinationVertex.Some? {
        var occupied := traffic.GetOccupiedVertices();
        var newPath := graph.FindShortestPath(robot.currentVertex, robot.destinationVertex.value, occupied);
        plan := newPath;
        if newPath.Some? && newPath.value != [] {
          WalkInRange(graph.adjacency, occupied, newPath.value, robot.currentVertex, robot.destinationVertex.value);
          robot.path := newPath.value;
          robot.status := Moving;
        }
      }
      RobotUpdated(robot);
      RecoverInv(graph, before, robot.id, plan);
    }

    /** The status name of robot `id`, None for an unknown id. */
    function GetRobotStatus(id: RobotId): (name: Option<string>)
      reads this, robots.Values
      ensures name.Some? <==> id in robots
      ensures id in robots ==> name.value == StatusName(robots[id].status)
    {
      if id in robots then Some(StatusName(robots[id].status)) else None
    }

    /** The interpolated position of robot `id`, None for an unknown id. */
    function GetRobotPosition(id: RobotId): (position: Option<(real, real)>)
      requires Valid()
      reads this, traffic, robots.Values
      ensures position.Some? <==> id in robots
      ensures id in robots ==>
                var s := Model().robots[id];
                && (s.path == [] || s.status == TaskComplete ==> position.value == graph.GetVertexPosition(s.current))
                && (s.path != [] && s.status != TaskComplete ==>
                      position.value == Interpolate(graph.GetVertexPosition(s.current), graph.GetVertexPosition(s.path[0]), s.progress))
    {
      if id in robots then
        RobotFacts(id);
        Some(robots[id].GetPosition())
      else None
    }

    /** The display colour of robot `id`, None for an unknown id. */
    function GetRobotColor(id: RobotId): (color: Option<string>)
      requires Valid()
      reads this, traffic, robots.Values
      ensures color.Some? <==> id in robots
      ensures id in robots ==> color.value == GenerateColor(id) && color.value in Palette
    {
      if id in robots then Some(robots[id].color) else None
    }

    /** The lanes currently held, each as its normalised pair. */
    function GetBlockedLanes(): (lanes: set<(int, int)>)
      requires Valid()
      reads this, traffic, robots.Values
      ensures forall lane :: lane in lanes <==> lane in Model().ledger.lanes
      ensures forall lane :: lane in lanes ==> lane.0 <= lane.1
    {
      traffic.GetOccupiedLanes()
    }

    /** The vertices currently held. */
    function GetBlockedVertices(): (vertices: set<int>)
      reads this, traffic, robots.Values
      ensures forall v :: v in vertices <==> v in Model().ledger.vertices
    {
      traffic.GetOccupiedVertices()
    }
  }
}
