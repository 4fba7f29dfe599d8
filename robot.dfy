/**
 * A robot: a small status machine with a kinematic step along the lanes of its path. Positions,
 * speeds and progress are reals; the length of a lane is the graph's given edge length.
 */
module Robots {
  import opened Wrappers
  import opened GraphData
  import opened NavGraphs

  datatype RobotStatus = Idle | Moving | Waiting | Charging | TaskComplete

  /** The status's name as the fleet manager reports it. */
  function StatusName(s: RobotStatus): (name: string)
    ensures |name| >= 4 && forall i :: 0 <= i < |name| ==> 'A' <= name[i] <= 'Z' || name[i] == '_'
  {
    match s
    case Idle => "IDLE"
    case Moving => "MOVING"
    case Waiting => "WAITING"
    case Charging => "CHARGING"
    case TaskComplete => "TASK_COMPLETE"
  }

  /** Different statuses are reported under different names. */
  lemma StatusNamesDistinct(s: RobotStatus, t: RobotStatus)
    requires s != t
    ensures StatusName(s) != StatusName(t)
  {
    assert |StatusName(s)| != |StatusName(t)|;
  }

  const Palette: seq<string> :=
    ["#FF0000", "#0000FF", "#00FF00", "#FFA500", "#800080", "#00FFFF", "#FF00FF", "#A52A2A", "#008000", "#000080"]

  /** The robot's display colour, cycling through the ten palette entries by id. */
  function GenerateColor(id: nat): (color: string)
    ensures color in Palette
    ensures |color| == 7 && color[0] == '#'
  {
    Palette[id % |Palette|]
  }

  /** The ten palette entries are different colours. */
  lemma PaletteDistinct()
    ensures forall a, b :: 0 <= a < b < |Palette| ==> Palette[a] != Palette[b]
  {
  }

  /** Colours repeat every ten ids, and any ten consecutive ids get ten different colours. */
  lemma ColorCycle(i: nat, j: nat)
    ensures GenerateColor(i) == GenerateColor(i + 10)
    ensures i < j < i + 10 ==> GenerateColor(i) != GenerateColor(j)
  {
    if i < j < i + 10 {
      var a, b := i % 10, j % 10;
      assert i == 10 * (i / 10) + a;
      assert j == 10 * (j / 10) + b;
      assert a != b;
      PaletteDistinct();
      if a < b {
        assert Palette[a] != Palette[b];
      } else {
        assert Palette[b] != Palette[a];
      }
    }
  }

  /** The value-level state of a robot: everything its methods read and change. */
  datatype RobotState = RobotState(
    current: int,
    previous: Option<int>,
    destination: Option<int>,
    path: seq<int>,
    status: RobotStatus,
    speed: real,
    progress: real)

  /** A new robot: idle at its start vertex with an empty path, speed 1 and no progress. */
  function InitialState(start: int): (s: RobotState)
    ensures s.status == Idle && s.current == start && s.path == []
    ensures s.previous == None && s.destination == None
    ensures s.speed == 1.0 && s.progress == 0.0
  {
    RobotState(start, None, None, [], Idle, 1.0, 0.0)
  }

  /** The speed on a lane: the nominal speed when the lane has no limit (0), else the smaller of the two. */
  function EffectiveSpeed(speed: real, limit: real): (e: real)
    ensures limit == 0.0 ==> e == speed
    ensures limit != 0.0 ==> e <= speed && e <= limit && (e == speed || e == limit)
  {
    if limit == 0.0 then speed else if speed <= limit then speed else limit
  }

  /** The distance covered in `dt` seconds at the effective speed on the lane. */
  function StepDistance(dt: real, speed: real, limit: real): (d: real)
    requires dt >= 0.0 && speed >= 0.0 && limit >= 0.0
    ensures d >= 0.0
  {
    dt * EffectiveSpeed(speed, limit)
  }

  /**
   * A step never covers more than the robot's own speed allows in `dt` seconds, nor more than a
   * lane's non-zero speed limit allows; without a limit it covers exactly what its speed allows.
   */
  lemma StepDistanceBounds(dt: real, speed: real, limit: real)
    requires dt >= 0.0 && speed >= 0.0 && limit >= 0.0
    ensures StepDistance(dt, speed, limit) <= dt * speed
    ensures limit != 0.0 ==> StepDistance(dt, speed, limit) <= dt * limit
    ensures limit == 0.0 ==> StepDistance(dt, speed, limit) == dt * speed
  {
    var e := EffectiveSpeed(speed, limit);
    assert dt * (speed - e) >= 0.0;
    assert limit != 0.0 ==> dt * (limit - e) >= 0.0;
  }

  /** A new task: destination and path set, MOVING from the start of the lane, whatever the prior status. */
  function TaskAssigned(s: RobotState, destination: int, path: seq<int>): (r: RobotState)
    ensures r.status == Moving && r.destination == Some(destination) && r.path == path && r.progress == 0.0
    ensures r.current == s.current && r.previous == s.previous && r.speed == s.speed
  {
    s.(destination := Some(destination), path := path, status := Moving, progress := 0.0)
  }

  /** Charging starts only from IDLE; any other status is left as it is. */
  function ChargeStarted(s: RobotState): (r: RobotState)
    ensures s.status == Idle ==> r == s.(status := Charging)
    ensures s.status != Idle ==> r == s
  {
    if s.status == Idle then s.(status := Charging) else s
  }

  /** Charging stops only from CHARGING; any other status is left as it is. */
  function ChargeStopped(s: RobotState): (r: RobotState)
    ensures s.status == Charging ==> r == s.(status := Idle)
    ensures s.status != Charging ==> r == s
  {
    if s.status == Charging then s.(status := Idle) else s
  }

  /** Starting and then stopping to charge returns an idle robot to exactly where it was. */
  lemma ChargeRoundTrip(s: RobotState)
    ensures s.status == Idle ==> ChargeStopped(ChargeStarted(s)) == s
    ensures s.status != Idle && s.status != Charging ==> ChargeStopped(ChargeStarted(s)) == s && ChargeStarted(ChargeStopped(s)) == s
  {
  }

  /**
   * One kinematic step of `dt` seconds on a lane of length `edgeLength` with speed limit `limit`.
   * The robot covers dt times its effective speed; when that reaches the rest of the lane it snaps
   * onto the next vertex (the path itself is not shortened here), otherwise it advances its
   * fractional progress. Only a MOVING robot with a path moves; the flag says whether it did.
   */
  function Advance(s: RobotState, limit: real, edgeLength: real, dt: real): (r: (RobotState, bool))
    requires dt >= 0.0 && s.speed >= 0.0 && limit >= 0.0 && edgeLength >= 0.0
    requires 0.0 <= s.progress < 1.0
    ensures !(s.status == Moving && s.path != []) ==> r == (s, false)
    ensures s.status == Moving && s.path != [] ==>
              && r.1
              && r.0.path == s.path && r.0.status == s.status && r.0.destination == s.destination
              && r.0.speed == s.speed
    ensures 0.0 <= r.0.progress < 1.0
    ensures r.0.current != s.current ==> r.0.current == s.path[0] && r.0.progress == 0.0
    ensures s.status == Moving && s.path != [] && edgeLength == 0.0 ==>
              r.0.current == s.path[0] && r.0.previous == Some(s.current) && r.0.progress == 0.0
  {
    if s.status != Moving || s.path == [] then (s, false)
    else
      var distance := StepDistance(dt, s.speed, limit);
      var remaining := (1.0 - s.progress) * edgeLength;
      if distance >= remaining then
        (s.(previous := Some(s.current), current := s.path[0], progress := 0.0), true)
      else
        (s.(progress := NextProgress(s.progress, distance, edgeLength)), true)
  }

  /**
   * The progress after covering `distance` on a lane of length `edgeLength`, when that is less than
   * the rest of the lane: the fraction grows by exactly the distance in lane lengths and stays below 1.
   */
  function NextProgress(progress: real, distance: real, edgeLength: real): (p: real)
    requires 0.0 <= progress < 1.0 && edgeLength >= 0.0
    requires 0.0 <= distance < (1.0 - progress) * edgeLength
    ensures progress <= p < 1.0
    ensures (p - progress) * edgeLength == distance
  {
    var rest := 1.0 - progress;
    assert rest * edgeLength > 0.0;
    var q := distance / edgeLength;
    assert q * edgeLength == distance;
    assert (rest - q) * edgeLength > 0.0;
    progress + q
  }

  /**
   * The step either reaches the next vertex, or stays on the lane having advanced its progress by
   * exactly the distance covered, measured in lane lengths.
   */
  lemma AdvanceCases(s: RobotState, limit: real, edgeLength: real, dt: real)
    requires dt >= 0.0 && s.speed >= 0.0 && limit >= 0.0 && edgeLength >= 0.0
    requires 0.0 <= s.progress < 1.0
    requires s.status == Moving && s.path != []
    ensures var r := Advance(s, limit, edgeLength, dt).0;
            var covered := StepDistance(dt, s.speed, limit);
            || (covered >= (1.0 - s.progress) * edgeLength
                && r == s.(previous := Some(s.current), current := s.path[0], progress := 0.0))
            || (covered < (1.0 - s.progress) * edgeLength
                && r.current == s.current && r.previous == s.previous
                && (r.progress - s.progress) * edgeLength == covered)
  {
    var covered := StepDistance(dt, s.speed, limit);
    if covered < (1.0 - s.progress) * edgeLength {
      var r := Advance(s, limit, edgeLength, dt).0;
      assert r.progress == NextProgress(s.progress, covered, edgeLength);
    }
  }

  /**
   * The interpolated position of a robot partway along the lane from `from` to `to`: the start at
   * progress 0, and on the straight segment between the two in general.
   */
  function Interpolate(source: (real, real), target: (real, real), progress: real): (p: (real, real))
    requires 0.0 <= progress <= 1.0
    ensures progress == 0.0 ==> p == source
    ensures progress == 1.0 ==> p == target
    ensures (source.0 <= p.0 <= target.0) || (target.0 <= p.0 <= source.0)
    ensures (source.1 <= p.1 <= target.1) || (target.1 <= p.1 <= source.1)
  {
    var x := Lerp(source.0, target.0, progress);
    var y := Lerp(source.1, target.1, progress);
    (x, y)
  }

  function Lerp(a: real, b: real, t: real): (x: real)
    requires 0.0 <= t <= 1.0
    ensures t == 0.0 ==> x == a
    ensures t == 1.0 ==> x == b
    ensures (a <= x <= b) || (b <= x <= a)
  {
    Between(a, b, t);
    a + (b - a) * t
  }
  lemma Between(a: real, b: real, t: real)
    requires 0.0 <= t <= 1.0
    ensures (a <= a + (b - a) * t <= b) || (b <= a + (b - a) * t <= a)
  {
    var c := b - a;
    if c >= 0.0 {
      ScaleBounds(c, t);
      assert a <= a + c * t <= b;
    } else {
      ScaleBounds(-c, t);
      assert c * t == -((-c) * t);
      assert b <= a + c * t <= a;
    }
  }

  lemma ScaleBounds(c: real, t: real)
    requires c >= 0.0 && 0.0 <= t <= 1.0
    ensures 0.0 <= c * t <= c
  {
    assert c * (1.0 - t) >= 0.0;
  }

  /** Every vertex of `p` is a vertex of the graph (positions are looked up for them). */
  ghost predicate PathInRange(g: NavGraph, p: seq<int>) {
    forall i :: 0 <= i < |p| ==> 0 <= p[i] < |g.vertices|
  }

  /** The robot stands on a vertex, its path lists vertices, its speed is non-negative and its progress a fraction. */
  ghost predicate StateOk(g: NavGraph, s: RobotState) {
    && 0 <= s.current < |g.vertices|
    && PathInRange(g, s.path)
    && s.speed >= 0.0
    && 0.0 <= s.progress < 1.0
  }

  class Robot {
    const id: nat
    const graph: NavGraph
    /** The display colour, fixed by the id. */
    const color: string := GenerateColor(id)
    var currentVertex: int
    var previousVertex: Option<int>
    var destinationVertex: Option<int>
    var path: seq<int>
    var status: RobotStatus
    var speed: real
    var progress: real

    function State(): RobotState
      reads this
    {
      RobotState(currentVertex, previousVertex, destinationVertex, path, status, speed, progress)
    }

    /** The graph is well formed and the robot's state fits it. */
    ghost predicate Valid()
      reads this
    {
      graph.Valid() && StateOk(graph, State())
    }

    constructor (id: nat, start: int, graph: NavGraph)
      requires graph.Valid() && 0 <= start < |graph.vertices|
      ensures Valid()
      ensures this.id == id && this.graph == graph && color == GenerateColor(id) && color in Palette
      ensures State() == InitialState(start)
    {
      this.id := id;
      this.graph := graph;
      currentVertex := start;
      previousVertex := None;
      destinationVertex := None;
      path := [];
      status := Idle;
      speed := 1.0;
      progress := 0.0;
    }

    method AssignTask(destination: int, path: seq<int>)
      requires Valid() && PathInRange(graph, path)
      modifies this
      ensures Valid()
      ensures State() == TaskAssigned(old(State()), destination, path)
    {
      destinationVertex := Some(destination);
      this.path := path;
      status := Moving;
      progress := 0.0;
    }

    /**
     * The length of the lane to the next vertex of the path, 0 when the path is empty. The original
     * computes the Euclidean distance of the two positions; the graph supplies it here.
     */
    function DistanceToNext(): (d: real)
      requires graph.Valid()
      reads this
      ensures d >= 0.0
      ensures path == [] ==> d == 0.0
      ensures path != [] && 0 <= currentVertex < |graph.vertices| && 0 <= path[0] < |graph.vertices| ==>
                (d == 0.0 <==> graph.GetVertexPosition(currentVertex) == graph.GetVertexPosition(path[0]))
    {
      if path == [] then 0.0 else graph.EdgeLength(currentVertex, path[0])
    }

    /** The step of `dt` seconds on the lane to the next vertex of the path; true when the robot moved. */
    method UpdatePosition(dt: real) returns (moved: bool)
      requires Valid() && dt >= 0.0
      modifies this
      ensures Valid()
      ensures (State(), moved) ==
              Advance(old(State()), graph.GetLaneSpeedLimit(old(currentVertex), if old(path) == [] then 0 else old(path)[0]),
                      old(DistanceToNext()), dt)
    {
      if status != Moving || path == [] {
        return false;
      }
      ghost var before := State();
      var next := path[0];
      var limit := graph.GetLaneSpeedLimit(currentVertex, next);
      var distance := StepDistance(dt, speed, limit);
      var edgeLength := DistanceToNext();
      if distance >= (1.0 - progress) * edgeLength {
        previousVertex := Some(currentVertex);
        currentVertex := next;
        progress := 0.0;
        assert Advance(before, limit, edgeLength, dt) == (State(), true);
      } else {
        progress := NextProgress(progress, distance, edgeLength);
        assert Advance(before, limit, edgeLength, dt) == (State(), true);
      }
      return true;
    }

    /** The robot's position: its vertex when it has no path or has completed, else on the lane ahead. */
    function GetPosition(): (p: (real, real))
      requires Valid()
      reads this
      ensures path == [] || status == TaskComplete ==> p == graph.GetVertexPosition(currentVertex)
      ensures path != [] && status != TaskComplete ==>
                p == Interpolate(graph.GetVertexPosition(currentVertex), graph.GetVertexPosition(path[0]), progress)
    {
      if path == [] || status == TaskComplete then graph.GetVertexPosition(currentVertex)
      else Interpolate(graph.GetVertexPosition(currentVertex), graph.GetVertexPosition(path[0]), progress)
    }

    method Charge()
      requires Valid()
      modifies this
      ensures Valid()
      ensures State() == ChargeStarted(old(State()))
    {
      if status == Idle {
        status := Charging;
      }
    }

    method StopCharging()
      requires Valid()
      modifies this
      ensures Valid()
      ensures State() == ChargeStopped(old(State()))
    {
      if status == Charging {
        status := Idle;
      }
    }
  }
}
