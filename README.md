# Fleet traffic routing, modelled in Dafny

This project models the routing and movement engine of a multi-robot fleet simulator. Robots
drive along the lanes of a navigation graph. A traffic manager grants each vertex and each lane to
at most one robot at a time. The fleet manager runs two passes on every tick: it moves robots and
then replans for blocked ones. The model follows the original Python classes one by one:

- `NavGraph` (module `NavGraphs`, with the lane-derived tables in `GraphData` and the walk and
  breadth-first-search theory in `Walks`). The constructor builds the adjacency lists and the lane
  property table in loops. There are attribute accessors, and the shortest-path search is a
  breadth-first search that avoids occupied vertices. It is proved to return a shortest path, or
  None exactly when no walk exists.
- `TrafficManager` (module `Traffic`). This is a class with two maps, lane to holder and vertex
  to holder. Requests and releases are specified by the map functions `Acquire` and `Release`, and
  the lemmas cover grant and deny, idempotence, mutual exclusion and the release round trip.
- `Robot` (module `Robots`). This is a class whose methods are proved against value-level state
  functions. The state machine covers IDLE, MOVING, WAITING, CHARGING and TASK_COMPLETE. The
  kinematic step works over reals: the speed is capped by the lane limit, the robot snaps onto the
  next vertex when the step covers the rest of the edge, and otherwise it accumulates progress.
- `FleetManager` (module `FleetManagement`). This is a class over the traffic manager, a map of
  robots, their insertion order and the next id. The abstract fleet state `Model()` holds the robot
  states, the order, the next id and the ledger. The public operations (`SpawnRobot`, `AssignTask`,
  `UpdateRobots`) and the helpers `MoveRobots`, `RecoverWaitingRobots` and `ProcessMovement` are
  proved to turn `Model()` into the result of a function in module `Fleet`. `CheckWaitingRobot`
  replaces the robot's entry in `Model()` by `Fleet.Recover` of it.
  `CanMoveTo` and `HandleVertexReached` are proved against `Fleet.CanMoveTo` and
  `Fleet.VertexReached` on the ledger and the robot's own state. `StartTask` is proved against
  `TaskAssigned` on the robot's state and `Release` on the ledger. Module `FleetProperties` proves the fleet
  invariant for those functions and the facts about the two passes.
- `validate_nav_graph` (module `Helpers`). This is a pure check over a JSON datatype. It follows
  Python's meaning of `in`, indexing, `len` and slicing, so the check either answers or raises.

Positions, speeds, progress and time are `real`. The Euclidean edge length is a given function
`distance`. It is non-negative and symmetric, and it is zero exactly when the two vertices share a
position. Robot ids are `nat`.

## Model

| member | source | states |
|---|---|---|
| GraphData.AdjacencyOf | src/models/nav_graph.py:20-25 | there is one adjacency list per vertex, and every listed neighbour is a vertex index |
| GraphData.AdjacencyMatchesLanes | src/models/nav_graph.py:20-25 | `v` is listed for `u` exactly when some lane joins `u` and `v` in either direction |
| GraphData.AdjacencySymmetric | src/models/nav_graph.py:23-24 | `v` is a neighbour of `u` if and only if `u` is a neighbour of `v` |
| GraphData.LanePropertiesOf | src/models/nav_graph.py:27-34 | with non-negative lane limits, every stored speed limit is non-negative (absent counts as 0) |
| GraphData.LanePropertiesKeys | src/models/nav_graph.py:29-33 | the pair `(x, y)` has properties exactly when some lane joins `x` and `y` in either direction |
| GraphData.LanePropertiesSymmetric | src/models/nav_graph.py:32-33 | the properties are stored under both orders of a pair, and both entries are the same |
| GraphData.LanePropertiesLastWins | src/models/nav_graph.py:29-33 | the properties of a pair are those of the last lane on that pair |
| GraphData.Decimal | src/models/nav_graph.py:40 | the decimal numeral is non-empty and all digits; it starts with 0 only for 0, which is the single digit "0" |
| GraphData.DecimalRoundTrip | src/models/nav_graph.py:40 | reading the numeral back gives the number |
| NavGraphs.BuildAdjacencyList | src/models/nav_graph.py:20-25 | the loop that appends both endpoints of every lane yields `AdjacencyOf` |
| NavGraphs.ExtractLaneProperties | src/models/nav_graph.py:27-34 | the loop that stores each lane's properties under both orders yields `LanePropertiesOf` |
| NavGraphs.NavGraph.constructor | src/models/nav_graph.py:17-18 | the graph keeps its vertices and lanes, and its tables are those the lanes determine |
| NavGraphs.NavGraph.EdgeLength | src/models/robot.py:67-74 | the edge length is non-negative and symmetric, and zero exactly when the two positions coincide |
| NavGraphs.NavGraph.GetVertexName | src/models/nav_graph.py:39-40 | the name attribute if present, otherwise "V" followed by the index in decimal, with no leading zero (index 0 gives "V0") |
| NavGraphs.NavGraph.GetVertexPosition | src/models/nav_graph.py:36-37 | the position is the x and y entries of the vertex record |
| NavGraphs.NavGraph.IsCharger | src/models/nav_graph.py:42-43 | true exactly when the vertex's `is_charger` attribute is true (absent means false) |
| NavGraphs.NavGraph.GetLaneSpeedLimit | src/models/nav_graph.py:45-46 | the limit looked up is never negative |
| NavGraphs.NavGraph.SpeedLimitLookup | src/models/nav_graph.py:45-46 | the lookup is direction-symmetric, is 0 for a pair no lane joins, and is otherwise the last lane's limit (0 when it has none) |
| NavGraphs.NavGraph.AdjacencyFacts | src/models/nav_graph.py:20-25 | the graph's adjacency is symmetric and lists exactly the lane-joined pairs |
| NavGraphs.NavGraph.FindShortestPath | src/models/nav_graph.py:48-74 | `[start]` when start equals end; otherwise a walk with no repeated vertex that avoids occupied vertices after the start and is no longer than any other such walk, or None exactly when no such walk exists |
| NavGraphs.NavGraph.ExpandNeighbours | src/models/nav_graph.py:58-73 | expanding the dequeued vertex either finds a shortest path, or keeps the search invariant with that vertex done and `end` still unvisited |
| NavGraphs.NavGraph.VisitNeighbour | src/models/nav_graph.py:61-73 | a free, unvisited neighbour is visited at distance one more than its parent; reaching `end` returns a shortest path |
| NavGraphs.TracePath | src/models/nav_graph.py:69-73 | following the parent links back from `end` gives a walk from the start with no repeats, of length distance + 1 |
| Walks.OccupiedEnd | src/models/nav_graph.py:61-73 | an occupied destination other than the start is unreachable even from a neighbour, so the search answers None |
| Walks.ExhaustedSearch | src/models/nav_graph.py:57-74 | once the queue is empty, every vertex some walk reaches has been visited, so None is right |
| Walks.LowerBound | src/models/nav_graph.py:57-66 | while `end` is unvisited, every walk to it has at least two more vertices than the distance at the head of the queue |
| Walks.WalkInRange | src/models/nav_graph.py:60 | every vertex of a walk from a vertex index is a vertex index |
| Traffic.NormalizeLane | src/controllers/traffic_manager.py:38-39 | the key is the pair itself or its reverse, smaller endpoint first |
| Traffic.NormalizeSymmetric | src/controllers/traffic_manager.py:38-39 | both directions of a lane give the same key, and the key keeps the given order exactly when it is ascending |
| Traffic.Acquire | src/controllers/traffic_manager.py:21-27 | granted exactly when the key is free or already the caller's; once granted the key is the caller's; no other entry changes, and a denied request changes nothing |
| Traffic.Release | src/controllers/traffic_manager.py:34-36 | afterwards the caller does not hold the key, and no other entry changes; a key held by another robot stays |
| Traffic.AcquireIdempotent | src/controllers/traffic_manager.py:21-27 | repeating a granted request is granted and changes nothing |
| Traffic.AcquireReleaseRoundTrip | src/controllers/traffic_manager.py:21-36 | acquiring a free key and releasing it restores the map |
| Traffic.MutualExclusion | src/controllers/traffic_manager.py:22-26 | after one robot is granted a key, a request by any other robot is denied |
| Traffic.TrafficManager.constructor | src/controllers/traffic_manager.py:5-9 | both occupancy maps start empty |
| Traffic.TrafficManager.RequestLane | src/controllers/traffic_manager.py:11-19 | the lane map changes as `Acquire` on the normalised key says, and the vertex map does not change |
| Traffic.TrafficManager.RequestVertex | src/controllers/traffic_manager.py:21-27 | the vertex map changes as `Acquire` says, and the lane map does not change |
| Traffic.TrafficManager.ReleaseLane | src/controllers/traffic_manager.py:29-32 | the lane map changes as `Release` on the normalised key says, and the vertex map does not change |
| Traffic.TrafficManager.ReleaseVertex | src/controllers/traffic_manager.py:34-36 | the vertex map changes as `Release` says, and the lane map does not change |
| Traffic.TrafficManager.GetOccupiedLanes | src/controllers/traffic_manager.py:41-42 | exactly the held lane keys, each normalised |
| Traffic.TrafficManager.GetOccupiedVertices | src/controllers/traffic_manager.py:44-45 | exactly the held vertices |
| Robots.StatusName | src/models/robot.py:7-12 | the status name is an upper-case identifier |
| Robots.StatusNamesDistinct | src/models/robot.py:7-12 | different statuses have different names |
| Robots.GenerateColor | src/models/robot.py:28-32 | the colour is a palette entry: seven characters starting with `#` |
| Robots.PaletteDistinct | src/models/robot.py:30-31 | the ten palette colours are pairwise different |
| Robots.ColorCycle | src/models/robot.py:32 | colours repeat every ten ids, and any ten consecutive ids get different colours |
| Robots.InitialState | src/models/robot.py:15-23 | a new robot is IDLE at its start with an empty path, no previous vertex or destination, speed 1 and progress 0 |
| Robots.EffectiveSpeed | src/models/robot.py:49-50 | the nominal speed when the limit is 0, otherwise the smaller of the nominal speed and the limit |
| Robots.StepDistance | src/models/robot.py:52 | the distance covered in one step is non-negative |
| Robots.StepDistanceBounds | src/models/robot.py:49-52 | the step covers no more than time × speed and no more than time × limit when a limit applies, and exactly time × speed without a limit |
| Robots.TaskAssigned | src/models/robot.py:34-38 | from any status the robot is MOVING along the new path towards the destination with progress 0, and its position and speed are kept |
| Robots.ChargeStarted | src/models/robot.py:88-91 | only IDLE becomes CHARGING; any other state is unchanged |
| Robots.ChargeStopped | src/models/robot.py:93-96 | only CHARGING becomes IDLE; any other state is unchanged |
| Robots.ChargeRoundTrip | src/models/robot.py:88-96 | stopping after starting restores an idle robot, and both are no-ops in the other states |
| Robots.Advance | src/models/robot.py:41-65 | does nothing and reports no move unless MOVING with a path; progress stays in [0,1); a changed vertex is the path head with progress 0; a zero-length edge always snaps; the path is never popped |
| Robots.NextProgress | src/models/robot.py:62-64 | the new progress stays below 1 and grows by exactly distance / edge length |
| Robots.AdvanceCases | src/models/robot.py:52-65 | a step that covers the rest of the edge snaps to the head (previous ← current, progress 0); otherwise the vertices stay and progress grows by exactly the covered fraction |
| Robots.Interpolate | src/models/robot.py:84-85 | progress 0 gives the source position, progress 1 gives the target, and each coordinate lies between its two endpoints |
| Robots.Lerp | src/models/robot.py:84-85 | progress 0 gives `a`, progress 1 gives `b`, and the value lies between `a` and `b` |
| Robots.Robot.constructor | src/models/robot.py:15-26 | the robot keeps its id and graph, its colour is the palette entry for its id, and its state is `InitialState` |
| Robots.Robot.AssignTask | src/models/robot.py:34-39 | the new state is `TaskAssigned` of the old one |
| Robots.Robot.DistanceToNext | src/models/robot.py:67-74 | 0 without a path; otherwise non-negative and zero exactly when the two vertex positions coincide |
| Robots.Robot.UpdatePosition | src/models/robot.py:41-65 | the new state and the answer are `Advance` of the old state, with the lane's speed limit and the edge length |
| Robots.Robot.GetPosition | src/models/robot.py:76-86 | the vertex position when the path is empty or the task is complete, otherwise the interpolation towards the path head |
| Robots.Robot.Charge | src/models/robot.py:88-91 | the new state is `ChargeStarted` of the old one |
| Robots.Robot.StopCharging | src/models/robot.py:93-96 | the new state is `ChargeStopped` of the old one |
| Fleet.CanMoveTo | src/controllers/fleet_manager.py:83-97 | staying put is allowed and touches nothing; otherwise allowed exactly when the vertex and the lane are both free or the robot's own; a denied vertex changes nothing; a granted vertex stays held even when the lane is refused; no other robot's holds change |
| Fleet.VertexReached | src/controllers/fleet_manager.py:99-111 | the path head is dropped; the robot no longer holds the previous vertex or the lane it came along; an emptied path makes it TASK_COMPLETE without a hold on its vertex; it keeps every other hold of its own, including the vertex just reached while the path goes on; only its own holds change |
| Fleet.ProcessMovement | src/controllers/fleet_manager.py:71-81 | only this robot and its own holds change; a blocked robot becomes WAITING with position and path unchanged; a completed robot does not hold the vertex it stands on; the state still fits the graph |
| Fleet.MovementPass | src/controllers/fleet_manager.py:62-64 | the pass keeps every robot's state within the graph and keeps the ids, the order and the next id |
| Fleet.Recover | src/controllers/fleet_manager.py:122-124 | a non-empty new path replaces the path and makes the robot MOVING; otherwise nothing changes |
| Fleet.RecoveryPass | src/controllers/fleet_manager.py:66-69 | the pass changes no ledger entry, id, order or next id |
| Fleet.Tick | src/controllers/fleet_manager.py:59-69 | one update is the movement pass followed by the recovery pass; it keeps the ids, the order and the next id, and the ledger is as the movement pass left it |
| Fleet.Spawn | src/controllers/fleet_manager.py:15-29 | refused without change for a non-vertex or a vertex held by another robot; otherwise the new robot gets the next id, which then advances, and it holds its vertex and is IDLE there |
| Fleet.AssignTask | src/controllers/fleet_manager.py:31-57 | accepted exactly for a known, non-charging robot with a path found; a refusal changes nothing; on success the robot is MOVING along the path and gives up its vertex exactly when the path has more than one vertex |
| FleetProperties.InitialInv | src/controllers/fleet_manager.py:8-13 | the empty fleet satisfies the fleet invariant |
| FleetProperties.SpawnProperties | src/controllers/fleet_manager.py:15-29 | a spawn succeeds exactly for a free vertex of the graph, and it keeps the fleet invariant |
| FleetProperties.AssignTaskProperties | src/controllers/fleet_manager.py:53-57 | assignment keeps the invariant, and after success the robot still holds its vertex exactly when the path is that one vertex |
| FleetProperties.ProcessMovementInv | src/controllers/fleet_manager.py:71-81 | one robot's movement keeps the fleet invariant (holders are ids below the next id, lane keys are normalised, states fit the graph) |
| FleetProperties.LaneKeyOrigin | src/controllers/fleet_manager.py:93-95 | the only lane key a movement can add is the one for the lane towards the path head |
| FleetProperties.MovementPassInv | src/controllers/fleet_manager.py:62-64 | the movement pass keeps the fleet invariant |
| FleetProperties.MovementPassLeavesOthers | src/controllers/fleet_manager.py:62-64 | a robot that is not MOVING with a path keeps its state and its holds through the movement pass |
| FleetProperties.RecoveryPassPointwise | src/controllers/fleet_manager.py:66-69 | after the recovery pass each robot is `Recover` of its state with its own plan when it was WAITING with a path, and unchanged otherwise |
| FleetProperties.RecoveryPassIgnoresOtherPlans | src/controllers/fleet_manager.py:66-69 | the plan recorded for a robot not waiting with a path has no effect |
| FleetProperties.RecoveryPassPointwiseAny | src/controllers/fleet_manager.py:66-69 | a robot not waiting with a path is untouched by the recovery pass and still not ready for it afterwards |
| FleetProperties.RecoveryPassUnlisted | src/controllers/fleet_manager.py:66-69 | plans of robots outside the iterated ids have no effect |
| FleetProperties.RecoveryStep | src/controllers/fleet_manager.py:66-69 | one more robot in the pass is handled with the plan computed for it, and earlier robots do not change it |
| FleetProperties.RecoverInv | src/controllers/fleet_manager.py:113-125 | replanning one robot with an in-range path keeps the fleet invariant |
| FleetProperties.RecoveryPassInv | src/controllers/fleet_manager.py:66-69 | the recovery pass keeps the fleet invariant |
| FleetManagement.BlockedRobotResumes | src/controllers/fleet_manager.py:59-69 | a robot the movement pass leaves WAITING, whose destination is reachable around the held vertices, ends the same update MOVING along its new plan |
| FleetManagement.CoverNext | src/controllers/fleet_manager.py:66-69 | one more step of the recovery loop keeps every WAITING robot with a path seen so far covered by a plan |
| FleetProperties.SameTickRecovery | src/controllers/fleet_manager.py:59-69 | a robot left WAITING by the movement pass is replanned in the same tick; with a path found it is MOVING along it with position and progress kept, and without one it stays as the movement pass left it |
| FleetProperties.TickInv | src/controllers/fleet_manager.py:59-69 | a whole tick keeps the fleet invariant |
| FleetManagement.FleetManager.constructor | src/controllers/fleet_manager.py:8-13 | no robots, id 0 next, and an empty ledger |
| FleetManagement.FleetManager.SpawnRobot | src/controllers/fleet_manager.py:15-29 | the returned robot's id and the new fleet are those of `Spawn`, the new robot is fresh, and the invariant holds |
| FleetManagement.FleetManager.AssignTask | src/controllers/fleet_manager.py:31-57 | the answer and the new fleet are those of `Fleet.AssignTask` for a path that is a shortest path (or None when there is none) against the vertices held at call time |
| FleetManagement.FleetManager.StartTask | src/controllers/fleet_manager.py:53-57 | the robot's vertex is released exactly when the path has more than one vertex, and then the robot takes the task |
| FleetManagement.FleetManager.UpdateRobots | src/controllers/fleet_manager.py:59-69 | the new fleet is the movement pass followed by the recovery pass in insertion order; every replanning is a shortest-path search against the holds left by the movement pass, and every robot the movement pass leaves WAITING with a path gets one |
| FleetManagement.FleetManager.MoveRobots | src/controllers/fleet_manager.py:62-64 | the loop over the insertion order yields `MovementPass` |
| FleetManagement.FleetManager.RecoverWaitingRobots | src/controllers/fleet_manager.py:66-69 | the loop over the insertion order yields `RecoveryPass`, and each plan is searched against the holds at that time; every robot WAITING with a path at the start of the pass gets a plan |
| FleetManagement.FleetManager.ProcessMovement | src/controllers/fleet_manager.py:71-81 | the new fleet is `Fleet.ProcessMovement` of the old one |
| FleetManagement.FleetManager.CanMoveTo | src/controllers/fleet_manager.py:83-97 | the answer and the new ledger are those of `Fleet.CanMoveTo` |
| FleetManagement.FleetManager.HandleVertexReached | src/controllers/fleet_manager.py:99-111 | the new robot state and ledger are those of `VertexReached` |
| FleetManagement.FleetManager.CheckWaitingRobot | src/controllers/fleet_manager.py:113-125 | the plan is a shortest-path search from the robot's vertex to its destination against the current holds, and the robot becomes `Recover` with it |
| FleetManagement.FleetManager.GetRobotStatus | src/controllers/fleet_manager.py:127-130 | the status name of a known robot, None for an unknown id |
| FleetManagement.FleetManager.GetRobotPosition | src/controllers/fleet_manager.py:132-135 | None for an unknown id; otherwise the vertex position when the path is empty or the task is complete, else the interpolated position |
| FleetManagement.FleetManager.GetRobotColor | src/controllers/fleet_manager.py:137-140 | None for an unknown id; otherwise the palette colour for the id |
| FleetManagement.FleetManager.GetBlockedLanes | src/controllers/fleet_manager.py:142-143 | exactly the held lane keys, each normalised |
| FleetManagement.FleetManager.GetBlockedVertices | src/controllers/fleet_manager.py:145-146 | exactly the held vertices |
| Helpers.CheckLane | src/utils/helpers.py:35-36 | a lane passes exactly when it is a list whose first two entries are integers (booleans included); it raises exactly for a value without a length or a dict of two or more keys |
| Helpers.CheckLanes | src/utils/helpers.py:34-36 | all lanes pass exactly when each is good, and otherwise the first lane that is not good decides the outcome |
| Helpers.LanesAnswer | src/utils/helpers.py:34-36 | the lane loop raises exactly when the first lane that is not good is one that raises |
| Helpers.ValidateLevel | src/utils/helpers.py:24-38 | false for a dict without "vertices" or "lanes" or where either is not a list; otherwise the lane loop decides; true exactly for good level data |
| Helpers.ValidateNavGraph | src/utils/helpers.py:13-38 | with "levels", false unless it is a dict with "level1", which is then checked; without it, the document itself is checked; true exactly for a well-structured document |

## Left out

- File and JSON loading in the graph constructor (src/models/nav_graph.py:5-15) is not modelled, and neither are `load_nav_graph` or `setup_logging`. The graph is built from in-memory vertex and lane lists.
- Logging calls are not modelled; they have no effect on behaviour. The GUI, including its command handlers, and `main.py` are also left out. The handlers are robot removal, pause and resume, the charge toggle and the speed slider.
- `math.sqrt` is not modelled. The edge length is a given non-negative, symmetric function that is zero exactly for vertices at the same position. IEEE floating point is replaced by exact reals.
- NavGraphs.NavGraph.constructor requires every lane endpoint to be a vertex index. The original raises a `KeyError` while building the adjacency lists in that case. The constructor also requires non-negative speed limits.
- Lane property bags keep only the speed limit, and vertex attribute bags keep only the name and the charger flag. The other attributes are never read by the core.
- NavGraphs.NavGraph.FindShortestPath promises some shortest path, not the one the adjacency order picks. Among equally short paths, the tie-break of first discovery is not specified.
- Robots.Advance requires a non-negative time step, speed and lane limit. Robots.Robot.UpdatePosition and FleetManagement.FleetManager.UpdateRobots carry the same requirement on the time step. The original accepts any float.
- Traffic.TrafficManager.GetOccupiedLanes and Traffic.TrafficManager.GetOccupiedVertices return sets. The lists of the original follow dictionary insertion order, which the sets do not keep. The same holds for the fleet's blocked-lane and blocked-vertex getters.
- FleetManagement.FleetManager.CheckWaitingRobot gives a robot without a destination no new path. The original runs the search with `None` as the target, and that search finds nothing. A waiting robot with a path always has a destination anyway.
- FleetManagement.FleetManager.AssignTask, UpdateRobots and CheckWaitingRobot return the computed paths only as ghost plans.
- Python dictionary iteration over `robots` is the `order` sequence of ids in insertion order. The original iterates over a snapshot of the values, and no robot is added or removed during a pass.
- The original runs `update_robots` as one method. Here it is split into the movement loop `MoveRobots` and the recovery loop `RecoverWaitingRobots`. The release-then-assign step of `assign_task` is the helper `StartTask`.
- Helpers.ValidateNavGraph and the helpers below it report only that an exception is raised, not which one.

## Behaviour worth noting

- **Completion.** One might expect a robot that finishes its task to keep its final vertex reserved. The code instead releases it when the path empties (src/controllers/fleet_manager.py:109-111). So a completed robot does not hold the vertex it stands on, which `Fleet.ProcessMovement` states.
- **First tick.** The path a search returns starts at the robot's own vertex. The first tick after an assignment is therefore a "stay" snap onto that same vertex, which pops the path head without moving. A robot sent along a line of three vertices thus needs at least three ticks to become TASK_COMPLETE, one more than the number of edges it crosses. It needs exactly three only when every step covers a whole edge; a shorter step accumulates progress over further ticks (src/models/robot.py:52-65).
