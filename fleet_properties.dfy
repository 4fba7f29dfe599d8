/**
 * What the fleet operations keep and guarantee: the fleet invariant (ids and ledger holders below
 * the next id, insertion order listing each robot once, normalised lane keys, robot states that fit
 * the graph), and the facts about the two passes of an update.
 */
module FleetProperties {
  import opened Wrappers
  import opened NavGraphs
  import opened Traffic
  import opened Robots
  import opened Fleet

  /** Every holder in a ledger map is an id already handed out. */
  ghost predicate HoldersBelow<K(!new)>(holders: map<K, RobotId>, next: RobotId) {
    forall k :: k in holders ==> holders[k] < next
  }

  ghost predicate Distinct(ids: seq<RobotId>) {
    forall i, j :: 0 <= i < j < |ids| ==> ids[i] != ids[j]
  }

  /** The fleet invariant. */
  ghost predicate Inv(g: NavGraph, f: FleetState) {
    && RobotsOk(g, f)
    && Distinct(f.order)
    && (forall id :: id in f.robots <==> id in f.order)
    && (forall id :: id in f.robots ==> id < f.nextId)
    && HoldersBelow(f.ledger.vertices, f.nextId)
    && HoldersBelow(f.ledger.lanes, f.nextId)
    && NormalizedKeys(f.ledger.lanes)
  }

  /** The fleet the manager starts with: no robots, id 0 next, an empty ledger. */
  lemma InitialInv(g: NavGraph)
    ensures Inv(g, FleetState(map[], [], 0, Ledger(map[], map[])))
  {
  }

  /**
   * Under the invariant no vertex is held by the next id, so a spawn succeeds exactly when the
   * vertex exists and is free; it keeps the invariant.
   */
  lemma SpawnProperties(g: NavGraph, f: FleetState, v: int)
    requires Inv(g, f)
    ensures Spawn(g, f, v).0.Some? <==> 0 <= v < |g.vertices| && v !in f.ledger.vertices
    ensures Inv(g, Spawn(g, f, v).1)
  {
    var (id, f') := Spawn(g, f, v);
    if id.Some? {
      assert f.nextId !in f.order;
      assert Distinct(f'.order) by {
        forall i, j | 0 <= i < j < |f'.order| ensures f'.order[i] != f'.order[j] {
          if j == |f.order| {
            assert f'.order[i] == f.order[i];
          }
        }
      }
      assert forall id :: id in f'.robots <==> id in f'.order;
    }
  }

  /**
   * A granted task keeps the invariant, given a path of graph vertices; the robot gives up the
   * vertex it held exactly when the path has more than one vertex.
   */
  lemma AssignTaskProperties(g: NavGraph, f: FleetState, id: RobotId, destination: int, plan: Option<seq<int>>)
    requires Inv(g, f)
    requires plan.Some? ==> PathInRange(g, plan.value)
    ensures Inv(g, AssignTask(f, id, destination, plan).1)
    ensures var (ok, f') := AssignTask(f, id, destination, plan);
            ok && Holds(f.ledger.vertices, f.robots[id].current, id) ==>
              (Holds(f'.ledger.vertices, f.robots[id].current, id) <==> |plan.value| == 1)
  {
  }

  /** One robot's movement turn keeps the invariant. */
  lemma ProcessMovementInv(g: NavGraph, f: FleetState, id: RobotId, dt: real)
    requires g.Valid() && dt >= 0.0 && Inv(g, f) && ReadyToMove(f, id)
    ensures Inv(g, ProcessMovement(g, f, id, dt))
  {
    var r := ProcessMovement(g, f, id, dt);
    assert forall k :: k in r.ledger.vertices ==> r.ledger.vertices[k] < r.nextId by {
      forall k | k in r.ledger.vertices ensures r.ledger.vertices[k] < r.nextId {
        var holder := r.ledger.vertices[k];
        assert Holds(r.ledger.vertices, k, holder);
        if holder != id {
          assert Holds(f.ledger.vertices, k, holder);
        }
      }
    }
    assert forall k :: k in r.ledger.lanes ==> r.ledger.lanes[k] < r.nextId && k.0 <= k.1 by {
      forall k | k in r.ledger.lanes ensures r.ledger.lanes[k] < r.nextId && k.0 <= k.1 {
        var holder := r.ledger.lanes[k];
        assert Holds(r.ledger.lanes, k, holder);
        if holder != id {
          assert Holds(f.ledger.lanes, k, holder);
        } else {
          LaneKeyOrigin(g, f, id, dt, k);
        }
      }
    }
  }

  /** A lane the moving robot holds after its turn was held before or is the lane to the head of its path. */
  lemma LaneKeyOrigin(g: NavGraph, f: FleetState, id: RobotId, dt: real, k: (int, int))
    requires g.Valid() && dt >= 0.0 && ReadyToMove(f, id) && StateOk(g, f.robots[id])
    requires k in ProcessMovement(g, f, id, dt).ledger.lanes
    ensures k in f.ledger.lanes || k == NormalizeLane(f.robots[id].current, f.robots[id].path[0])
  {
    var s := f.robots[id];
    var (ok, l1) := CanMoveTo(f.ledger, id, s.current, s.path[0]);
    assert l1.lanes.Keys <= f.ledger.lanes.Keys + {NormalizeLane(s.current, s.path[0])};
  }

  /** The movement pass keeps the invariant. */
  lemma {:induction false} MovementPassInv(g: NavGraph, f: FleetState, ids: seq<RobotId>, dt: real)
    requires g.Valid() && dt >= 0.0 && Inv(g, f)
    ensures Inv(g, MovementPass(g, f, ids, dt))
    decreases |ids|
  {
    if ids != [] {
      var f1 := MovementPass(g, f, ids[..|ids| - 1], dt);
      MovementPassInv(g, f, ids[..|ids| - 1], dt);
      var id := ids[|ids| - 1];
      if ReadyToMove(f1, id) {
        ProcessMovementInv(g, f1, id, dt);
      }
    }
  }

  /**
   * A robot that is not MOVING with a path when the movement pass starts is left exactly as it is,
   * and so are all its ledger holds: the robots that move never take or release anything of its.
   */
  lemma {:induction false} MovementPassLeavesOthers(g: NavGraph, f: FleetState, ids: seq<RobotId>, dt: real, x: RobotId)
    requires g.Valid() && dt >= 0.0 && RobotsOk(g, f)
    requires x in f.robots && !ReadyToMove(f, x)
    ensures MovementPass(g, f, ids, dt).robots[x] == f.robots[x]
    ensures forall k :: Holds(f.ledger.vertices, k, x) <==> Holds(MovementPass(g, f, ids, dt).ledger.vertices, k, x)
    ensures forall k :: Holds(f.ledger.lanes, k, x) <==> Holds(MovementPass(g, f, ids, dt).ledger.lanes, k, x)
    decreases |ids|
  {
    if ids != [] {
      var f1 := MovementPass(g, f, ids[..|ids| - 1], dt);
      MovementPassLeavesOthers(g, f, ids[..|ids| - 1], dt, x);
      var id := ids[|ids| - 1];
      if ReadyToMove(f1, id) {
        assert id != x;
        var r := ProcessMovement(g, f1, id, dt);
        assert OthersKept(f1.ledger, r.ledger, id);
      }
    }
  }

  /**
   * With every id listed once, the recovery pass treats each robot on its own: a listed robot that
   * is WAITING with a path is replanned with its own plan, and every other robot is left as it is.
   */
  lemma {:induction false} RecoveryPassPointwise(f: FleetState, ids: seq<RobotId>, plans: map<RobotId, Option<seq<int>>>, x: RobotId)
    requires Distinct(ids) && x in f.robots
    ensures RecoveryPass(f, ids, plans).robots[x] ==
            if x in ids && ReadyToRecover(f, x) then Recover(f.robots[x], PlanOf(plans, x)) else f.robots[x]
    decreases |ids|
  {
    if ids != [] {
      var prefix := ids[..|ids| - 1];
      assert Distinct(prefix);
      RecoveryPassPointwise(f, prefix, plans, x);
      var id := ids[|ids| - 1];
      if id == x {
        assert x !in prefix;
      } else {
        assert x in ids <==> x in prefix;
      }
    }
  }

  /**
   * The recovery pass depends only on the plans of the robots it replans: changing the plan of a
   * robot that is not WAITING with a path changes nothing.
   */
  lemma {:induction false} RecoveryPassIgnoresOtherPlans(f: FleetState, ids: seq<RobotId>, plans: map<RobotId, Option<seq<int>>>,
                                                         x: RobotId, plan: Option<seq<int>>)
    requires !ReadyToRecover(f, x)
    ensures RecoveryPass(f, ids, plans[x := plan]) == RecoveryPass(f, ids, plans)
    decreases |ids|
  {
    if ids != [] {
      var prefix := ids[..|ids| - 1];
      RecoveryPassIgnoresOtherPlans(f, prefix, plans, x, plan);
      var f1 := RecoveryPass(f, prefix, plans);
      var id := ids[|ids| - 1];
      if id == x {
        RecoveryPassPointwiseAny(f, prefix, plans, x);
      }
    }
  }

  /** A robot that is not WAITING with a path stays that way through the recovery pass. */
  lemma {:induction false} RecoveryPassPointwiseAny(f: FleetState, ids: seq<RobotId>, plans: map<RobotId, Option<seq<int>>>, x: RobotId)
    requires !ReadyToRecover(f, x)
    ensures !ReadyToRecover(RecoveryPass(f, ids, plans), x)
    ensures x in f.robots ==> RecoveryPass(f, ids, plans).robots[x] == f.robots[x]
    decreases |ids|
  {
    if ids != [] {
      RecoveryPassPointwiseAny(f, ids[..|ids| - 1], plans, x);
    }
  }

  /** The recovery pass over `ids` never consults the plan of a robot that `ids` does not list. */
  lemma {:induction false} RecoveryPassUnlisted(f: FleetState, ids: seq<RobotId>, plans: map<RobotId, Option<seq<int>>>,
                                                x: RobotId, plan: Option<seq<int>>)
    requires x !in ids
    ensures RecoveryPass(f, ids, plans[x := plan]) == RecoveryPass(f, ids, plans)
    decreases |ids|
  {
    if ids != [] {
      var prefix := ids[..|ids| - 1];
      assert x !in prefix by {
        assert forall y :: y in prefix ==> y in ids;
      }
      RecoveryPassUnlisted(f, prefix, plans, x, plan);
    }
  }

  /**
   * One step of the recovery pass over a list of distinct ids: the robot `ids[i]` has not been
   * touched by the earlier steps, and it is replanned with the plan recorded for it exactly when it
   * is WAITING with a path at that point.
   */
  lemma RecoveryStep(f: FleetState, ids: seq<RobotId>, i: nat, plans: map<RobotId, Option<seq<int>>>, plan: Option<seq<int>>)
    requires Distinct(ids) && i < |ids|
    ensures var f1 := RecoveryPass(f, ids[..i], plans);
            var id := ids[i];
            && (id in f.robots ==> id in f1.robots && f1.robots[id] == f.robots[id])
            && RecoveryPass(f, ids[..i + 1], plans[id := plan]) ==
                 (if ReadyToRecover(f1, id) then f1.(robots := f1.robots[id := Recover(f1.robots[id], plan)]) else f1)
            && (!ReadyToRecover(f1, id) ==> RecoveryPass(f, ids[..i + 1], plans) == f1)
  {
    var id := ids[i];
    var prefix := ids[..i];
    assert ids[..i + 1][..i] == prefix;
    assert Distinct(prefix);
    assert id !in prefix;
    if id in f.robots {
      RecoveryPassPointwise(f, prefix, plans, id);
    }
    RecoveryPassUnlisted(f, prefix, plans, id, plan);
  }

  /** Replanning one waiting robot with a path of graph vertices keeps the invariant. */
  lemma RecoverInv(g: NavGraph, f: FleetState, id: RobotId, plan: Option<seq<int>>)
    requires Inv(g, f) && id in f.robots
    requires plan.Some? ==> PathInRange(g, plan.value)
    ensures Inv(g, f.(robots := f.robots[id := Recover(f.robots[id], plan)]))
  {
  }

  /** The recovery pass keeps the invariant, given plans that are paths of graph vertices. */
  lemma {:induction false} RecoveryPassInv(g: NavGraph, f: FleetState, ids: seq<RobotId>, plans: map<RobotId, Option<seq<int>>>)
    requires Inv(g, f)
    requires forall id :: id in plans && plans[id].Some? ==> PathInRange(g, plans[id].value)
    ensures Inv(g, RecoveryPass(f, ids, plans))
    decreases |ids|
  {
    if ids != [] {
      RecoveryPassInv(g, f, ids[..|ids| - 1], plans);
    }
  }

  /**
   * A robot that ends the movement pass WAITING with a path, for instance because it was blocked
   * in that pass, is replanned in the same update: with a plan it is MOVING along it, with its
   * position and progress unchanged; without one it stays as it is.
   */
  lemma SameTickRecovery(g: NavGraph, f: FleetState, dt: real, plans: map<RobotId, Option<seq<int>>>, id: RobotId)
    requires g.Valid() && dt >= 0.0 && Inv(g, f)
    requires ReadyToRecover(MovementPass(g, f, f.order, dt), id)
    ensures var moved := MovementPass(g, f, f.order, dt).robots[id];
            var r := Tick(g, f, dt, plans).robots[id];
            && (PlanOf(plans, id).Some? && PlanOf(plans, id).value != [] ==>
                  r.status == Moving && r.path == PlanOf(plans, id).value
                  && r.current == moved.current && r.progress == moved.progress)
            && (PlanOf(plans, id).None? ==> r == moved)
  {
    var moved := MovementPass(g, f, f.order, dt);
    assert id in f.order;
    RecoveryPassPointwise(moved, f.order, plans, id);
  }

  /** An update keeps the invariant, given replanned paths of graph vertices. */
  lemma TickInv(g: NavGraph, f: FleetState, dt: real, plans: map<RobotId, Option<seq<int>>>)
    requires g.Valid() && dt >= 0.0 && Inv(g, f)
    requires forall id :: id in plans && plans[id].Some? ==> PathInRange(g, plans[id].value)
    ensures Inv(g, Tick(g, f, dt, plans))
  {
    MovementPassInv(g, f, f.order, dt);
    RecoveryPassInv(g, MovementPass(g, f, f.order, dt), f.order, plans);
  }
}
