/**
 The collection step (`collect_resources_system`): every collector robot scans
 all resource entities and queues a despawn for each one on its own cell;
 explorers and visitors never collect. Despawns are deferred commands, so
 every collector of one pass scans the same, unchanged set of resources: two
 collectors on one cell both report its resources, and the pass removes the
 union of what they matched.

 The world is the list of non-robot entities in query order; a despawn is the
 index of an entity in that list.
 */
module Collection {
  import opened Types

  /** What one pass reports for one robot. */
  datatype Outcome =
    | NotCollector                  // explorers and visitors: only their kind is logged
    | Collected(found: seq<nat>)    // the resource entities reported, in scan order
    | NothingCollected              // a collector that found nothing on its cell

  predicate IsResourceAt(e: Entity, p: Position)
  {
    e.RessourceEntity? && e.pos == p
  }

  /** The indices below `n` of the resource entities on cell `p`, in scan order. */
  function MatchesIn(world: seq<Entity>, p: Position, n: nat): seq<nat>
    requires n <= |world|
  {
    if n == 0 then []
    else MatchesIn(world, p, n - 1) + (if IsResourceAt(world[n - 1], p) then [n - 1] else [])
  }

  /** The matches below `n` are exactly the resources on `p` below `n`, in increasing order. */
  lemma {:induction false} MatchesInMeaning(world: seq<Entity>, p: Position, n: nat)
    requires n <= |world|
    ensures forall j: nat :: j in MatchesIn(world, p, n) <==> j < n && IsResourceAt(world[j], p)
    ensures forall a :: 0 <= a < |MatchesIn(world, p, n)| ==> MatchesIn(world, p, n)[a] < n
    ensures forall a, b :: 0 <= a < b < |MatchesIn(world, p, n)| ==>
              MatchesIn(world, p, n)[a] < MatchesIn(world, p, n)[b]
  {
    if n > 0 {
      MatchesInMeaning(world, p, n - 1);
    }
  }

  function Matches(world: seq<Entity>, p: Position): seq<nat>
  {
    MatchesIn(world, p, |world|)
  }

  /** What a pass reports for robot `r`. */
  function OutcomeFor(world: seq<Entity>, r: RobotEntity): (o: Outcome)
    ensures o == NotCollector <==> !IsCollector(r)
    ensures o.Collected? ==>
              o.found != [] && forall j :: j in o.found ==> 0 <= j < |world| && IsResourceAt(world[j], r.pos)
  {
    MatchesInMeaning(world, r.pos, |world|);
    if !IsCollector(r) then NotCollector
    else if Matches(world, r.pos) == [] then NothingCollected
    else Collected(Matches(world, r.pos))
  }

  /** The despawn commands a pass over `robots` queues, in order. */
  function DespawnQueue(robots: seq<RobotEntity>, world: seq<Entity>): seq<nat>
  {
    if robots == [] then []
    else
      var last := robots[|robots| - 1];
      DespawnQueue(robots[..|robots| - 1], world) + (if IsCollector(last) then Matches(world, last.pos) else [])
  }

  /** Some collector among `robots` stands on cell `p`. */
  predicate CollectorAt(robots: seq<RobotEntity>, p: Position)
  {
    robots != [] &&
    (CollectorAt(robots[..|robots| - 1], p) || (IsCollector(robots[|robots| - 1]) && robots[|robots| - 1].pos == p))
  }

  /** `e` is a resource on the cell of some collector among `robots`. */
  predicate Collectable(robots: seq<RobotEntity>, e: Entity)
  {
    e.RessourceEntity? && CollectorAt(robots, e.pos)
  }

  /** The entities of `world` whose index is not queued for despawn, in order. */
  function Despawn(world: seq<Entity>, queue: seq<nat>): seq<Entity>
  {
    if world == [] then []
    else Despawn(world[..|world| - 1], queue) + (if |world| - 1 in queue then [] else [world[|world| - 1]])
  }

  /** The world after one collection pass has been applied. */
  function CollectStep(robots: seq<RobotEntity>, world: seq<Entity>): (after: seq<Entity>)
    ensures |after| <= |world|
    ensures forall i :: 0 <= i < |after| ==> after[i] in world && !Collectable(robots, after[i])
  {
    DespawnQueueExact(robots, world);
    DespawnSurvivors(robots, world, DespawnQueue(robots, world));
    Despawn(world, DespawnQueue(robots, world))
  }

  /** Reference definition: the entities that are not collectable, in order. */
  function Survivors(robots: seq<RobotEntity>, world: seq<Entity>): (r: seq<Entity>)
    ensures |r| <= |world|
    ensures forall i :: 0 <= i < |r| ==> r[i] in world && !Collectable(robots, r[i])
  {
    if world == [] then []
    else
      var last := world[|world| - 1];
      Survivors(robots, world[..|world| - 1]) + (if Collectable(robots, last) then [] else [last])
  }

  /**
   The scan of `collect_resources_system`: for each robot in query order, a
   collector scans every entity and, for each resource on its cell, reports it
   and queues its despawn. Returns the despawn queue and each robot's outcome.
   */
  method CollectResources(robots: seq<RobotEntity>, world: seq<Entity>)
    returns (despawns: seq<nat>, outcomes: seq<Outcome>)
    ensures despawns == DespawnQueue(robots, world)
    ensures forall j: nat :: j in despawns <==> j < |world| && Collectable(robots, world[j])
    ensures |outcomes| == |robots|
    ensures forall i :: 0 <= i < |robots| ==> outcomes[i] == OutcomeFor(world, robots[i])
    ensures forall i :: 0 <= i < |robots| && !IsCollector(robots[i]) ==> outcomes[i] == NotCollector
    ensures forall i :: 0 <= i < |robots| && IsCollector(robots[i]) ==>
              (outcomes[i] == NothingCollected <==>
               forall j :: 0 <= j < |world| ==> !IsResourceAt(world[j], robots[i].pos))
  {
    despawns, outcomes := [], [];
    for i := 0 to |robots|
      invariant despawns == DespawnQueue(robots[..i], world)
      invariant |outcomes| == i
      invariant forall k :: 0 <= k < i ==> outcomes[k] == OutcomeFor(world, robots[k])
    {
      var robot := robots[i];
      assert robots[..i + 1][..i] == robots[..i];
      if robot.robot.typeRobot == Collecteur {
        var found, resourceCollected := ScanCell(world, robot.pos);
        despawns := despawns + found;
        outcomes := outcomes + [if resourceCollected then Collected(found) else NothingCollected];
      } else {
        outcomes := outcomes + [NotCollector];
      }
    }
    assert robots[..|robots|] == robots;
    PassMeaning(robots, world);
  }

  /** What a whole pass queues and reports, stated without the recursion. */
  lemma PassMeaning(robots: seq<RobotEntity>, world: seq<Entity>)
    ensures forall j: nat :: j in DespawnQueue(robots, world) <==> j < |world| && Collectable(robots, world[j])
    ensures forall i :: 0 <= i < |robots| && !IsCollector(robots[i]) ==> OutcomeFor(world, robots[i]) == NotCollector
    ensures forall i :: 0 <= i < |robots| && IsCollector(robots[i]) ==>
              (OutcomeFor(world, robots[i]) == NothingCollected <==>
               forall j :: 0 <= j < |world| ==> !IsResourceAt(world[j], robots[i].pos))
  {
    DespawnQueueExact(robots, world);
    forall i | 0 <= i < |robots|
      ensures !IsCollector(robots[i]) ==> OutcomeFor(world, robots[i]) == NotCollector
      ensures IsCollector(robots[i]) ==>
                (OutcomeFor(world, robots[i]) == NothingCollected <==>
                 forall j :: 0 <= j < |world| ==> !IsResourceAt(world[j], robots[i].pos))
    {
      OutcomeMeaning(world, robots[i]);
    }
  }

  /**
   The inner scan of one collector: every resource entity on cell `p` is
   reported, in scan order, and `resourceCollected` records whether any was.
   */
  method ScanCell(world: seq<Entity>, p: Position) returns (found: seq<nat>, resourceCollected: bool)
    ensures found == Matches(world, p)
    ensures resourceCollected <==> found != []
  {
    found, resourceCollected := [], false;
    for j := 0 to |world|
      invariant found == MatchesIn(world, p, j)
      invariant resourceCollected <==> found != []
    {
      if world[j].RessourceEntity? && world[j].pos == p {
        resourceCollected := true;
        found := found + [j];
      }
    }
  }

  /** A collector reports nothing exactly when no resource lies on its cell. */
  lemma OutcomeMeaning(world: seq<Entity>, r: RobotEntity)
    ensures !IsCollector(r) ==> OutcomeFor(world, r) == NotCollector
    ensures IsCollector(r) ==>
              (OutcomeFor(world, r) == NothingCollected <==>
               forall j :: 0 <= j < |world| ==> !IsResourceAt(world[j], r.pos))
  {
    var m := Matches(world, r.pos);
    MatchesInMeaning(world, r.pos, |world|);
    if m != [] {
      assert m[0] in m;
    }
  }

  /** A collector stands on `p` exactly when one of the robots is a collector on `p`. */
  lemma {:induction false} CollectorAtMeaning(robots: seq<RobotEntity>, p: Position)
    ensures CollectorAt(robots, p) <==> exists i :: 0 <= i < |robots| && IsCollector(robots[i]) && robots[i].pos == p
  {
    if robots != [] {
      var init := robots[..|robots| - 1];
      CollectorAtMeaning(init, p);
      if CollectorAt(init, p) {
        var i :| 0 <= i < |init| && IsCollector(init[i]) && init[i].pos == p;
        assert robots[i] == init[i];
      }
      if exists i :: 0 <= i < |robots| && IsCollector(robots[i]) && robots[i].pos == p {
        var i :| 0 <= i < |robots| && IsCollector(robots[i]) && robots[i].pos == p;
        if i < |init| {
          assert init[i] == robots[i];
        }
      }
    }
  }

  /** The despawn queue holds exactly the indices of the collectable entities. */
  lemma {:induction false} DespawnQueueExact(robots: seq<RobotEntity>, world: seq<Entity>)
    ensures forall j: nat :: j in DespawnQueue(robots, world) <==> j < |world| && Collectable(robots, world[j])
  {
    if robots != [] {
      DespawnQueueExact(robots[..|robots| - 1], world);
      MatchesInMeaning(world, robots[|robots| - 1].pos, |world|);
    }
  }

  /** Applying a queue that holds exactly the collectable indices leaves the survivors. */
  lemma {:induction false} DespawnSurvivors(robots: seq<RobotEntity>, world: seq<Entity>, queue: seq<nat>)
    requires forall j: nat :: j < |world| ==> (j in queue <==> Collectable(robots, world[j]))
    ensures Despawn(world, queue) == Survivors(robots, world)
  {
    if world != [] {
      var init := world[..|world| - 1];
      forall j: nat | j < |init|
        ensures j in queue <==> Collectable(robots, init[j])
      {
        assert init[j] == world[j];
      }
      DespawnSurvivors(robots, init, queue);
    }
  }

  /**
   A collection pass removes exactly the resources that lie on some
   collector's cell; every other entity stays, in its order.
   */
  lemma CollectStepRemovesCollectable(robots: seq<RobotEntity>, world: seq<Entity>)
    ensures CollectStep(robots, world) == Survivors(robots, world)
  {
    DespawnQueueExact(robots, world);
    DespawnSurvivors(robots, world, DespawnQueue(robots, world));
  }

  /** The survivors are the entities of the world that are not collectable. */
  lemma {:induction false} SurvivorsMember(robots: seq<RobotEntity>, world: seq<Entity>, e: Entity)
    ensures e in Survivors(robots, world) <==> e in world && !Collectable(robots, e)
  {
    if world != [] {
      var init := world[..|world| - 1];
      SurvivorsMember(robots, init, e);
      assert world == init + [world[|world| - 1]];
    }
  }

  lemma {:induction false} DespawnNothing(world: seq<Entity>)
    ensures Despawn(world, []) == world
  {
    if world != [] {
      DespawnNothing(world[..|world| - 1]);
    }
  }

  lemma {:induction false} MatchesNone(world: seq<Entity>, p: Position, n: nat)
    requires n <= |world|
    requires forall j :: 0 <= j < n ==> !IsResourceAt(world[j], p)
    ensures MatchesIn(world, p, n) == []
  {
    if n > 0 {
      MatchesNone(world, p, n - 1);
    }
  }

  /**
   When no resource lies on any collector's cell, a pass queues nothing,
   changes nothing, and every collector reports that it collected nothing.
   */
  lemma {:induction false} NothingCollectable(robots: seq<RobotEntity>, world: seq<Entity>)
    requires forall i, j :: 0 <= i < |robots| && IsCollector(robots[i]) && 0 <= j < |world| ==>
               !IsResourceAt(world[j], robots[i].pos)
    ensures DespawnQueue(robots, world) == []
    ensures CollectStep(robots, world) == world
    ensures forall i :: 0 <= i < |robots| && IsCollector(robots[i]) ==>
              OutcomeFor(world, robots[i]) == NothingCollected
  {
    forall i | 0 <= i < |robots| && IsCollector(robots[i])
      ensures Matches(world, robots[i].pos) == []
    {
      MatchesNone(world, robots[i].pos, |world|);
    }
    if robots != [] {
      var init := robots[..|robots| - 1];
      forall i, j | 0 <= i < |init| && IsCollector(init[i]) && 0 <= j < |world|
        ensures !IsResourceAt(world[j], init[i].pos)
      {
        assert init[i] == robots[i];
      }
      NothingCollectable(init, world);
    }
    DespawnNothing(world);
  }

  /**
   A second pass with no movement in between removes nothing: it queues no
   despawn and every collector reports that it collected nothing.
   */
  lemma CollectIdempotent(robots: seq<RobotEntity>, world: seq<Entity>)
    ensures DespawnQueue(robots, CollectStep(robots, world)) == []
    ensures CollectStep(robots, CollectStep(robots, world)) == CollectStep(robots, world)
    ensures forall i :: 0 <= i < |robots| && IsCollector(robots[i]) ==>
              OutcomeFor(CollectStep(robots, world), robots[i]) == NothingCollected
  {
    var after := CollectStep(robots, world);
    CollectStepRemovesCollectable(robots, world);
    forall i, j | 0 <= i < |robots| && IsCollector(robots[i]) && 0 <= j < |after|
      ensures !IsResourceAt(after[j], robots[i].pos)
    {
      SurvivorsMember(robots, world, after[j]);
      CollectorAtMeaning(robots, after[j].pos);
    }
    NothingCollectable(robots, after);
  }

  /** Robots that are not collectors never remove anything, wherever they stand. */
  lemma NoCollectorNoRemoval(robots: seq<RobotEntity>, world: seq<Entity>)
    requires forall i :: 0 <= i < |robots| ==> !IsCollector(robots[i])
    ensures DespawnQueue(robots, world) == []
    ensures CollectStep(robots, world) == world
  {
    NothingCollectable(robots, world);
  }

  /** Adding a robot that is not a collector to a pass changes nothing it removes. */
  lemma {:induction false} NonCollectorAddsNothing(robots: seq<RobotEntity>, r: RobotEntity, world: seq<Entity>)
    requires !IsCollector(r)
    ensures CollectStep(robots + [r], world) == CollectStep(robots, world)
  {
    assert (robots + [r])[..|robots|] == robots;
    assert DespawnQueue(robots + [r], world) == DespawnQueue(robots, world);
  }

  /**
   A collector on (3, 3) with an energy resource on (3, 3): the first pass
   reports and removes it, the second pass finds nothing.
   */
  lemma CollectorScenario()
    ensures var robot := RobotEntity(Robot(1, "Collecteur1", 100, Collecteur, 1), Position(3, 3));
            var world := [RessourceEntity(Energie, Position(3, 3))];
            OutcomeFor(world, robot) == Collected([0]) &&
            CollectStep([robot], world) == [] &&
            OutcomeFor(CollectStep([robot], world), robot) == NothingCollected
  {
    var robot := RobotEntity(Robot(1, "Collecteur1", 100, Collecteur, 1), Position(3, 3));
    var world := [RessourceEntity(Energie, Position(3, 3))];
    assert MatchesIn(world, robot.pos, 0) == [];
    assert Matches(world, robot.pos) == [0];
    assert [robot][..0] == [];
    assert DespawnQueue([robot], world) == [0];
    assert world[..0] == [];
    assert Despawn(world, [0]) == [];
    CollectIdempotent([robot], world);
  }
}
