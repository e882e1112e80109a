/**
 * The scene's mutable state as the three systems see it: the Gnark's
 * components, updated in place, and the TimeOut slot of every entity in the
 * scene. Each system is a method proved to leave the Gnark in the state the
 * matching function of module Patrol describes.
 */
module Scene {
  import opened Wrappers
  import opened Geometry
  import opened Patrol
  import PatrolProperties

  /** The Gnark's index in the table of TimeOut slots. */
  const GnarkId: nat := 0

  class World {
    /** LerpData.array: the waypoint loop, never reassigned. */
    const path: seq<Vec3>
    /** LerpData.origin, LerpData.target and LerpData.fraction. */
    var origin: nat
    var target: nat
    var fraction: real
    /** The Gnark's transform: its position and the point its last lookAt faced. */
    var position: Vec3
    var facing: Option<Vec3>
    /** The `playing` flags of the walk, turnRight and raiseDead clips. */
    var walkPlaying: bool
    var turnPlaying: bool
    var raiseDeadPlaying: bool
    /** The TimeOut component of each entity of the scene, if it has one; the paused group is the Some slots. */
    const timeOuts: array<Option<real>>

    ghost predicate Valid()
      reads this
    {
      |path| >= 2 && origin < |path| && target < |path| && GnarkId < timeOuts.Length
    }

    /** The Gnark's components as one value. */
    function State(): Gnark
      reads this, timeOuts
      requires GnarkId < timeOuts.Length
    {
      Gnark(origin, target, fraction, position, facing, timeOuts[GnarkId],
            Clips(walkPlaying, turnPlaying, raiseDeadPlaying))
    }

    /**
     * The scene as set up before the first frame, with `entities` entities of
     * which the Gnark is one; nobody is paused yet and the walk clip plays.
     */
    constructor (entities: nat)
      requires entities > GnarkId
      ensures Valid() && fresh(timeOuts)
      ensures path == PatrolPath && State() == Initial()
      ensures timeOuts.Length == entities
      ensures forall e :: 0 <= e < timeOuts.Length ==> timeOuts[e] == None
    {
      path := PatrolPath;
      origin, target, fraction := 0, 1, 0.0;
      position := StartPosition;
      facing := None;
      walkPlaying, turnPlaying, raiseDeadPlaying := true, false, false;
      timeOuts := new Option<real>[entities](_ => None);
    }

    /** GnarkWalk.update. Only the Gnark's own TimeOut slot can change. */
    method GnarkWalk(dt: real)
      requires Valid()
      modifies this, timeOuts
      ensures Valid()
      ensures State() == Walk(path, old(State()), dt)
      ensures forall e :: 0 <= e < timeOuts.Length && e != GnarkId ==> timeOuts[e] == old(timeOuts[e])
    {
      if timeOuts[GnarkId].None? && !raiseDeadPlaying {
        walkPlaying := true;
        turnPlaying := false;
        if fraction < 1.0 {
          fraction := fraction + dt / SegmentSeconds;
          position := Lerp(path[origin], path[target], fraction);
        } else {
          origin := target;
          target := target + 1;
          if target >= |path| {
            target := 0;
          }
          fraction := 0.0;
          facing := Some(path[target]);
          walkPlaying := false;
          turnPlaying := true;
          timeOuts[GnarkId] := Some(TurnTime);
        }
      }
    }

    /**
     * WaitSystem.update: one pass over every entity, counting each attached
     * TimeOut down and removing the ones already at or below zero; entities
     * without a TimeOut are skipped.
     */
    method WaitSystem(dt: real)
      requires Valid()
      modifies timeOuts
      ensures Valid()
      ensures forall e :: 0 <= e < timeOuts.Length ==> timeOuts[e] == Countdown(old(timeOuts[e]), dt)
      ensures State() == Wait(old(State()), dt)
    {
      var e := 0;
      while e < timeOuts.Length
        invariant 0 <= e <= timeOuts.Length
        invariant forall k :: 0 <= k < e ==> timeOuts[k] == Countdown(old(timeOuts[k]), dt)
        invariant forall k :: e <= k < timeOuts.Length ==> timeOuts[k] == old(timeOuts[k])
      {
        match timeOuts[e] {
          case None =>
          case Some(left) =>
            if left > 0.0 {
              timeOuts[e] := Some(left - dt);
            } else {
              timeOuts[e] := None;
            }
        }
        e := e + 1;
      }
    }

    /** BattleCry.update, for the camera standing at `camera`. */
    method BattleCry(camera: Vec3)
      requires Valid()
      modifies this
      ensures Valid()
      ensures State() == React(path, old(State()), camera)
    {
      var dist := Distance(position, camera);
      if dist < CryRadiusSquared {
        if raiseDeadPlaying == false {
          raiseDeadPlaying := true;
          walkPlaying := false;
          turnPlaying := false;
        }
        var playerPos := Vec3(camera.x, 0.0, camera.z);
        facing := Some(playerPos);
      } else if raiseDeadPlaying {
        raiseDeadPlaying := false;
        facing := Some(path[target]);
      }
    }

    /**
     * One frame of the host's loop: the systems in registration order. Every
     * entity other than the Gnark only has its TimeOut counted down.
     */
    method Tick(dt: real, camera: Vec3)
      requires Valid()
      modifies this, timeOuts
      ensures Valid()
      ensures State() == Patrol.Tick(path, old(State()), Frame(dt, camera))
      ensures forall e :: 0 <= e < timeOuts.Length && e != GnarkId ==>
        timeOuts[e] == Countdown(old(timeOuts[e]), dt)
    {
      GnarkWalk(dt);
      WaitSystem(dt);
      BattleCry(camera);
    }
  }

  /**
   * A client of World: six one-second frames with the camera far away bring
   * the Gnark from its starting point to the middle of its first segment.
   */
  method PatrolForSixSeconds() returns (position: Vec3, fraction: real)
    ensures position == Vec3(8.0, 0.0, 16.0) && fraction == 0.5
  {
    // The scene holds nine entities: the temple, the Gnark, two sharks, the
    // sea bed, the tree, the logo, the avocado and the cat.
    var world := new World(9);
    var frame := PatrolProperties.FarSecond;
    world.Tick(frame.dt, frame.camera);
    PatrolProperties.StartFirstSecond();
    var k := 1;
    while k < 6
      invariant 1 <= k <= 6
      invariant world.Valid() && world.path == PatrolPath
      invariant world.State() == PatrolProperties.IntoFirstSegment(k)
      modifies world, world.timeOuts
    {
      world.Tick(frame.dt, frame.camera);
      PatrolProperties.FirstSegmentSecond(k);
      k := k + 1;
    }
    PatrolProperties.HalfWayAlongFirstSegment();
    position, fraction := world.position, world.fraction;
  }
}
