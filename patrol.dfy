/**
 * The Gnark's patrol behaviour as values: one snapshot of everything the three
 * per-frame systems read and write, and one function per system giving the
 * snapshot after that system has run. The class in world.dfy is proved to
 * follow these functions; the lemmas here state what the systems promise.
 */
module Patrol {
  import opened Wrappers
  import opened Geometry

  /** Seconds one segment of the patrol takes: `fraction` grows by dt / 12. */
  const SegmentSeconds: real := 12.0

  /** Seconds the Gnark stands still turning at each waypoint (TURN_TIME). */
  const TurnTime: real := 0.9

  /** The squared radius within which the camera provokes the battle cry. */
  const CryRadiusSquared: real := 16.0

  /** The closed loop of waypoints the Gnark patrols. */
  const PatrolPath: seq<Vec3> :=
    [Vec3(8.0, 0.0, 8.0), Vec3(8.0, 0.0, 24.0), Vec3(24.0, 0.0, 24.0), Vec3(24.0, 0.0, 8.0)]

  /** Where the Gnark is placed before its first frame. */
  const StartPosition: Vec3 := Vec3(5.0, 0.0, 5.0)

  /** The `playing` flags of the walk, turnRight and raiseDead clips. */
  datatype Clips = Clips(walk: bool, turn: bool, raiseDead: bool)

  /**
   * The Gnark's state: its LerpData (`origin`, `target`, `fraction`), the
   * position of its transform, the point its last `lookAt` faced (None before
   * the first one), its optional TimeOut component and its clips.
   */
  datatype Gnark = Gnark(
    origin: nat,
    target: nat,
    fraction: real,
    position: Vec3,
    facing: Option<Vec3>,
    timeOut: Option<real>,
    clips: Clips)

  /** One frame as the host delivers it: elapsed seconds and the camera position. */
  datatype Frame = Frame(dt: real, camera: Vec3)

  /** The waypoint loop has at least two points and both indices point into it. */
  predicate Valid(path: seq<Vec3>, g: Gnark)
  {
    |path| >= 2 && g.origin < |path| && g.target < |path|
  }

  /** The state the scene sets up before the first frame (the walk clip is already playing). */
  function Initial(): (g: Gnark)
    ensures Valid(PatrolPath, g)
    ensures g.origin == 0 && g.target == 1 && g.fraction == 0.0
    ensures g.timeOut == None && g.clips == Clips(true, false, false)
  {
    Gnark(0, 1, 0.0, StartPosition, None, None, Clips(true, false, false))
  }

  /** The index after `i` on a loop of `n` waypoints, wrapping to 0 at the end. */
  function NextIndex(i: nat, n: nat): (r: nat)
    ensures i < n ==> r < n && r == (i + 1) % n
  {
    if i + 1 >= n then 0 else i + 1
  }

  /**
   * GnarkWalk.update. Unless a TimeOut is attached or raiseDead plays, the walk clip plays and the turn clip
   * stops; then either the Gnark moves `dt / 12` further along its segment
   * (the fraction is increased before it is used, so the lerp may overshoot),
   * or, once the fraction has reached 1, the indices advance, the Gnark faces
   * its new target, switches from walking to turning and gets a TimeOut.
   */
  function Walk(path: seq<Vec3>, g: Gnark, dt: real): (r: Gnark)
    requires Valid(path, g)
    ensures Valid(path, r)
    ensures r.fraction == g.fraction || r.fraction == g.fraction + dt / SegmentSeconds || r.fraction == 0.0
  {
    if g.timeOut.Some? || g.clips.raiseDead then g
    else
      var clips := g.clips.(walk := true, turn := false);
      if g.fraction < 1.0 then
        var f := g.fraction + dt / SegmentSeconds;
        g.(fraction := f, position := Lerp(path[g.origin], path[g.target], f), clips := clips)
      else
        var t := NextIndex(g.target, |path|);
        g.(origin := g.target, target := t, fraction := 0.0, facing := Some(path[t]),
           timeOut := Some(TurnTime), clips := clips.(walk := false, turn := true))
  }

  /**
   * WaitSystem.update on one entity's TimeOut slot: a live timer is decremented
   * and kept, an expired one (at or below zero) is removed without being
   * decremented, and an empty slot stays empty.
   */
  function Countdown(t: Option<real>, dt: real): (r: Option<real>)
    ensures t.None? ==> r.None?
    ensures r.Some? <==> t.Some? && t.value > 0.0
    ensures r.Some? ==> r.value == t.value - dt
  {
    match t
    case None => None
    case Some(left) => if left > 0.0 then Some(left - dt) else None
  }

  /** WaitSystem.update as it affects the Gnark, the only entity that ever carries a TimeOut. */
  function Wait(g: Gnark, dt: real): (r: Gnark)
    ensures r.timeOut == Countdown(g.timeOut, dt)
    ensures r.(timeOut := g.timeOut) == g
  {
    g.(timeOut := Countdown(g.timeOut, dt))
  }

  /**
   * The camera is within the battle-cry radius of the Gnark; it is then less
   * than 4 away from the Gnark along each ground axis.
   */
  predicate Near(g: Gnark, camera: Vec3): (near: bool)
    ensures near ==> -4.0 < g.position.x - camera.x < 4.0 && -4.0 < g.position.z - camera.z < 4.0
  {
    var a, b := g.position.x - camera.x, g.position.z - camera.z;
    SquareBelow16(a, b);
    assert Distance(g.position, camera) == a * a + b * b;
    Distance(g.position, camera) < CryRadiusSquared
  }

  /** A sum of two squares below 16 has both terms strictly between -4 and 4. */
  lemma SquareBelow16(a: real, b: real)
    ensures a * a + b * b < 16.0 ==> -4.0 < a < 4.0 && -4.0 < b < 4.0
  {
    Square(a);
    Square(b);
    SquareAtLeast16(a);
    SquareAtLeast16(b);
  }

  /** A number at least 4 away from zero has a square of at least 16. */
  lemma SquareAtLeast16(a: real)
    ensures (a >= 4.0 || a <= -4.0) ==> a * a >= 16.0
  {
    if a >= 4.0 {
      assert a * a >= 4.0 * a;
    } else if a <= -4.0 {
      var b := -a;
      assert b * b >= 4.0 * b;
      assert a * a == b * b;
    }
  }

  /**
   * BattleCry.update. Near the camera: on the rising edge raiseDead starts and
   * walk and turn stop, and every near frame the Gnark faces the camera's
   * ground point. Away from it: if raiseDead plays it stops and the Gnark
   * faces its patrol target again; otherwise nothing happens.
   */
  function React(path: seq<Vec3>, g: Gnark, camera: Vec3): (r: Gnark)
    requires Valid(path, g)
    ensures Valid(path, r)
    ensures r.origin == g.origin && r.target == g.target && r.fraction == g.fraction
    ensures r.position == g.position && r.timeOut == g.timeOut
  {
    if Near(g, camera) then
      var clips := if g.clips.raiseDead then g.clips else Clips(false, false, true);
      g.(clips := clips, facing := Some(Planar(camera)))
    else if g.clips.raiseDead then
      g.(clips := g.clips.(raiseDead := false), facing := Some(path[g.target]))
    else
      g
  }

  /** One frame: the three systems in the order they are registered. */
  function Tick(path: seq<Vec3>, g: Gnark, frame: Frame): (r: Gnark)
    requires Valid(path, g)
    ensures Valid(path, r)
  {
    React(path, Wait(Walk(path, g, frame.dt), frame.dt), frame.camera)
  }

  /** The state after a sequence of frames. */
  function Run(path: seq<Vec3>, g: Gnark, frames: seq<Frame>): (r: Gnark)
    requires Valid(path, g)
    ensures Valid(path, r)
    decreases |frames|
  {
    if frames == [] then g else Run(path, Tick(path, g, frames[0]), frames[1..])
  }

  /** How many frames of a run start the raiseDead clip. */
  function RisingEdges(path: seq<Vec3>, g: Gnark, frames: seq<Frame>): (n: nat)
    requires Valid(path, g)
    ensures n <= |frames|
    decreases |frames|
  {
    if frames == [] then 0
    else
      var next := Tick(path, g, frames[0]);
      (if !g.clips.raiseDead && next.clips.raiseDead then 1 else 0) + RisingEdges(path, next, frames[1..])
  }
}
