/**
 * What the three systems promise, stated about the functions of module
 * Patrol: one frame of each system on its own, then runs of whole frames.
 */
module PatrolProperties {
  import opened Wrappers
  import opened Geometry
  import opened Patrol

  // ---------------------------------------------------------------------------
  // GnarkWalk

  /** While a TimeOut is attached or raiseDead plays, the walk step changes nothing. */
  lemma WalkHaltedIsNoOp(path: seq<Vec3>, g: Gnark, dt: real)
    requires Valid(path, g) && (g.timeOut.Some? || g.clips.raiseDead)
    ensures Walk(path, g, dt) == g
  {
  }

  /**
   * Mid-segment the fraction grows by exactly dt / 12, the Gnark stands at the
   * interpolation between its two waypoints at the new fraction, the indices,
   * timer and facing are kept, and the walk clip plays instead of the turn clip.
   */
  lemma WalkAlongSegment(path: seq<Vec3>, g: Gnark, dt: real)
    requires Valid(path, g) && g.timeOut == None && !g.clips.raiseDead && g.fraction < 1.0
    ensures var r := Walk(path, g, dt);
      && r.origin == g.origin && r.target == g.target
      && r.fraction == g.fraction + dt / 12.0
      && r.position == Lerp(path[g.origin], path[g.target], r.fraction)
      && r.timeOut == None && r.facing == g.facing
      && r.clips == Clips(true, false, false)
  {
  }

  /**
   * At the end of a segment the old target becomes the origin, the target moves
   * one waypoint on (back to 0 past the last one), the fraction restarts at 0,
   * the Gnark faces its new target without moving, and it switches from the
   * walk clip to the turn clip with a TimeOut of TURN_TIME attached.
   */
  lemma WalkCompletesSegment(path: seq<Vec3>, g: Gnark, dt: real)
    requires Valid(path, g) && g.timeOut == None && !g.clips.raiseDead && g.fraction >= 1.0
    ensures var r := Walk(path, g, dt);
      && r.origin == g.target
      && r.target == (if g.target + 1 == |path| then 0 else g.target + 1)
      && r.target < |path|
      && r.fraction == 0.0
      && r.position == g.position
      && r.facing == Some(path[r.target])
      && r.timeOut == Some(0.9)
      && r.clips == Clips(false, true, false)
  {
  }

  /**
   * With a non-negative frame time the fraction never goes down, except when a
   * completed segment resets it to 0 (and a TimeOut is attached).
   */
  lemma WalkNeverRewinds(path: seq<Vec3>, g: Gnark, dt: real)
    requires Valid(path, g) && dt >= 0.0
    ensures var r := Walk(path, g, dt);
      r.fraction >= g.fraction || (r.fraction == 0.0 && r.timeOut == Some(TurnTime) && r.target != g.target)
  {
  }

  /** `m` segment completions' worth of NextIndex, starting from waypoint `i`. */
  function Advance(i: nat, m: nat, n: nat): (r: nat)
    requires i < n
    ensures r < n
    decreases m
  {
    if m == 0 then i else Advance(NextIndex(i, n), m - 1, n)
  }

  /** Far from the end of the loop, advancing is plain addition. */
  lemma {:induction false} AdvanceWithinLoop(i: nat, m: nat, n: nat)
    requires i + m < n
    ensures Advance(i, m, n) == i + m
    decreases m
  {
    if m > 0 {
      AdvanceWithinLoop(i + 1, m - 1, n);
    }
  }

  /** Advancing `a` then `b` segments is advancing `a + b` segments. */
  lemma {:induction false} AdvanceCompose(i: nat, a: nat, b: nat, n: nat)
    requires i < n
    ensures Advance(Advance(i, a, n), b, n) == Advance(i, a + b, n)
    decreases a
  {
    if a > 0 {
      AdvanceCompose(NextIndex(i, n), a - 1, b, n);
    }
  }

  /** After as many segment completions as there are waypoints, the target is back where it started. */
  lemma {:induction false} AdvanceFullLoop(k: nat, n: nat)
    requires k < n
    ensures Advance(k, n, n) == k
  {
    // k + (n - 1 - k) segments reach the last waypoint, one more wraps to 0,
    // and k more come back to k.
    AdvanceWithinLoop(k, n - 1 - k, n);
    AdvanceCompose(k, n - 1 - k, 1, n);
    assert Advance(n - 1, 1, n) == 0;
    AdvanceWithinLoop(0, k, n);
    AdvanceCompose(k, n - k, k, n);
  }

  /**
   * The fraction stays within [0, 1 + maxDt / 12] over any run whose frame
   * times lie in [0, maxDt]: it may pass 1 by at most one frame's worth.
   */
  lemma {:induction false} FractionBounded(path: seq<Vec3>, g: Gnark, frames: seq<Frame>, maxDt: real)
    requires Valid(path, g)
    requires 0.0 <= g.fraction <= 1.0 + maxDt / 12.0
    requires forall i :: 0 <= i < |frames| ==> 0.0 <= frames[i].dt <= maxDt
    ensures var r := Run(path, g, frames); 0.0 <= r.fraction <= 1.0 + maxDt / 12.0
    decreases |frames|
  {
    if frames != [] {
      var next := Tick(path, g, frames[0]);
      assert next.fraction == Walk(path, g, frames[0].dt).fraction;
      assert forall i :: 0 <= i < |frames[1..]| ==> frames[1..][i] == frames[i + 1];
      FractionBounded(path, next, frames[1..], maxDt);
    }
  }

  // ---------------------------------------------------------------------------
  // WaitSystem

  /** A frame of zero length never removes a live timer and leaves its time as it was. */
  lemma CountdownIdleFrameKeepsTimer(left: real)
    requires left > 0.0
    ensures Countdown(Some(left), 0.0) == Some(left)
  {
  }

  /**
   * A timer is removed one frame late: the frame on which it reaches zero or
   * less only decrements it, and the next frame removes it whatever its length.
   */
  lemma CountdownRemovesOneFrameLate(left: real, dt: real, dt': real)
    requires left > 0.0 && left - dt <= 0.0
    ensures Countdown(Some(left), dt) == Some(left - dt)
    ensures Countdown(Countdown(Some(left), dt), dt') == None
  {
  }

  /** The slot after a sequence of WaitSystem passes. */
  function Countdowns(t: Option<real>, dts: seq<real>): Option<real>
    decreases |dts|
  {
    if dts == [] then t else Countdowns(Countdown(t, dts[0]), dts[1..])
  }

  /**
   * A timer that holds at most `k` frames' worth of time, on frames each at
   * least `d > 0` long, is gone after `k + 1` frames: the turn at a waypoint
   * always ends.
   */
  lemma {:induction false} TimerExpires(t: Option<real>, dts: seq<real>, d: real, k: nat)
    requires d > 0.0
    requires t.Some? ==> t.value <= (k as real) * d
    requires forall i :: 0 <= i < |dts| ==> dts[i] >= d
    requires |dts| > k
    ensures Countdowns(t, dts) == None
    decreases |dts|
  {
    var next := Countdown(t, dts[0]);
    assert forall i :: 0 <= i < |dts[1..]| ==> dts[1..][i] == dts[i + 1];
    if next.Some? {
      assert k > 0;
      assert next.value <= ((k - 1) as real) * d;
      TimerExpires(next, dts[1..], d, k - 1);
    } else if |dts| > 1 {
      TimerExpires(next, dts[1..], d, 0);
    }
  }

  /**
   * Every turn ends: from a state whose TimeOut holds at most `k` frames' worth
   * of time, some prefix of any `k + 1` or more frames, each at least `d > 0`
   * long, leaves the Gnark without a TimeOut, so the walk step runs again.
   */
  lemma {:induction false} TurnEnds(path: seq<Vec3>, g: Gnark, frames: seq<Frame>, d: real, k: nat)
    requires Valid(path, g) && d > 0.0
    requires g.timeOut.Some? ==> g.timeOut.value <= (k as real) * d
    requires forall i :: 0 <= i < |frames| ==> frames[i].dt >= d
    requires |frames| > k
    ensures exists j :: 0 <= j <= |frames| && Run(path, g, frames[..j]).timeOut == None
    decreases |frames|
  {
    if g.timeOut == None {
      assert frames[..0] == [];
      assert Run(path, g, frames[..0]).timeOut == None;
    } else {
      var next := Tick(path, g, frames[0]);
      // The walk step is halted, and the battle cry leaves the TimeOut alone.
      assert next.timeOut == Countdown(g.timeOut, frames[0].dt);
      assert frames[..1][1..] == [];
      if next.timeOut == None {
        assert Run(path, g, frames[..1]) == next;
      } else {
        var rest := frames[1..];
        assert forall i :: 0 <= i < |rest| ==> rest[i] == frames[i + 1];
        assert next.timeOut.value <= ((k - 1) as real) * d;
        TurnEnds(path, next, rest, d, k - 1);
        var j :| 0 <= j <= |rest| && Run(path, next, rest[..j]).timeOut == None;
        assert frames[..j + 1][1..] == rest[..j];
        assert Run(path, g, frames[..j + 1]) == Run(path, next, rest[..j]);
      }
    }
  }

  // ---------------------------------------------------------------------------
  // BattleCry

  /**
   * Near the camera the Gnark faces the camera's ground point; if raiseDead was
   * not playing it now plays alone, and if it was the clips are untouched.
   */
  lemma ReactNear(path: seq<Vec3>, g: Gnark, camera: Vec3)
    requires Valid(path, g) && Distance(g.position, camera) < 16.0
    ensures var r := React(path, g, camera);
      && r.facing == Some(Vec3(camera.x, 0.0, camera.z))
      && r.clips == (if g.clips.raiseDead then g.clips else Clips(false, false, true))
  {
  }

  /**
   * Away from the camera a playing raiseDead stops and the Gnark faces its
   * patrol target; with raiseDead not playing nothing changes.
   */
  lemma ReactFar(path: seq<Vec3>, g: Gnark, camera: Vec3)
    requires Valid(path, g) && Distance(g.position, camera) >= 16.0
    ensures var r := React(path, g, camera);
      if g.clips.raiseDead then
        r == g.(clips := g.clips.(raiseDead := false), facing := Some(path[g.target]))
      else
        r == g
  {
  }

  /**
   * While raiseDead plays and the camera stays near, frames neither move the
   * Gnark, nor advance its patrol, nor touch its clips, nor start raiseDead
   * again; it ends up facing the last camera's ground point.
   */
  lemma {:induction false} EngagedHolds(path: seq<Vec3>, g: Gnark, frames: seq<Frame>)
    requires Valid(path, g) && g.clips.raiseDead
    requires forall i :: 0 <= i < |frames| ==> Distance(g.position, frames[i].camera) < 16.0
    ensures var r := Run(path, g, frames);
      && r.origin == g.origin && r.target == g.target && r.fraction == g.fraction
      && r.position == g.position && r.clips == g.clips
      && (frames != [] ==> r.facing == Some(Planar(frames[|frames| - 1].camera)))
    ensures RisingEdges(path, g, frames) == 0
    decreases |frames|
  {
    if frames != [] {
      var next := Tick(path, g, frames[0]);
      assert next == Wait(g, frames[0].dt).(facing := Some(Planar(frames[0].camera)));
      var rest := frames[1..];
      assert forall i :: 0 <= i < |rest| ==> rest[i] == frames[i + 1];
      EngagedHolds(path, next, rest);
      if rest == [] {
        assert Run(path, next, rest) == next;
      } else {
        assert rest[|rest| - 1] == frames[|frames| - 1];
      }
    }
  }

  /**
   * Hysteresis: once the camera comes near and stays near the point where the
   * Gnark stood after the first frame's walk step, raiseDead starts exactly
   * once and is still playing at the end.
   */
  lemma RaisesOnce(path: seq<Vec3>, g: Gnark, frames: seq<Frame>)
    requires Valid(path, g) && !g.clips.raiseDead && frames != []
    requires forall i :: 0 <= i < |frames| ==>
      Distance(Walk(path, g, frames[0].dt).position, frames[i].camera) < 16.0
    ensures RisingEdges(path, g, frames) == 1
    ensures Run(path, g, frames).clips == Clips(false, false, true)
  {
    var next := Tick(path, g, frames[0]);
    assert next.clips == Clips(false, false, true);
    assert next.position == Walk(path, g, frames[0].dt).position;
    var rest := frames[1..];
    assert forall i :: 0 <= i < |rest| ==> rest[i] == frames[i + 1];
    EngagedHolds(path, next, rest);
  }

  // ---------------------------------------------------------------------------
  // Whole frames from the initial scene

  /** The camera standing far outside the patrol square. */
  const FarCamera: Vec3 := Vec3(100.0, 0.0, 100.0)

  /** A one-second frame with the camera far away. */
  const FarSecond: Frame := Frame(1.0, FarCamera)

  /** `n` copies of the same frame. */
  function Repeat(f: Frame, n: nat): seq<Frame>
  {
    if n == 0 then [] else [f] + Repeat(f, n - 1)
  }

  /** The Gnark `i` seconds into its first segment, walking undisturbed. */
  function IntoFirstSegment(i: nat): Gnark
  {
    var t := (i as real) / 12.0;
    Gnark(0, 1, t, Lerp(PatrolPath[0], PatrolPath[1], t), None, None, Clips(true, false, false))
  }

  /** A point of the first segment is far from FarCamera. */
  lemma FirstSegmentFarFromCamera(t: real)
    ensures Distance(Lerp(PatrolPath[0], PatrolPath[1], t), FarCamera) >= 16.0
  {
    var p := Lerp(PatrolPath[0], PatrolPath[1], t);
    assert p.x - FarCamera.x == -92.0;
    Square(p.z - FarCamera.z);
  }

  /** The first far frame from the starting state begins the first segment. */
  lemma StartFirstSecond()
    ensures Tick(PatrolPath, Initial(), FarSecond) == IntoFirstSegment(1)
  {
    FirstSegmentFarFromCamera(1.0 / 12.0);
  }

  /** One far frame, `i` seconds into the first segment, is one second further. */
  lemma FirstSegmentSecond(i: nat)
    requires i < 12
    ensures Tick(PatrolPath, IntoFirstSegment(i), FarSecond) == IntoFirstSegment(i + 1)
  {
    FirstSegmentFarFromCamera(((i + 1) as real) / 12.0);
  }

  /** `m` far frames, `i` seconds into the first segment, are `m` seconds further. */
  lemma {:induction false} FirstSegmentSeconds(i: nat, m: nat)
    requires i + m <= 12
    ensures Run(PatrolPath, IntoFirstSegment(i), Repeat(FarSecond, m)) == IntoFirstSegment(i + m)
    decreases m
  {
    if m > 0 {
      FirstSegmentSecond(i);
      assert Repeat(FarSecond, m)[1..] == Repeat(FarSecond, m - 1);
      FirstSegmentSeconds(i + 1, m - 1);
    }
  }

  /** Six seconds into the first segment the Gnark is at its midpoint. */
  lemma HalfWayAlongFirstSegment()
    ensures IntoFirstSegment(6) == Gnark(0, 1, 0.5, Vec3(8.0, 0.0, 16.0), None, None, Clips(true, false, false))
  {
    assert (6 as real) / 12.0 == 0.5;
  }

  /**
   * Six one-second frames with the camera far away take the Gnark from its
   * starting state half way along its first segment, to the midpoint of the
   * first two waypoints.
   */
  lemma SixSecondsReachMidpoint()
    ensures var r := Run(PatrolPath, Initial(), Repeat(FarSecond, 6));
      && r.origin == 0 && r.target == 1 && r.fraction == 0.5
      && r.position == Vec3(8.0, 0.0, 16.0)
      && r.clips == Clips(true, false, false)
  {
    StartFirstSecond();
    assert Repeat(FarSecond, 6)[1..] == Repeat(FarSecond, 5);
    FirstSegmentSeconds(1, 5);
    HalfWayAlongFirstSegment();
  }

  /** From a TimeOut of TURN_TIME, two half-second frames leave -0.1 on the timer and a third removes it. */
  lemma TurnTimerScenario()
    ensures Countdowns(Some(TurnTime), [0.5]) == Some(0.4)
    ensures Countdowns(Some(TurnTime), [0.5, 0.5]) == Some(-0.1)
    ensures Countdowns(Some(TurnTime), [0.5, 0.5, 0.5]) == None
  {
    assert [0.5, 0.5, 0.5][1..] == [0.5, 0.5];
    assert [0.5, 0.5][1..] == [0.5];
  }
}
