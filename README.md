# Gnark patrol — a Dafny model

This project models the behaviour scripted in `src/game.ts` for the Gnark, the
creature that patrols a temple scene. Three per-frame systems run in the order
they are registered:

- **GnarkWalk** moves the Gnark around a closed loop of four waypoints. It
  interpolates linearly over 12 seconds per segment. At each waypoint it
  attaches a `TimeOut` of `TURN_TIME` (0.9 s) and plays the turn clip.
- **WaitSystem** counts every attached `TimeOut` down and removes it once it
  has run out. Removal lets the Gnark walk again.
- **BattleCry** reacts when the camera comes within a squared ground-plane
  distance of 16 (a radius of 4). It starts the `raiseDead` clip and faces the
  player. When the camera leaves, it stops the clip and faces the patrol
  target again.

Files:

- `wrappers.dfy`: `Option`, used for components an entity may or may not carry.
- `geometry.dfy` (module `Geometry`): exact real vectors, `Vector3.Lerp` and the
  squared planar `distance` helper.
- `patrol.dfy` (module `Patrol`): the Gnark's state as one value (`Gnark`) and
  one function per system (`Walk`, `Countdown`, `React`), one frame (`Tick`) and
  a run of frames (`Run`). These functions are the specification.
- `patrol_properties.dfy` (module `PatrolProperties`): what the systems promise,
  one frame at a time and over whole runs.
- `world.dfy` (module `Scene`): the mutable scene. Class `World` holds the
  Gnark's LerpData, transform and clip flags as fields, and one `TimeOut` slot
  per entity of the scene in an array. `GnarkWalk`, `WaitSystem`, `BattleCry`
  and `Tick` update them in place. Each method is proved to produce the state
  its `Patrol` function describes. `WaitSystem` keeps the source's loop over
  the paused entities.

Modelling choices:

- Frame times, the fraction, timers and coordinates are `real`: exact
  arithmetic, not IEEE floats.
- `transform.lookAt(p)` is recorded as the point `p` being faced.
- Each animation clip is its `playing` flag.
- The camera position and the frame time are parameters of `Tick`.

Four details of the code are easy to misread:

- The threshold is a squared distance of 16, so the radius is 4 (`src/game.ts:134`).
- A timer that drops to zero or below on one frame is only decremented on that
  frame. It is removed on the next frame (`src/game.ts:115-119`). So a 0.9 s timer
  run with two 0.5 s frames still holds -0.1; the third frame removes it
  (`TurnTimerScenario`).
- `fraction` is increased before it is used. It can therefore pass 1 by up to
  one frame's `dt / 12`, and the lerp overshoots the waypoint for that frame
  (`src/game.ts:83-89`). `FractionBounded` states the actual bound, so
  `0 <= fraction <= 1` is not an invariant.
- The walk step is skipped while `raiseDead` plays, as well as while a
  `TimeOut` is attached (`src/game.ts:78`). So the Gnark does not keep moving
  while it faces the player.

## Model

| member | source | states |
|---|---|---|
| Geometry.Lerp | src/game.ts:85-89 | interpolation at amount 0 gives the origin waypoint, at amount 1 the target, and between equal points the point itself |
| Geometry.Distance | src/game.ts:163-167 | the squared planar distance is non-negative and is 0 for points above one another |
| Geometry.Planar | src/game.ts:141 | the player's ground point has height 0 and lies at the same planar distance from every point as the camera itself |
| Geometry.DistanceSymmetric | src/game.ts:163-167 | the distance is the same with the two points swapped |
| Geometry.DistanceIgnoresHeight | src/game.ts:157-167 | the distance does not depend on either point's y coordinate, so measuring to the camera or to its ground point is the same |
| Patrol.Initial | src/game.ts:44-73 | the Gnark starts on segment 0 to 1 with fraction 0, no TimeOut and only the walk clip playing; its indices are valid on the four-point loop |
| Patrol.NextIndex | src/game.ts:92-95 | incrementing the target with wrap-around agrees with `(target + 1) mod n` and stays a valid index |
| Patrol.Walk | src/game.ts:76-105 | the walk step keeps origin and target valid indices; the fraction either stays, grows by exactly dt/12, or is reset to 0 |
| Patrol.Wait | src/game.ts:110-123 | the timer sweep as it acts on the Gnark: only its TimeOut changes, to `Countdown` of its old value |
| Patrol.Near | src/game.ts:133-134 | the proximity test; when it holds, the camera is less than 4 away from the Gnark along each ground axis |
| Patrol.Countdown | src/game.ts:110-123 | a TimeOut slot survives a frame exactly when it held a positive time, and then holds that time minus dt; an empty slot stays empty |
| Patrol.React | src/game.ts:129-149 | the battle cry never changes origin, target, fraction, position or the TimeOut |
| Patrol.Tick | src/game.ts:107-151 | one frame of the three systems in registration order keeps the indices valid |
| Patrol.Run | src/game.ts:107-151 | any number of frames keeps the indices valid |
| Patrol.RisingEdges | src/game.ts:134-140 | counts the frames of a run that take the rising-edge branch, where raiseDead was not playing before the frame and plays after it (at most one per frame) |
| PatrolProperties.WalkHaltedIsNoOp | src/game.ts:78 | with a TimeOut attached or raiseDead playing, the walk step changes nothing |
| PatrolProperties.WalkAlongSegment | src/game.ts:81-89 | mid-segment the fraction grows by exactly dt/12, the position is the lerp between the origin and target waypoints at the new fraction, and indices, facing and timer are kept; walk plays and turn does not |
| PatrolProperties.WalkCompletesSegment | src/game.ts:90-101 | at fraction >= 1 the new origin is the old target, the new target is old target + 1 or 0 at the end of the loop (still a valid index), the fraction is 0, the Gnark faces the new target without moving, walk stops, turn plays and a TimeOut of 0.9 is attached |
| PatrolProperties.WalkNeverRewinds | src/game.ts:83-96 | with dt >= 0 the fraction never decreases except through the reset to 0 at a completed segment, which also attaches a TimeOut and moves the target |
| PatrolProperties.Advance | src/game.ts:91-95 | m segment completions from a valid target leave a valid target |
| PatrolProperties.AdvanceWithinLoop | src/game.ts:92-95 | before the end of the loop, m completions move the target exactly m waypoints on |
| PatrolProperties.AdvanceCompose | src/game.ts:92-95 | a completions followed by b completions are a + b completions |
| PatrolProperties.AdvanceFullLoop | src/game.ts:91-95 | after as many completions as there are waypoints, the target is back at its starting waypoint |
| PatrolProperties.FractionBounded | src/game.ts:83-96 | over any run with frame times in [0, maxDt], a fraction in [0, 1 + maxDt/12] stays in that range |
| PatrolProperties.CountdownIdleFrameKeepsTimer | src/game.ts:115-116 | a zero-length frame never removes a live timer and leaves its time unchanged |
| PatrolProperties.CountdownRemovesOneFrameLate | src/game.ts:115-119 | the frame on which a timer reaches zero only decrements it; the next frame removes it |
| PatrolProperties.TimerExpires | src/game.ts:112-120 | a timer holding at most k frames' worth of time is removed within k + 1 frames of at least that length |
| PatrolProperties.TurnEnds | src/game.ts:78-120 | from a TimeOut holding at most k frames' worth of time, some prefix of any k + 1 or more frames of at least that length leaves the Gnark with no TimeOut, so every turn at a waypoint ends and the walk step runs again |
| PatrolProperties.TurnTimerScenario | src/game.ts:112-120 | a 0.9 s TimeOut holds 0.4 after one 0.5 s frame and -0.1 after two, and is removed by the third |
| PatrolProperties.ReactNear | src/game.ts:134-143 | near the camera the Gnark faces (camera.x, 0, camera.z); if raiseDead was not playing it now plays while walk and turn stop, and if it was the clips are untouched |
| PatrolProperties.ReactFar | src/game.ts:144-147 | away from the camera a playing raiseDead stops and the Gnark faces its patrol target; otherwise nothing changes |
| PatrolProperties.EngagedHolds | src/game.ts:129-147 | while raiseDead plays and the camera stays near, no frame moves the Gnark, advances its patrol, changes a clip or starts raiseDead again; it faces the last camera's ground point |
| PatrolProperties.RaisesOnce | src/game.ts:134-142 | when the camera comes near and stays near, raiseDead starts exactly once over the run and is still playing at its end |
| PatrolProperties.StartFirstSecond | src/game.ts:76-89 | the first one-second frame from the starting state, with the camera far away, puts the Gnark 1/12 of the way along its first segment, walking |
| PatrolProperties.FirstSegmentSecond | src/game.ts:83-89 | with the camera far away, a one-second frame moves the Gnark from i/12 to (i+1)/12 of its first segment |
| PatrolProperties.FirstSegmentSeconds | src/game.ts:83-89 | with the camera far away, m one-second frames move the Gnark from i/12 to (i+m)/12 of its first segment |
| PatrolProperties.SixSecondsReachMidpoint | src/game.ts:76-105 | six one-second frames from the start, with the camera far away, bring the Gnark to (8, 0, 16), the midpoint of the first segment, at fraction 0.5 |
| Scene.World.constructor | src/game.ts:44-73 | the scene starts in the initial Gnark state with every entity's TimeOut slot empty |
| Scene.World.GnarkWalk | src/game.ts:76-105 | the fields after the walk step are those `Patrol.Walk` gives; no other entity's TimeOut changes |
| Scene.World.WaitSystem | src/game.ts:110-123 | the loop over all entities leaves every TimeOut slot as `Patrol.Countdown` of its old value |
| Scene.World.BattleCry | src/game.ts:129-149 | the fields after the battle cry are those `Patrol.React` gives |
| Scene.World.Tick | src/game.ts:107-151 | one frame leaves the Gnark as `Patrol.Tick` describes and counts every other entity's TimeOut down |
| Scene.PatrolForSixSeconds | src/game.ts:76-105 | a client driving `World.Tick` six times with one-second frames finds the Gnark at (8, 0, 16) with fraction 0.5 |

## Left out

- Scenery and asset setup are not modelled: the temple, the sharks and their
  click toggle of the bite clip, the sea bed, the tree, the logo, the avocado,
  the cat and `AddGLTF` (`src/game.ts:33-42`, `172-282`). These are only
  engine entity and asset calls.
- Animation playback is not modelled. `raiseDeadClip.reset()`, the
  `looping = false` setting of the turn clip, and the difference between
  `pause()` and `stop()` only affect playback position. Each clip is its
  `playing` flag.
- `Transform.lookAt` is recorded as the point faced. The rotation it computes
  is not modelled.
- IEEE floating point is not modelled. The `dt / 12` step, the lerp and the
  countdown are exact real arithmetic, so float rounding is not captured.
- The engine's component group is modelled as one `TimeOut` slot per entity,
  swept in index order. The engine's own iteration order is not modelled.
  Neither is what happens when a component is removed from the group while
  the loop runs over it. Only the Gnark ever carries a `TimeOut`.
- `Camera.instance` and the host's per-frame callback are not modelled. They
  become the `camera` and `dt` parameters of `Tick`.
- No check rejects a waypoint loop shorter than two points, because the source
  has none. The loop is the fixed four-point path, and `Valid` requires at
  least two points.
