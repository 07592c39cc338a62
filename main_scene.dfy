/**
 * The racing scene of the client (client/src/game/scenes/MainScene.ts): the
 * slowdown state machine driven by obstacle hits and the timed restore, the
 * throttled position updates, steering, the finish test, and the removal of
 * sprites that left the screen. Phaser's callbacks become explicit events; the
 * car's position, the key states and `socket.connected` are their parameters.
 */
module MainScene {

  const NormalSpeed: real := 200.0
  const SlowSpeed: real := 50.0
  /** Milliseconds after which the timer of an obstacle hit restores the speed. */
  const SlowDuration: int := 2000
  /** Position updates are sent only when more than this many milliseconds have passed. */
  const SendInterval: real := 100.0
  /** The race ends once the car is above the finish line plus this margin. */
  const FinishMargin: real := 20.0

  /** What the scene emits on its socket. */
  datatype ClientMessage =
    | CollisionReport(playerId: string, objectId: string, kind: string)
    | PlayerUpdate(x: real, y: real, speed: real)

  /** The fields `currentSpeed`, `isSlowed` and `lastUpdate`. */
  datatype Pace = Pace(currentSpeed: real, isSlowed: bool, lastUpdate: real)

  const InitialPace: Pace := Pace(NormalSpeed, false, 0.0)

  /** The speed is normal or slowed, and the flag says which. */
  predicate SpeedInvariant(p: Pace)
  {
    && (p.currentSpeed == NormalSpeed || p.currentSpeed == SlowSpeed)
    && (p.isSlowed <==> p.currentSpeed == SlowSpeed)
  }

  /** The Phaser callbacks that touch the pace fields. */
  datatype Signal = ObstacleOverlap(connected: bool) | SlowExpired | Tick(time: real, connected: bool)

  /** The throttle test of `update`. */
  predicate ShouldSendPosition(time: real, lastUpdate: real, connected: bool)
  {
    time - lastUpdate > SendInterval && connected
  }

  /** One callback's effect on the pace: only a frame that sends moves `lastUpdate`, and a frame never touches the speed. */
  function Step(p: Pace, s: Signal): (r: Pace)
    ensures r.lastUpdate == p.lastUpdate || (s.Tick? && r.lastUpdate == s.time && s.time - p.lastUpdate > SendInterval)
    ensures s.Tick? ==> r.currentSpeed == p.currentSpeed && r.isSlowed == p.isSlowed
  {
    match s
    case ObstacleOverlap(_) => if p.isSlowed then p else p.(currentSpeed := SlowSpeed, isSlowed := true)
    case SlowExpired => p.(currentSpeed := NormalSpeed, isSlowed := false)
    case Tick(time, connected) =>
      if ShouldSendPosition(time, p.lastUpdate, connected) then p.(lastUpdate := time) else p
  }

  /** Whether handling `s` in state `p` reports an obstacle collision to the server. */
  predicate ReportsObstacle(p: Pace, s: Signal)
  {
    s.ObstacleOverlap? && !p.isSlowed && s.connected
  }

  /** Whether handling `s` in state `p` sends a position update. */
  predicate SendsPosition(p: Pace, s: Signal)
  {
    s.Tick? && ShouldSendPosition(s.time, p.lastUpdate, s.connected)
  }

  function Run(p: Pace, ss: seq<Signal>): Pace
    decreases |ss|
  {
    if ss == [] then p else Run(Step(p, ss[0]), ss[1..])
  }

  /** The times at which a run of signals sends position updates. */
  function SendTimes(p: Pace, ss: seq<Signal>): seq<real>
    decreases |ss|
  {
    if ss == [] then []
    else (if SendsPosition(p, ss[0]) then [ss[0].time] else []) + SendTimes(Step(p, ss[0]), ss[1..])
  }

  /** One step keeps the speed invariant; an overlap while slowed changes nothing. */
  lemma StepKeepsSpeedInvariant(p: Pace, s: Signal)
    requires SpeedInvariant(p)
    ensures SpeedInvariant(Step(p, s))
    ensures s.ObstacleOverlap? && p.isSlowed ==> Step(p, s) == p && !ReportsObstacle(p, s)
    ensures s.ObstacleOverlap? && !p.isSlowed ==> Step(p, s).currentSpeed == SlowSpeed && Step(p, s).isSlowed
    ensures s.SlowExpired? ==> Step(p, s).currentSpeed == NormalSpeed && !Step(p, s).isSlowed
  {
  }

  /** Every run of callbacks from a state with the invariant keeps it. */
  lemma {:induction false} RunKeepsSpeedInvariant(p: Pace, ss: seq<Signal>)
    requires SpeedInvariant(p)
    ensures SpeedInvariant(Run(p, ss))
    decreases |ss|
  {
    if ss != [] {
      StepKeepsSpeedInvariant(p, ss[0]);
      RunKeepsSpeedInvariant(Step(p, ss[0]), ss[1..]);
    }
  }

  /**
   * Throttling: the first update of a run comes more than 100 ms after the
   * last one before it, consecutive updates are more than 100 ms apart, and
   * `lastUpdate` ends as the time of the last update sent.
   */
  lemma {:induction false} SendTimesSpaced(p: Pace, ss: seq<Signal>)
    ensures var t := SendTimes(p, ss);
            && (|t| > 0 ==> t[0] - p.lastUpdate > SendInterval)
            && (forall i :: 0 <= i < |t| - 1 ==> t[i + 1] - t[i] > SendInterval)
            && Run(p, ss).lastUpdate == (if |t| > 0 then t[|t| - 1] else p.lastUpdate)
    decreases |ss|
  {
    if ss != [] {
      var q := Step(p, ss[0]);
      SendTimesSpaced(q, ss[1..]);
      var rest := SendTimes(q, ss[1..]);
      if SendsPosition(p, ss[0]) {
        var t := [ss[0].time] + rest;
        assert SendTimes(p, ss) == t;
        assert q.lastUpdate == ss[0].time;
        forall i | 0 <= i < |t| - 1 ensures t[i + 1] - t[i] > SendInterval {
          if i > 0 { assert t[i] == rest[i - 1] && t[i + 1] == rest[i]; }
        }
      } else {
        assert SendTimes(p, ss) == rest;
        assert q.lastUpdate == p.lastUpdate;
      }
    }
  }

  /** Horizontal velocity from the arrow keys: left wins over right. */
  function SteeringVelocity(leftDown: bool, rightDown: bool, speed: real): (v: real)
    ensures leftDown ==> v == -speed
    ensures !leftDown && rightDown ==> v == speed
    ensures !leftDown && !rightDown ==> v == 0.0
  {
    if leftDown then -speed else if rightDown then speed else 0.0
  }

  /** Under the speed invariant the car moves sideways at 0, 50 or 200 units per second. */
  lemma SteeringSpeeds(leftDown: bool, rightDown: bool, p: Pace)
    requires SpeedInvariant(p)
    ensures var v := SteeringVelocity(leftDown, rightDown, p.currentSpeed);
            v in {0.0, SlowSpeed, -SlowSpeed, NormalSpeed, -NormalSpeed}
  {
  }

  /** The finish test of `update` (screen y grows downwards). */
  predicate ReachedFinish(carY: real, finishLineY: real)
  {
    carY < finishLineY + FinishMargin
  }

  /** An obstacle or NPC sprite: its name and its vertical position. */
  datatype Sprite = Sprite(name: string, y: real)

  /** The sprites of a group that are still on screen, in order. */
  function OnScreen(group: seq<Sprite>, cameraHeight: real): seq<Sprite>
  {
    if group == [] then []
    else
      OnScreen(group[..|group| - 1], cameraHeight)
      + (if group[|group| - 1].y > cameraHeight then [] else [group[|group| - 1]])
  }

  /** A sprite survives the sweep exactly when it was there and is not below the camera. */
  lemma {:induction false} OnScreenExactly(group: seq<Sprite>, cameraHeight: real)
    ensures forall x :: x in OnScreen(group, cameraHeight) <==> x in group && x.y <= cameraHeight
    ensures |OnScreen(group, cameraHeight)| <= |group|
  {
    if group != [] {
      var init := group[..|group| - 1];
      OnScreenExactly(init, cameraHeight);
      assert group == init + [group[|group| - 1]];
    }
  }

  /**
   * The sweep as written: `forEach` walks the group's live children array
   * while each `destroy()` splices the destroyed sprite out of it, so the
   * sprite that moves into the destroyed one's slot is never visited.
   */
  function LiveSweep(children: seq<Sprite>, i: nat, cameraHeight: real): (r: seq<Sprite>)
    ensures |r| <= |children|
    decreases |children| - i
  {
    if i >= |children| then children
    else if children[i].y > cameraHeight then
      LiveSweep(children[..i] + children[i + 1..], i + 1, cameraHeight)
    else LiveSweep(children, i + 1, cameraHeight)
  }

  /** As written, two adjacent sprites below the camera: only the first is destroyed. */
  lemma LiveSweepSkipsNeighbour()
    ensures var a, b := Sprite("obstacle_1", 700.0), Sprite("obstacle_2", 710.0);
            && LiveSweep([a, b], 0, 600.0) == [b]
            && OnScreen([a, b], 600.0) == []
  {
    var a, b := Sprite("obstacle_1", 700.0), Sprite("obstacle_2", 710.0);
    assert [a, b][..0] + [a, b][1..] == [b];
    assert OnScreen([a, b][..1], 600.0) == [];
  }

  /** As written, the sweep never destroys a sprite that is still on screen. */
  lemma {:induction false} LiveSweepKeepsOnScreen(children: seq<Sprite>, i: nat, cameraHeight: real)
    ensures forall x :: x in children && x.y <= cameraHeight ==> x in LiveSweep(children, i, cameraHeight)
    ensures forall x :: x in LiveSweep(children, i, cameraHeight) ==> x in children
    decreases |children| - i
  {
    if i < |children| {
      if children[i].y > cameraHeight {
        var rest := children[..i] + children[i + 1..];
        LiveSweepKeepsOnScreen(rest, i + 1, cameraHeight);
        forall x | x in children && x.y <= cameraHeight ensures x in rest {
          var k :| 0 <= k < |children| && children[k] == x;
          if k < i { assert rest[k] == x; } else { assert k != i; assert rest[k - 1] == x; }
        }
      } else {
        LiveSweepKeepsOnScreen(children, i + 1, cameraHeight);
      }
    }
  }

  /** One group's part of `cleanupObjects`, keeping the sprites on screen. */
  method SweepGroup(group: seq<Sprite>, cameraHeight: real) returns (kept: seq<Sprite>)
    ensures forall x :: x in kept <==> x in group && x.y <= cameraHeight
    ensures kept == OnScreen(group, cameraHeight)
  {
    kept := [];
    for i := 0 to |group|
      invariant kept == OnScreen(group[..i], cameraHeight)
    {
      assert group[..i + 1][..i] == group[..i];
      if group[i].y <= cameraHeight {
        kept := kept + [group[i]];
      }
    }
    assert group[..|group|] == group;
    OnScreenExactly(group, cameraHeight);
  }

  class MainScene {
    var currentSpeed: real
    var isSlowed: bool
    var lastUpdate: real
    var playerId: string
    /** Set by `scene.pause()` after an NPC collision. */
    var paused: bool
    /** Set once `raceFinished` has paused the physics. */
    var finished: bool
    var obstacles: seq<Sprite>
    var npcs: seq<Sprite>

    function PaceOf(): Pace
      reads this
    {
      Pace(currentSpeed, isSlowed, lastUpdate)
    }

    ghost predicate Valid()
      reads this
    {
      SpeedInvariant(PaceOf())
    }

    constructor ()
      ensures Valid() && PaceOf() == InitialPace
      ensures playerId == "" && !paused && !finished && obstacles == [] && npcs == []
    {
      currentSpeed := NormalSpeed;
      isSlowed := false;
      lastUpdate := 0.0;
      playerId := "";
      paused := false;
      finished := false;
      obstacles := [];
      npcs := [];
    }

    /** The socket's `connect` callback records the socket's id. */
    method OnConnect(socketId: string)
      modifies this`playerId
      ensures playerId == socketId
    {
      playerId := socketId;
    }

    /**
     * An obstacle overlap: ignored while slowed; otherwise slows the car and,
     * when the socket is connected, reports the obstacle by name.
     */
    /**
     * `timers` lists the delays of the calls this hit schedules: one restore
     * (`OnSlowExpired`) after `SlowDuration` milliseconds, unless the car was
     * already slowed and the hit is ignored.
     */
    method HandleObstacleOverlap(obstacle: Sprite, connected: bool)
      returns (out: seq<ClientMessage>, timers: seq<int>)
      requires Valid()
      modifies this`currentSpeed, this`isSlowed
      ensures Valid()
      ensures PaceOf() == Step(old(PaceOf()), ObstacleOverlap(connected))
      ensures out == if ReportsObstacle(old(PaceOf()), ObstacleOverlap(connected))
                     then [CollisionReport(playerId, obstacle.name, "obstacle")] else []
      ensures timers == if old(isSlowed) then [] else [SlowDuration]
    {
      if isSlowed {
        return [], [];
      }
      currentSpeed := SlowSpeed;
      isSlowed := true;
      out := [];
      if connected {
        out := [CollisionReport(playerId, obstacle.name, "obstacle")];
      }
      timers := [SlowDuration];
    }

    /** The delayed call scheduled by an obstacle hit: back to normal speed. */
    method OnSlowExpired()
      requires Valid()
      modifies this`currentSpeed, this`isSlowed
      ensures Valid()
      ensures PaceOf() == Step(old(PaceOf()), SlowExpired)
    {
      currentSpeed := NormalSpeed;
      isSlowed := false;
    }

    /**
     * An NPC collision: pauses the scene whatever the speed state, and reports
     * the NPC by name when the socket is connected.
     */
    method HandleNpcCollision(npc: Sprite, connected: bool) returns (out: seq<ClientMessage>)
      modifies this`paused
      ensures paused
      ensures out == if connected then [CollisionReport(playerId, npc.name, "npc")] else []
    {
      paused := true;
      out := if connected then [CollisionReport(playerId, npc.name, "npc")] else [];
    }

    /** `cleanupObjects`: drops the sprites below the camera from both groups. */
    method CleanupObjects(cameraHeight: real)
      modifies this`obstacles, this`npcs
      ensures obstacles == OnScreen(old(obstacles), cameraHeight)
      ensures npcs == OnScreen(old(npcs), cameraHeight)
    {
      obstacles := SweepGroup(obstacles, cameraHeight);
      npcs := SweepGroup(npcs, cameraHeight);
    }

    /**
     * One frame of `update`: steering, cleanup, the finish test and the
     * throttled position update.
     */
    method Update(time: real, leftDown: bool, rightDown: bool, carX: real, carY: real,
                  finishLineY: real, cameraHeight: real, connected: bool)
      returns (velocityX: real, out: seq<ClientMessage>)
      requires Valid()
      modifies this`lastUpdate, this`finished, this`obstacles, this`npcs
      ensures Valid()
      ensures velocityX == SteeringVelocity(leftDown, rightDown, currentSpeed)
      ensures obstacles == OnScreen(old(obstacles), cameraHeight) && npcs == OnScreen(old(npcs), cameraHeight)
      ensures finished == (old(finished) || ReachedFinish(carY, finishLineY))
      ensures PaceOf() == Step(old(PaceOf()), Tick(time, connected))
      ensures out == if SendsPosition(old(PaceOf()), Tick(time, connected))
                     then [PlayerUpdate(carX, carY, currentSpeed)] else []
    {
      velocityX := SteeringVelocity(leftDown, rightDown, currentSpeed);
      CleanupObjects(cameraHeight);
      if ReachedFinish(carY, finishLineY) {
        finished := true;
      }
      out := [];
      if time - lastUpdate > SendInterval && connected {
        lastUpdate := time;
        out := [PlayerUpdate(carX, carY, currentSpeed)];
      }
    }
  }
}
