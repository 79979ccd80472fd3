/**
 * The two barrier gates. Each is an open/closed state machine with the
 * time it was last opened. A keypoint inside the gate's trigger zone opens
 * the gate (or keeps it open) and restarts the hold. Without a trigger, an
 * open gate closes once more than four seconds have passed since it was
 * opened. The entry and exit gates differ only in their trigger zones.
 */
module Gates {
  import opened Geometry

  /** A trigger zone: strictly closer than `dx` to `cx` and strictly closer than `dy` to `cy`. */
  datatype Zone = Zone(cx: real, cy: real, dx: real, dy: real)

  const ENTRY_ZONE: Zone := Zone(90.0, 470.0, 50.0, 80.0)
  const EXIT_ZONE: Zone := Zone(340.0, 580.0, 50.0, 100.0)

  /** Seconds a gate stays open after its last trigger. */
  const HOLD_OPEN: real := 4.0

  datatype Gate = Gate(open: bool, openedAt: real)

  /** Both gates start closed, with an opening time of 0. */
  const CLOSED: Gate := Gate(false, 0.0)

  /** The trigger test compares the keypoint's untruncated position. */
  predicate InZone(z: Zone, k: Keypoint) {
    AbsReal(k.x - z.cx) < z.dx && AbsReal(k.y - z.cy) < z.dy
  }

  predicate Triggered(z: Zone, kps: seq<Keypoint>) {
    exists i :: 0 <= i < |kps| && InZone(z, kps[i])
  }

  /** The gate after one frame: a trigger (re)opens it at `now`; then an open gate past its hold closes. */
  function Next(z: Zone, g: Gate, kps: seq<Keypoint>, now: real): Gate {
    var g1 := if Triggered(z, kps) then Gate(true, now) else g;
    if g1.open && now - g1.openedAt > HOLD_OPEN then g1.(open := false) else g1
  }

  /**
   * One gate update: scans the frame's keypoints and, for each one in the
   * trigger zone, opens the gate at `now`; then closes an open gate whose
   * hold has run out.
   */
  method Tick(z: Zone, g: Gate, kps: seq<Keypoint>, now: real) returns (r: Gate)
    ensures r == Next(z, g, kps, now)
  {
    var open, openedAt := g.open, g.openedAt;
    for i := 0 to |kps|
      invariant (exists j :: 0 <= j < i && InZone(z, kps[j])) ==> open && openedAt == now
      invariant !(exists j :: 0 <= j < i && InZone(z, kps[j])) ==> open == g.open && openedAt == g.openedAt
    {
      var x, y := kps[i].x, kps[i].y;
      if AbsReal(x - z.cx) < z.dx && AbsReal(y - z.cy) < z.dy {
        open := true;
        openedAt := now;
      }
    }
    if open && now - openedAt > HOLD_OPEN {
      open := false;
    }
    r := Gate(open, openedAt);
  }

  /** The entry gate: trigger zone |x - 90| < 50, |y - 470| < 80. */
  method EntryGate(g: Gate, kps: seq<Keypoint>, now: real) returns (r: Gate)
    ensures r == Next(ENTRY_ZONE, g, kps, now)
  {
    r := Tick(ENTRY_ZONE, g, kps, now);
  }

  /** The exit gate: trigger zone |x - 340| < 50, |y - 580| < 100. */
  method ExitGate(g: Gate, kps: seq<Keypoint>, now: real) returns (r: Gate)
    ensures r == Next(EXIT_ZONE, g, kps, now)
  {
    r := Tick(EXIT_ZONE, g, kps, now);
  }

  /** A trigger leaves the gate open with its opening time set to `now`, whatever its state before. */
  lemma TriggerOpens(z: Zone, g: Gate, kps: seq<Keypoint>, now: real)
    requires Triggered(z, kps)
    ensures Next(z, g, kps, now) == Gate(true, now)
  {
  }

  /**
   * Without a trigger the opening time is kept, a closed gate stays closed,
   * and an open gate stays open exactly while at most four seconds have
   * passed (at exactly four it is still open).
   */
  lemma HoldWithoutTrigger(z: Zone, g: Gate, kps: seq<Keypoint>, now: real)
    requires !Triggered(z, kps)
    ensures Next(z, g, kps, now).openedAt == g.openedAt
    ensures Next(z, g, kps, now).open <==> g.open && now - g.openedAt <= HOLD_OPEN
  {
  }

  /** The gate after a run of frames, starting from `g`. */
  function RunGate(z: Zone, g: Gate, frames: seq<Observation>): Gate
    decreases |frames|
  {
    if frames == [] then g
    else
      var last := frames[|frames| - 1];
      Next(z, RunGate(z, g, frames[..|frames| - 1]), last.keypoints, last.now)
  }

  /** The clock never runs backwards over the run. */
  predicate NonDecreasing(frames: seq<Observation>) {
    forall i, j :: 0 <= i <= j < |frames| ==> frames[i].now <= frames[j].now
  }

  /** The index of the last frame that triggered the gate, or -1 when none did. */
  function LastTrigger(z: Zone, frames: seq<Observation>): (t: int)
    ensures -1 <= t < |frames|
    ensures t >= 0 ==> Triggered(z, frames[t].keypoints)
    ensures forall i :: t < i < |frames| ==> !Triggered(z, frames[i].keypoints)
    decreases |frames|
  {
    if frames == [] then -1
    else if Triggered(z, frames[|frames| - 1].keypoints) then |frames| - 1
    else LastTrigger(z, frames[..|frames| - 1])
  }

  /**
   * A gate is a latch on its last trigger. Over a run whose clock never goes
   * back, a gate that started closed is still closed if nothing triggered it;
   * otherwise its opening time is the time of the last triggering frame, and
   * it is open exactly when the final frame is at most four seconds later.
   */
  lemma {:induction false} GateLatch(z: Zone, frames: seq<Observation>)
    requires NonDecreasing(frames)
    ensures var g := RunGate(z, CLOSED, frames);
      var t := LastTrigger(z, frames);
      (t < 0 ==> g == CLOSED) &&
      (t >= 0 ==> g.openedAt == frames[t].now &&
                  (g.open <==> frames[|frames| - 1].now - frames[t].now <= HOLD_OPEN))
    decreases |frames|
  {
    if frames != [] {
      var n := |frames|;
      var prefix := frames[..n - 1];
      assert NonDecreasing(prefix);
      GateLatch(z, prefix);
      var last := frames[n - 1];
      if !Triggered(z, last.keypoints) {
        var t := LastTrigger(z, prefix);
        if t >= 0 {
          assert prefix[t] == frames[t];
          assert prefix[n - 2] == frames[n - 2];
          assert frames[n - 2].now <= last.now;
        }
      }
    }
  }

  /**
   * Re-triggering restarts the hold: an entry gate opened at t = 0 and
   * triggered again at t = 3 is still open at t = 7 and closed at t = 7.5,
   * while without the second trigger it would be closed at t = 4.5.
   */
  lemma RetriggerExtendsHold()
    ensures var k := Keypoint(90.0, 470.0, 1.0);
      var g0 := Next(ENTRY_ZONE, CLOSED, [k], 0.0);
      var g3 := Next(ENTRY_ZONE, g0, [k], 3.0);
      g0 == Gate(true, 0.0) && g3 == Gate(true, 3.0) &&
      Next(ENTRY_ZONE, g3, [], 7.0).open && !Next(ENTRY_ZONE, g3, [], 7.5).open &&
      !Next(ENTRY_ZONE, g0, [], 4.5).open
  {
    var k := Keypoint(90.0, 470.0, 1.0);
    assert InZone(ENTRY_ZONE, [k][0]);
  }
}
