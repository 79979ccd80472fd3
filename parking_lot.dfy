/**
 * The per-frame driver. The spots are discovered once from the first
 * frame's contours. The occupancy maps start empty, the plate pool holds
 * four plates, no collision is recorded and both gates are closed. Each
 * frame then runs, in this order: entry gate, spot assignment, expiry with
 * the 1.7 s timeout, collision detection, exit gate.
 *
 * Frame acquisition, keypoint detection and drawing are collaborators: a
 * frame arrives as its keypoints and one clock reading.
 */
module ParkingLot {
  import opened Geometry
  import opened SpotRegistry
  import opened Occupancy
  import opened Gates
  import opened Collisions

  /** The plate pool loaded at start-up, handed out front first. */
  const INITIAL_PLATES: seq<Plate> := ["EL 1111S", "EL 2222S", "EL 5555S", "EL 6666S"]

  /** What one frame announces: spots that became occupied, spots freed, and whether a collision was recorded. */
  datatype Report = Report(occupied: seq<Label>, freed: seq<Label>, collision: bool)

  class Lot {
    const tracker: Tracker
    const log: CollisionLog
    var entryGate: Gate
    var exitGate: Gate

    ghost predicate Valid()
      reads this, tracker, log
    {
      tracker.Valid() && log.Valid()
    }

    /** Start-up: discover the spots, then set up empty occupancy, the plate pool, no collisions, closed gates. */
    constructor (cands: seq<Candidate>)
      requires AllMeasurable(cands)
      ensures Valid() && fresh(tracker) && fresh(log)
      ensures |tracker.spots| == |KeptIndices(cands, |cands|)|
      ensures forall k :: 0 <= k < |tracker.spots| ==>
                tracker.spots[k] == Spot(FIRST_LABEL + k, cands[KeptIndices(cands, |cands|)[k]].box)
      ensures tracker.status.Keys == LabelsOf(tracker.spots)
      ensures forall l :: l in tracker.status ==> tracker.status[l] == None && tracker.timers[l] == None
      ensures tracker.plates == INITIAL_PLATES
      ensures log.events == []
      ensures entryGate == CLOSED && exitGate == CLOSED
    {
      var spots := DiscoverSpots(cands);
      tracker := new Tracker(spots, INITIAL_PLATES);
      log := new CollisionLog();
      entryGate, exitGate := CLOSED, CLOSED;
    }

    /**
     * One frame. Each component's new state is its own specification
     * applied in the fixed order; afterwards every occupied spot has been
     * seen within the timeout (or carries a zero timer).
     */
    method Step(kps: seq<Keypoint>, now: real) returns (report: Report)
      requires Valid()
      modifies this, tracker, log
      ensures Valid()
      ensures entryGate == Next(ENTRY_ZONE, old(entryGate), kps, now)
      ensures Tracks(old(tracker.State()), tracker.spots)
      ensures var detected := Detect(old(tracker.State()), tracker.spots, kps, now);
        Tracks(detected.snap, tracker.spots) &&
        report.occupied == detected.taken &&
        tracker.State() == ExpireAll(detected.snap, now, DEFAULT_TIMEOUT) &&
        report.freed == Freed(detected.snap, tracker.spots, now, DEFAULT_TIMEOUT)
      ensures log.events == Record(old(log.events), kps)
      ensures report.collision <==> |log.events| == |old(log.events)| + 1
      ensures exitGate == Next(EXIT_ZONE, old(exitGate), kps, now)
      ensures forall l :: l in tracker.status && tracker.status[l].Some? ==>
                tracker.timers[l].Some? &&
                (tracker.timers[l].value == 0.0 || now - tracker.timers[l].value <= DEFAULT_TIMEOUT)
    {
      entryGate := EntryGate(entryGate, kps, now);
      var occupied := tracker.DetectCars(kps, now);
      ghost var detected := tracker.State();
      var freed := tracker.ExpireStale(now, DEFAULT_TIMEOUT);
      ExpireExact(detected, now, DEFAULT_TIMEOUT);
      var collision := log.Observe(kps);
      exitGate := ExitGate(exitGate, kps, now);
      report := Report(occupied, freed, collision);
    }
  }
}
