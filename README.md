# Parking-lot monitor: a verified model of the per-frame logic

The system watches a car park through a fixed camera. The first frame is used
to discover the parking spots: the quadrilateral contours with a suitable
aspect ratio, labelled 'A', 'B', and so on. On every later frame, a blob
detector reports keypoints (a position and a size), and the core then does
the following, in a fixed order:

- **Entry gate.** It opens when a keypoint is in its trigger zone and closes
  once four seconds pass without a trigger.
- **Spot assignment.** Each keypoint is assigned to every spot that contains
  it. An empty spot takes the next registration plate from a FIFO list, or
  "Unknown" once the list is used up.
- **Expiry.** Spots not seen for more than 1.7 s are freed.
- **Collision check.** A frame whose largest keypoint is more than 1.3 times
  the mean size is recorded as a possible collision, unless an earlier record
  lies within 15 pixels on both axes.
- **Exit gate.** It works like the entry gate, with its own trigger zone.

The model has one file per concern:

- `geometry.dfy`: rectangles, keypoints, truncation to whole pixels and the
  inclusive containment test.
- `spots.dfy`: the spot-discovery filter and labelling, as a loop
  (`DiscoverSpots`) proved against the kept-positions function
  `KeptIndices`.
- `occupancy.dfy`: the occupancy tracker.
  - The class `Tracker` has the occupant map, the timer map and the plate
    list as fields. Its methods update these in place.
  - Each method is proved equal to a pure left fold: `Detect` for detection,
    and `ExpireAll` with `Freed` for expiry.
  - The FIFO, refresh, expiry and idempotence properties are proved about
    those folds.
- `gates.dfy`: the gate state machine. The loop `Tick` is proved against the
  one-frame function `Next`. A latch lemma covers whole runs of frames.
- `collisions.dfy`: the outlier test and the append-only, deduplicated
  record list (class `CollisionLog`), proved against the function `Record`.
- `parking_lot.dfy`: start-up state and the per-frame step (class `Lot`).

## Model

| member | source | states |
|---|---|---|
| Geometry.Trunc | all_features.py:34 | the pixel coordinate is the real truncated toward zero: for a non-negative real it is the largest integer not above it, for a negative real the smallest integer not below it |
| Geometry.CornersInside | all_features.py:27-30 | containment is inclusive on all four edges: both corners (x, y) and (x+w, y+h) are inside, one pixel beyond any edge is outside |
| SpotRegistry.KeptIndicesExact | all_features.py:15-23 | a contour position is kept iff the contour has 4 vertices, an aspect ratio strictly between 1 and 3, and an even index in the whole contour list; kept positions are strictly increasing and at most as many as the contours |
| SpotRegistry.QualifiesInIntegers | all_features.py:17-21 | for a box of positive height the ratio test 1 < w/h < 3 is exactly h < w < 3h |
| SpotRegistry.DiscoverSpots | all_features.py:13-25 | the k-th spot is the k-th kept contour's box labelled FIRST_LABEL + k ('A' + k): labels follow scan order with no gaps, are distinct, and there are exactly as many spots as kept contours |
| SpotRegistry.SpotForEveryQualifyingContour | all_features.py:15-23 | a contour yields a spot iff it qualifies, and that spot carries its box |
| SpotRegistry.FourQualifyingGiveTwo | all_features.py:15-23 | four qualifying contours in a row give spots from positions 0 and 2 only, because the evenness test uses the contour index |
| Occupancy.DetectIsFifo | all_features.py:32-42 | after one detection pass: the newly occupied spots are distinct and are exactly those that went from empty to occupied; the i-th of them holds the i-th plate, or "Unknown" past the end; occupied spots keep their occupant; the remaining plate list is a suffix of the original, shorter by the number of transitions that found a plate; occupant-set iff timer-set is preserved |
| Occupancy.DetectRefreshesSeenSpots | all_features.py:33-42 | a spot that some truncated keypoint lands on ends the pass occupied with timer now; a spot no keypoint lands on keeps occupant and timer |
| Occupancy.Tracker.constructor | all_features.py:137-139 | every discovered spot starts with no occupant and no timer, and the plate list is the given pool |
| Occupancy.Tracker.LandKeypoint | all_features.py:34-42 | one keypoint tested against every spot in order, with no early exit, gives the state and announcements of the inner scan `ScanSpots` |
| Occupancy.Tracker.DetectCars | all_features.py:32-42 | the maps and plate list after the call, and the announced spots, are exactly `Detect` of the state before; the tracker invariant is kept |
| Occupancy.Tracker.ExpireStale | all_features.py:44-50 | the state after the call is `ExpireAll` of the state before, and the freed spots are `Freed`, in spot order; the tracker invariant is kept |
| Occupancy.ExpireScanIsSimultaneous | all_features.py:46-50 | the spot-by-spot pass gives each scanned spot the value of a simultaneous update and leaves every other spot untouched, since labels are distinct |
| Occupancy.ExpireScanIsExpireAll | all_features.py:46-50 | one pass over all tracked spots equals the simultaneous update `ExpireAll` |
| Occupancy.FreedExact | all_features.py:46-48 | a spot is announced as freed iff it is tracked and expired: occupant set, timer set and non-zero, and now - timer > timeout |
| Occupancy.ExpireKeepsConsistent | all_features.py:49-50 | expiry keeps occupant-set iff timer-set and keeps the set of spots |
| Occupancy.ExpireExact | all_features.py:44-50 | expiry clears occupant and timer of exactly the expired spots, keeps every other entry and the plate list; afterwards every occupied spot was seen within the timeout or has a zero timer |
| Occupancy.StableScan | all_features.py:46-50 | on a state with nothing expired the pass changes nothing and frees nothing |
| Occupancy.ExpireIdempotent | all_features.py:44-50 | expiring twice with the same clock reading changes nothing the second time and frees nothing |
| Gates.Tick | all_features.py:64-73 | the gate after scanning all keypoints and applying the hold check is `Next` of the gate before |
| Gates.EntryGate | all_features.py:57-73 | the entry gate is `Next` with trigger zone abs(x-90) < 50, abs(y-470) < 80 |
| Gates.ExitGate | all_features.py:75-91 | the exit gate is `Next` with trigger zone abs(x-340) < 50, abs(y-580) < 100 |
| Gates.TriggerOpens | all_features.py:64-68 | a keypoint strictly inside the zone leaves the gate open with opening time now, whatever it was before |
| Gates.HoldWithoutTrigger | all_features.py:70-71 | without a trigger the opening time is kept, a closed gate stays closed, and an open gate stays open iff now - openedAt <= 4 (still open at exactly 4) |
| Gates.GateLatch | all_features.py:64-73 | over a run whose clock never goes back, a gate starting closed is closed if nothing triggered it; otherwise its opening time is that of the last triggering frame and it is open iff the final frame is at most 4 s later |
| Gates.RetriggerExtendsHold | all_features.py:64-73 | a re-trigger at t = 3 keeps the entry gate open at t = 7 and closed at t = 7.5, while without it the gate is closed at t = 4.5 |
| Collisions.Largest | all_features.py:97-100 | the chosen keypoint has the maximal size and no earlier keypoint has that size: it is the first largest |
| Collisions.RecordAppendsAtMostOne | all_features.py:95-103 | a frame appends at most one record and removes none; it appends iff the frame is non-empty, the largest size exceeds 1.3 times the mean, and the candidate is more than 15 pixels from every earlier record on some axis; the appended record is the truncated position of the first largest keypoint |
| Collisions.RecordKeepsSeparated | all_features.py:102-103 | every pair of records stays more than 15 pixels apart on some axis |
| Collisions.UniformFrameIsNoCollision | all_features.py:96-99 | a frame whose keypoints all have the same non-negative size (a single keypoint, in particular) never fires the size test |
| Collisions.NearbyCollisionsRecordedOnce | all_features.py:99-103 | outliers at (10, 10) and then (20, 20) give one record; a third at (100, 100) gives a second |
| Collisions.CollisionLog.constructor | all_features.py:135 | the record list starts empty |
| Collisions.CollisionLog.Observe | all_features.py:93-104 | the record list after the call is `Record` of the list before, records stay pairwise separated, and the result says whether one was appended |
| ParkingLot.Lot.constructor | all_features.py:135-144 | start-up: spots as discovered, each with no occupant and no timer, the four-plate pool, no collision records, both gates closed with opening time 0 |
| ParkingLot.Lot.Step | all_features.py:159-167 | one frame runs entry gate, detection, expiry with timeout 1.7, collision check and exit gate, each component's new state being its specification applied in that order; afterwards every occupied spot was seen within 1.7 s or has a zero timer |

## Left out

- Persistence (db.py) is not part of this model: the SQLite schema, seeding and the plate-permission query are I/O against a database.
- Image processing is replaced by abstract inputs. Contour extraction, polygon approximation and bounding boxes become a `Candidate` (vertex count and box). Thresholding, morphology and blob detection become a per-frame keypoint sequence.
- Rendering is not modelled: gate glyphs, spot rectangles, keypoint drawing and the window.
- The console messages become return values: the labels newly occupied, the labels freed and whether a collision was recorded.
- Video capture and loop termination are not modelled. A frame arrives as its keypoints and one clock reading.
- The wall clock becomes one `now` per frame. The source reads `time.time()` afresh at each use, so readings within one frame can differ slightly.
- Floating point is not modelled: coordinates, sizes, times and the constants 1.3, 1.7 and 4 are exact reals, so rounding of the mean and of time differences is not captured.
- `DiscoverSpots` requires every four-vertex contour's box to have non-zero height (`AllMeasurable`). A zero height would raise a division error in the source; a bounding box of a quadrilateral contour is assumed never to be that degenerate.
- Spot labels are modelled as natural-number code points starting at 65 ('A'). The failure of `chr` beyond the Unicode range, after more than a million spots, is not modelled.
- The maximum and mean of the keypoint sizes come from library calls in the source. The model defines them as recursive functions.
- On two points the code is followed rather than the natural reading of the design:
  - a keypoint updates every spot that contains it (there is no early exit from the spot loop);
  - the evenness test uses the index in the whole contour list, not the index among qualifying contours.
