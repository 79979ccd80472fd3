/**
 * The occupancy tracker. Each spot has an occupant (a registration plate,
 * "Unknown", or nothing) and a timer (the time it was last seen, or
 * nothing). Every frame, each keypoint refreshes every spot that contains
 * it. A spot that was empty takes the next plate from the front of a FIFO
 * plate list, or "Unknown" when the list is exhausted. Afterwards, spots not
 * refreshed for longer than the timeout are freed.
 *
 * The pure functions Occupy, ScanSpots, ScanFrame, ExpireAll and Freed
 * specify the two in-place passes of the Tracker class. The lemmas state
 * what those passes guarantee.
 */
module Occupancy {
  import opened Geometry
  import opened SpotRegistry

  datatype Option<T> = None | Some(value: T)

  type Plate = string

  /** The occupant given to a spot when the plate list is exhausted. */
  const UNKNOWN: Plate := "Unknown"

  /** The expiry timeout used by the frame loop, in seconds. */
  const DEFAULT_TIMEOUT: real := 1.7

  /** The tracker's state: occupant per spot, timer per spot, and the plates not yet handed out. */
  datatype Snapshot = Snapshot(status: map<Label, Option<Plate>>, timers: map<Label, Option<real>>, plates: seq<Plate>)

  /** Both maps have the same spots, and a spot has an occupant exactly when it has a timer. */
  predicate Consistent(o: Snapshot) {
    o.status.Keys == o.timers.Keys &&
    forall l :: l in o.status ==> (o.status[l].Some? <==> o.timers[l].Some?)
  }

  /** Every spot of `spots` has an entry in both maps. */
  predicate Tracks(o: Snapshot, spots: seq<Spot>) {
    forall j :: 0 <= j < |spots| ==> spots[j].name in o.status && spots[j].name in o.timers
  }

  function LabelsOf(spots: seq<Spot>): set<Label> {
    set j | 0 <= j < |spots| :: spots[j].name
  }

  /** A keypoint lands on a spot when its truncated position is inside the spot's rectangle. */
  predicate Covers(s: Spot, k: Keypoint) {
    IsInside(s.rect, Trunc(k.x), Trunc(k.y))
  }

  /** Some spot named `l` contains keypoint `k`. */
  predicate SeenBy(spots: seq<Spot>, k: Keypoint, l: Label) {
    exists j :: 0 <= j < |spots| && spots[j].name == l && Covers(spots[j], k)
  }

  /** Some keypoint of the frame lands on a spot named `l`. */
  predicate Seen(spots: seq<Spot>, kps: seq<Keypoint>, l: Label) {
    exists i :: 0 <= i < |kps| && SeenBy(spots, kps[i], l)
  }

  /** The occupant handed to the i-th spot that becomes occupied: the i-th plate, or "Unknown" past the end. */
  function PlateAt(plates: seq<Plate>, i: nat): Plate {
    if i < |plates| then plates[i] else UNKNOWN
  }

  function Min(a: int, b: int): int {
    if a < b then a else b
  }

  /** A pass over one frame: the snapshot so far and the spots announced as newly occupied, in order. */
  datatype Pass = Pass(snap: Snapshot, taken: seq<Label>)

  /** A keypoint lands on spot `l`: an empty spot takes the front plate (or "Unknown"); the timer becomes `now`. */
  function Occupy(p: Pass, l: Label, now: real): Pass
    requires l in p.snap.status && l in p.snap.timers
  {
    var o := p.snap;
    if o.status[l].None? then
      var plate := if o.plates != [] then o.plates[0] else UNKNOWN;
      var rest := if o.plates != [] then o.plates[1..] else [];
      Pass(Snapshot(o.status[l := Some(plate)], o.timers[l := Some(now)], rest), p.taken + [l])
    else
      Pass(o.(timers := o.timers[l := Some(now)]), p.taken)
  }

  /** The inner scan: one keypoint against every spot, in spot order, with no early exit. */
  function ScanSpots(p: Pass, spots: seq<Spot>, k: Keypoint, now: real): (r: Pass)
    requires Tracks(p.snap, spots)
    ensures r.snap.status.Keys == p.snap.status.Keys && r.snap.timers.Keys == p.snap.timers.Keys
    decreases |spots|
  {
    if spots == [] then p
    else
      var q := ScanSpots(p, spots[..|spots| - 1], k, now);
      var s := spots[|spots| - 1];
      if Covers(s, k) then Occupy(q, s.name, now) else q
  }

  /** The outer scan: every keypoint of the frame, in order. */
  function ScanFrame(p: Pass, spots: seq<Spot>, kps: seq<Keypoint>, now: real): (r: Pass)
    requires Tracks(p.snap, spots)
    ensures r.snap.status.Keys == p.snap.status.Keys && r.snap.timers.Keys == p.snap.timers.Keys
    decreases |kps|
  {
    if kps == [] then p
    else ScanSpots(ScanFrame(p, spots, kps[..|kps| - 1], now), spots, kps[|kps| - 1], now)
  }

  /** One call of the car detection on snapshot `o`, starting with nothing announced. */
  function Detect(o: Snapshot, spots: seq<Spot>, kps: seq<Keypoint>, now: real): Pass
    requires Tracks(o, spots)
  {
    ScanFrame(Pass(o, []), spots, kps, now)
  }

  /**
   * What a pass that started from `o0` has done so far: the announced spots
   * are distinct, were empty in `o0`, and the i-th of them holds the i-th
   * plate (or "Unknown"); every spot that went from empty to occupied was
   * announced; occupied spots kept their occupant; and the plate list is what
   * remains of the original after one plate per announcement.
   */
  ghost predicate Fifo(o0: Snapshot, p: Pass) {
    p.snap.status.Keys == o0.status.Keys && p.snap.timers.Keys == o0.timers.Keys &&
    (forall i, j :: 0 <= i < j < |p.taken| ==> p.taken[i] != p.taken[j]) &&
    (forall i :: 0 <= i < |p.taken| ==>
       p.taken[i] in o0.status && o0.status[p.taken[i]].None? &&
       p.snap.status[p.taken[i]] == Some(PlateAt(o0.plates, i))) &&
    (forall l :: l in o0.status && o0.status[l].None? && p.snap.status[l].Some? ==> l in p.taken) &&
    (forall l :: l in o0.status && o0.status[l].Some? ==> p.snap.status[l] == o0.status[l]) &&
    p.snap.plates == o0.plates[Min(|o0.plates|, |p.taken|)..]
  }

  /** An occupied spot that is seen again only has its timer refreshed. */
  lemma RefreshKeepsFifo(o0: Snapshot, p: Pass, l: Label, now: real)
    requires Fifo(o0, p)
    requires l in p.snap.status && l in p.snap.timers && p.snap.status[l].Some?
    ensures Fifo(o0, Occupy(p, l, now))
  {
    var o := p.snap;
    var r := Occupy(p, l, now);
    assert r.taken == p.taken && r.snap.status == o.status && r.snap.plates == o.plates;
    assert r.snap.timers == o.timers[l := Some(now)];
  }

  /** An empty spot that is seen takes the next plate in FIFO order and is announced. */
  lemma ClaimKeepsFifo(o0: Snapshot, p: Pass, l: Label, now: real)
    requires Fifo(o0, p)
    requires l in p.snap.status && l in p.snap.timers && p.snap.status[l].None?
    ensures Fifo(o0, Occupy(p, l, now))
  {
    var o := p.snap;
    var r := Occupy(p, l, now);
    var t, n := |p.taken|, |o0.plates|;
    var plate := PlateAt(o0.plates, t);
    forall i | 0 <= i < t
      ensures p.taken[i] != l
    {
      assert o.status[p.taken[i]].Some?;
    }
    assert o0.status[l].None?;
    if t < n {
      assert o.plates[0] == o0.plates[t];
      assert o.plates[1..] == o0.plates[t + 1..];
    } else {
      assert o.plates == [];
    }
    assert r.snap.status == o.status[l := Some(plate)];
    assert r.snap.timers == o.timers[l := Some(now)];
    assert r.taken == p.taken + [l];
    assert r.snap.plates == o0.plates[Min(n, t + 1)..];
    forall i, j | 0 <= i < j < |r.taken|
      ensures r.taken[i] != r.taken[j]
    {
      if j < t {
        assert r.taken[i] == p.taken[i] && r.taken[j] == p.taken[j];
      }
    }
    forall i | 0 <= i < |r.taken|
      ensures r.taken[i] in o0.status && o0.status[r.taken[i]].None? &&
              r.snap.status[r.taken[i]] == Some(PlateAt(o0.plates, i))
    {
      if i < t {
        assert r.taken[i] == p.taken[i];
      }
    }
    forall x | x in o0.status && o0.status[x].None? && r.snap.status[x].Some?
      ensures x in r.taken
    {
      if x != l {
        assert o.status[x].Some?;
        assert x in p.taken;
      }
    }
    forall x | x in o0.status && o0.status[x].Some?
      ensures r.snap.status[x] == o0.status[x]
    {
      assert x != l;
    }
  }

  lemma OccupyKeepsFifo(o0: Snapshot, p: Pass, l: Label, now: real)
    requires Fifo(o0, p)
    requires l in p.snap.status && l in p.snap.timers
    ensures Fifo(o0, Occupy(p, l, now))
  {
    if p.snap.status[l].None? {
      ClaimKeepsFifo(o0, p, l, now);
    } else {
      RefreshKeepsFifo(o0, p, l, now);
    }
  }

  lemma {:induction false} ScanSpotsKeepsFifo(o0: Snapshot, p: Pass, spots: seq<Spot>, k: Keypoint, now: real)
    requires Fifo(o0, p) && Tracks(p.snap, spots)
    ensures Fifo(o0, ScanSpots(p, spots, k, now))
    decreases |spots|
  {
    if spots != [] {
      var prefix := spots[..|spots| - 1];
      ScanSpotsKeepsFifo(o0, p, prefix, k, now);
      var q := ScanSpots(p, prefix, k, now);
      var s := spots[|spots| - 1];
      if Covers(s, k) {
        OccupyKeepsFifo(o0, q, s.name, now);
      }
    }
  }

  lemma {:induction false} ScanFrameKeepsFifo(o0: Snapshot, p: Pass, spots: seq<Spot>, kps: seq<Keypoint>, now: real)
    requires Fifo(o0, p) && Tracks(p.snap, spots)
    ensures Fifo(o0, ScanFrame(p, spots, kps, now))
    decreases |kps|
  {
    if kps != [] {
      var prefix := kps[..|kps| - 1];
      ScanFrameKeepsFifo(o0, p, spots, prefix, now);
      ScanSpotsKeepsFifo(o0, ScanFrame(p, spots, prefix, now), spots, kps[|kps| - 1], now);
    }
  }

  lemma {:induction false} ScanSpotsKeepsConsistent(p: Pass, spots: seq<Spot>, k: Keypoint, now: real)
    requires Consistent(p.snap) && Tracks(p.snap, spots)
    ensures Consistent(ScanSpots(p, spots, k, now).snap)
    decreases |spots|
  {
    if spots != [] {
      ScanSpotsKeepsConsistent(p, spots[..|spots| - 1], k, now);
    }
  }

  lemma {:induction false} ScanFrameKeepsConsistent(p: Pass, spots: seq<Spot>, kps: seq<Keypoint>, now: real)
    requires Consistent(p.snap) && Tracks(p.snap, spots)
    ensures Consistent(ScanFrame(p, spots, kps, now).snap)
    decreases |kps|
  {
    if kps != [] {
      var prefix := kps[..|kps| - 1];
      ScanFrameKeepsConsistent(p, spots, prefix, now);
      ScanSpotsKeepsConsistent(ScanFrame(p, spots, prefix, now), spots, kps[|kps| - 1], now);
    }
  }

  /**
   * Plates are handed out first-in first-out and at most once. After one
   * detection pass, the spots announced as newly occupied are distinct and
   * are exactly those that went from empty to occupied; the i-th of them
   * holds the i-th plate of the list, or "Unknown" once the list is
   * exhausted; the remaining list is a suffix of the original, shorter by the
   * number of transitions that found a plate; occupied spots keep their
   * occupant; and "occupant set iff timer set" still holds.
   */
  lemma DetectIsFifo(o: Snapshot, spots: seq<Spot>, kps: seq<Keypoint>, now: real)
    requires Consistent(o) && Tracks(o, spots)
    ensures Consistent(Detect(o, spots, kps, now).snap)
    ensures Detect(o, spots, kps, now).snap.status.Keys == o.status.Keys
    ensures var taken := Detect(o, spots, kps, now).taken;
      forall i, j :: 0 <= i < j < |taken| ==> taken[i] != taken[j]
    ensures var r := Detect(o, spots, kps, now);
      forall l :: l in o.status ==> (l in r.taken <==> o.status[l].None? && r.snap.status[l].Some?)
    ensures var r := Detect(o, spots, kps, now);
      forall i :: 0 <= i < |r.taken| ==>
        r.taken[i] in r.snap.status && r.snap.status[r.taken[i]] == Some(PlateAt(o.plates, i))
    ensures var r := Detect(o, spots, kps, now).snap;
      forall l :: l in o.status && o.status[l].Some? ==> r.status[l] == o.status[l]
    ensures var r := Detect(o, spots, kps, now);
      r.snap.plates == o.plates[Min(|o.plates|, |r.taken|)..] &&
      |o.plates| - |r.snap.plates| == Min(|o.plates|, |r.taken|)
  {
    assert o.plates[0..] == o.plates;
    ScanFrameKeepsFifo(o, Pass(o, []), spots, kps, now);
    ScanFrameKeepsConsistent(Pass(o, []), spots, kps, now);
    var r := Detect(o, spots, kps, now);
    assert Fifo(o, r);
  }

  lemma {:induction false} ScanSpotsEntry(p: Pass, spots: seq<Spot>, k: Keypoint, now: real, l: Label)
    requires Tracks(p.snap, spots) && l in p.snap.status && l in p.snap.timers
    ensures var r := ScanSpots(p, spots, k, now);
      if SeenBy(spots, k, l) then r.snap.timers[l] == Some(now) && r.snap.status[l].Some?
      else r.snap.timers[l] == p.snap.timers[l] && r.snap.status[l] == p.snap.status[l]
    decreases |spots|
  {
    if spots != [] {
      var last := |spots| - 1;
      var prefix := spots[..last];
      ScanSpotsEntry(p, prefix, k, now, l);
      var s := spots[last];
      if !(s.name == l && Covers(s, k)) {
        if SeenBy(spots, k, l) {
          var j :| 0 <= j < |spots| && spots[j].name == l && Covers(spots[j], k);
          assert j < last && prefix[j] == spots[j];
        }
        if SeenBy(prefix, k, l) {
          var j :| 0 <= j < |prefix| && prefix[j].name == l && Covers(prefix[j], k);
          assert spots[j] == prefix[j];
        }
      } else {
        assert SeenBy(spots, k, l) by { assert spots[last].name == l && Covers(spots[last], k); }
      }
    }
  }

  lemma {:induction false} ScanFrameEntry(p: Pass, spots: seq<Spot>, kps: seq<Keypoint>, now: real, l: Label)
    requires Tracks(p.snap, spots) && l in p.snap.status && l in p.snap.timers
    ensures var r := ScanFrame(p, spots, kps, now);
      if Seen(spots, kps, l) then r.snap.timers[l] == Some(now) && r.snap.status[l].Some?
      else r.snap.timers[l] == p.snap.timers[l] && r.snap.status[l] == p.snap.status[l]
    decreases |kps|
  {
    if kps != [] {
      var last := |kps| - 1;
      var prefix := kps[..last];
      ScanFrameEntry(p, spots, prefix, now, l);
      var q := ScanFrame(p, spots, prefix, now);
      ScanSpotsEntry(q, spots, kps[last], now, l);
      if !SeenBy(spots, kps[last], l) {
        if Seen(spots, kps, l) {
          var i :| 0 <= i < |kps| && SeenBy(spots, kps[i], l);
          assert i < last && prefix[i] == kps[i];
        }
        if Seen(spots, prefix, l) {
          var i :| 0 <= i < |prefix| && SeenBy(spots, prefix[i], l);
          assert kps[i] == prefix[i];
        }
      }
    }
  }

  /**
   * A keypoint refreshes every spot that contains it. After one detection
   * pass, a spot some keypoint landed on is occupied and its timer is `now`;
   * a spot no keypoint landed on keeps its occupant and its timer.
   */
  lemma DetectRefreshesSeenSpots(o: Snapshot, spots: seq<Spot>, kps: seq<Keypoint>, now: real, l: Label)
    requires Tracks(o, spots) && l in o.status && l in o.timers
    ensures var r := Detect(o, spots, kps, now).snap;
      if Seen(spots, kps, l) then r.timers[l] == Some(now) && r.status[l].Some?
      else r.timers[l] == o.timers[l] && r.status[l] == o.status[l]
  {
    ScanFrameEntry(Pass(o, []), spots, kps, now, l);
  }

  /** The expiry test: occupied, timer set and non-zero, and not seen for longer than the timeout. */
  predicate Expired(o: Snapshot, l: Label, now: real, timeout: real)
    requires l in o.status && l in o.timers
  {
    o.status[l].Some? && o.timers[l].Some? && o.timers[l].value != 0.0 && now - o.timers[l].value > timeout
  }

  /** Expiry as one simultaneous update: expired spots lose occupant and timer, all others are kept. */
  function ExpireAll(o: Snapshot, now: real, timeout: real): Snapshot
    requires o.status.Keys == o.timers.Keys
  {
    Snapshot(
      map l | l in o.status :: if Expired(o, l, now, timeout) then None else o.status[l],
      map l | l in o.status :: if Expired(o, l, now, timeout) then None else o.timers[l],
      o.plates)
  }

  /** The expiry step for one spot, as the in-place pass applies it. */
  function ExpireOne(o: Snapshot, l: Label, now: real, timeout: real): Snapshot
    requires l in o.status && l in o.timers
  {
    if Expired(o, l, now, timeout) then o.(status := o.status[l := None], timers := o.timers[l := None]) else o
  }

  /** The in-place pass: the expiry step applied to each spot in turn. */
  function ExpireScan(o: Snapshot, spots: seq<Spot>, now: real, timeout: real): (r: Snapshot)
    requires Tracks(o, spots)
    ensures r.status.Keys == o.status.Keys && r.timers.Keys == o.timers.Keys && r.plates == o.plates
    decreases |spots|
  {
    if spots == [] then o
    else ExpireOne(ExpireScan(o, spots[..|spots| - 1], now, timeout), spots[|spots| - 1].name, now, timeout)
  }

  /** The spots the in-place pass announces as freed, in spot order. */
  function Freed(o: Snapshot, spots: seq<Spot>, now: real, timeout: real): seq<Label>
    requires Tracks(o, spots)
    decreases |spots|
  {
    if spots == [] then []
    else
      var prefix := spots[..|spots| - 1];
      var l := spots[|spots| - 1].name;
      Freed(o, prefix, now, timeout) + (if Expired(ExpireScan(o, prefix, now, timeout), l, now, timeout) then [l] else [])
  }

  lemma NameNotInPrefix(spots: seq<Spot>, j: nat)
    requires DistinctLabels(spots) && j < |spots|
    ensures spots[j].name !in LabelsOf(spots[..j])
  {
    forall m | 0 <= m < j
      ensures spots[..j][m].name != spots[j].name
    {
      assert spots[..j][m] == spots[m];
    }
  }

  lemma LabelsOfSnoc(spots: seq<Spot>, j: nat)
    requires j < |spots|
    ensures LabelsOf(spots[..j + 1]) == LabelsOf(spots[..j]) + {spots[j].name}
  {
    var prefix, longer := spots[..j], spots[..j + 1];
    forall x | x in LabelsOf(longer)
      ensures x in LabelsOf(prefix) + {spots[j].name}
    {
      var m :| 0 <= m < j + 1 && longer[m].name == x;
      if m < j {
        assert prefix[m] == longer[m];
      }
    }
    forall x | x in LabelsOf(prefix)
      ensures x in LabelsOf(longer)
    {
      var m :| 0 <= m < j && prefix[m].name == x;
      assert longer[m] == prefix[m];
    }
    assert longer[j] == spots[j];
  }

  /**
   * Each expiry step only touches its own spot: after scanning `spots`,
   * every scanned spot holds the simultaneous update's value and every other
   * spot is untouched. With distinct labels, freeing one spot never changes
   * whether another one expires.
   */
  lemma {:induction false} ExpireScanIsSimultaneous(o: Snapshot, spots: seq<Spot>, now: real, timeout: real)
    requires Tracks(o, spots) && DistinctLabels(spots)
    ensures var r := ExpireScan(o, spots, now, timeout);
      forall l :: l in LabelsOf(spots) ==>
        r.status[l] == (if Expired(o, l, now, timeout) then None else o.status[l]) &&
        r.timers[l] == (if Expired(o, l, now, timeout) then None else o.timers[l])
    ensures var r := ExpireScan(o, spots, now, timeout);
      forall l :: l in o.status && l in o.timers && l !in LabelsOf(spots) ==>
        r.status[l] == o.status[l] && r.timers[l] == o.timers[l]
    decreases |spots|
  {
    if spots != [] {
      var last := |spots| - 1;
      var prefix := spots[..last];
      var l := spots[last].name;
      assert spots[..last + 1] == spots;
      assert DistinctLabels(prefix);
      ExpireScanIsSimultaneous(o, prefix, now, timeout);
      NameNotInPrefix(spots, last);
      LabelsOfSnoc(spots, last);
    }
  }

  /** Exactly the expired spots are announced as freed. */
  lemma {:induction false} FreedExact(o: Snapshot, spots: seq<Spot>, now: real, timeout: real)
    requires Tracks(o, spots) && DistinctLabels(spots)
    ensures forall l :: l in Freed(o, spots, now, timeout) <==>
              l in LabelsOf(spots) && l in o.status && l in o.timers && Expired(o, l, now, timeout)
    decreases |spots|
  {
    if spots != [] {
      var last := |spots| - 1;
      var prefix := spots[..last];
      assert spots[..last + 1] == spots;
      assert DistinctLabels(prefix);
      FreedExact(o, prefix, now, timeout);
      ExpireScanIsSimultaneous(o, prefix, now, timeout);
      NameNotInPrefix(spots, last);
      LabelsOfSnoc(spots, last);
    }
  }

  /** Scanning every tracked spot once is the simultaneous update. */
  lemma ExpireScanIsExpireAll(o: Snapshot, spots: seq<Spot>, now: real, timeout: real)
    requires Tracks(o, spots) && DistinctLabels(spots)
    requires o.status.Keys == LabelsOf(spots) && o.timers.Keys == LabelsOf(spots)
    ensures ExpireScan(o, spots, now, timeout) == ExpireAll(o, now, timeout)
  {
    ExpireScanIsSimultaneous(o, spots, now, timeout);
    var r, e := ExpireScan(o, spots, now, timeout), ExpireAll(o, now, timeout);
    assert r.status.Keys == e.status.Keys && r.timers.Keys == e.timers.Keys;
    forall l | l in r.status
      ensures r.status[l] == e.status[l] && r.timers[l] == e.timers[l]
    {
      assert l in LabelsOf(spots);
    }
    assert r.status == e.status;
    assert r.timers == e.timers;
  }

  lemma ExpireKeepsConsistent(o: Snapshot, now: real, timeout: real)
    requires Consistent(o)
    ensures Consistent(ExpireAll(o, now, timeout)) && ExpireAll(o, now, timeout).status.Keys == o.status.Keys
  {
  }

  /**
   * Expiry clears occupant and timer of exactly the expired spots, keeps
   * every other entry and the plate list, and keeps "occupant set iff timer
   * set". Afterwards every occupied spot was seen within the timeout (or has
   * a zero timer), so no spot is left expired.
   */
  lemma ExpireExact(o: Snapshot, now: real, timeout: real)
    requires Consistent(o)
    ensures var r := ExpireAll(o, now, timeout);
      Consistent(r) && r.status.Keys == o.status.Keys && r.plates == o.plates &&
      (forall l :: l in o.status ==>
         if Expired(o, l, now, timeout) then r.status[l].None? && r.timers[l].None?
         else r.status[l] == o.status[l] && r.timers[l] == o.timers[l])
    ensures var r := ExpireAll(o, now, timeout);
      forall l :: l in r.status && r.status[l].Some? ==>
        r.timers[l].Some? && (r.timers[l].value == 0.0 || now - r.timers[l].value <= timeout)
    ensures var r := ExpireAll(o, now, timeout);
      forall l :: l in r.status && l in r.timers ==> !Expired(r, l, now, timeout)
  {
  }

  /** On a snapshot with nothing expired, the in-place pass changes nothing and frees nothing. */
  lemma {:induction false} StableScan(o: Snapshot, spots: seq<Spot>, now: real, timeout: real)
    requires Tracks(o, spots)
    requires forall l :: l in o.status && l in o.timers ==> !Expired(o, l, now, timeout)
    ensures ExpireScan(o, spots, now, timeout) == o
    ensures Freed(o, spots, now, timeout) == []
    decreases |spots|
  {
    if spots != [] {
      StableScan(o, spots[..|spots| - 1], now, timeout);
    }
  }

  /** Expiring twice with the same clock reading changes nothing the second time and frees nothing. */
  lemma ExpireIdempotent(o: Snapshot, spots: seq<Spot>, now: real, timeout: real)
    requires Consistent(o) && Tracks(o, spots)
    ensures ExpireAll(ExpireAll(o, now, timeout), now, timeout) == ExpireAll(o, now, timeout)
    ensures Tracks(ExpireAll(o, now, timeout), spots)
    ensures ExpireScan(ExpireAll(o, now, timeout), spots, now, timeout) == ExpireAll(o, now, timeout)
    ensures Freed(ExpireAll(o, now, timeout), spots, now, timeout) == []
  {
    var e := ExpireAll(o, now, timeout);
    ExpireExact(o, now, timeout);
    var e2 := ExpireAll(e, now, timeout);
    assert e2.status == e.status;
    assert e2.timers == e.timers;
    StableScan(e, spots, now, timeout);
  }

  /** One more spot in the inner scan is one more application of the step for that spot. */
  lemma ScanSpotsStep(p: Pass, spots: seq<Spot>, j: nat, k: Keypoint, now: real)
    requires Tracks(p.snap, spots) && j < |spots|
    ensures Tracks(p.snap, spots[..j]) && Tracks(p.snap, spots[..j + 1])
    ensures var q := ScanSpots(p, spots[..j], k, now);
      spots[j].name in q.snap.status && spots[j].name in q.snap.timers &&
      ScanSpots(p, spots[..j + 1], k, now) == if Covers(spots[j], k) then Occupy(q, spots[j].name, now) else q
  {
    assert spots[..j + 1][..j] == spots[..j];
  }

  /** One more keypoint in the outer scan is one more inner scan. */
  lemma ScanFrameStep(p: Pass, spots: seq<Spot>, kps: seq<Keypoint>, i: nat, now: real)
    requires Tracks(p.snap, spots) && i < |kps|
    ensures var q := ScanFrame(p, spots, kps[..i], now);
      Tracks(q.snap, spots) && ScanFrame(p, spots, kps[..i + 1], now) == ScanSpots(q, spots, kps[i], now)
  {
    assert kps[..i + 1][..i] == kps[..i];
  }

  /** One more spot in the expiry pass is one more expiry step, announced when that spot expires. */
  lemma ExpireScanStep(o: Snapshot, spots: seq<Spot>, j: nat, now: real, timeout: real)
    requires Tracks(o, spots) && j < |spots|
    ensures Tracks(o, spots[..j]) && Tracks(o, spots[..j + 1])
    ensures var before := ExpireScan(o, spots[..j], now, timeout);
      var l := spots[j].name;
      l in before.status && l in before.timers &&
      ExpireScan(o, spots[..j + 1], now, timeout) == ExpireOne(before, l, now, timeout) &&
      Freed(o, spots[..j + 1], now, timeout) ==
        Freed(o, spots[..j], now, timeout) + (if Expired(before, l, now, timeout) then [l] else [])
  {
    assert spots[..j + 1][..j] == spots[..j];
  }

  /**
   * The per-spot state of the running system: a fixed list of spots with
   * distinct labels, occupant and timer per spot, and the plate list that is
   * consumed from the front.
   */
  class Tracker {
    const spots: seq<Spot>
    var status: map<Label, Option<Plate>>
    var timers: map<Label, Option<real>>
    var plates: seq<Plate>

    function State(): Snapshot
      reads this
    {
      Snapshot(status, timers, plates)
    }

    ghost predicate Valid()
      reads this
    {
      DistinctLabels(spots) && status.Keys == LabelsOf(spots) && Consistent(State())
    }

    /** Every spot starts empty with no timer; the plate list is the given pool. */
    constructor (spots: seq<Spot>, plates: seq<Plate>)
      requires DistinctLabels(spots)
      ensures Valid() && this.spots == spots && this.plates == plates
      ensures status.Keys == LabelsOf(spots)
      ensures forall l :: l in status ==> status[l] == None && timers[l] == None
    {
      this.spots := spots;
      var names := LabelsOf(spots);
      status := map l | l in names :: None;
      timers := map l | l in names :: None;
      this.plates := plates;
    }

    lemma TracksAll()
      requires Valid()
      ensures Tracks(State(), spots)
    {
      forall j | 0 <= j < |spots|
        ensures spots[j].name in status
      {
        assert spots[j].name in LabelsOf(spots);
      }
    }

    /**
     * Tests one keypoint, truncated to whole pixels, against every spot in
     * order. Each spot containing it gets its timer set to `now`, and an
     * empty one first takes the plate at the front of the list (or
     * "Unknown") and is appended to the announcements.
     */
    method LandKeypoint(k: Keypoint, now: real, announced: seq<Label>) returns (occupied: seq<Label>)
      requires Tracks(State(), spots)
      modifies this
      ensures Pass(State(), occupied) == ScanSpots(Pass(old(State()), announced), spots, k, now)
    {
      ghost var before := Pass(State(), announced);
      occupied := announced;
      var px, py := Trunc(k.x), Trunc(k.y);
      for j := 0 to |spots|
        invariant Pass(State(), occupied) == ScanSpots(before, spots[..j], k, now)
      {
        ScanSpotsStep(before, spots, j, k, now);
        var s := spots[j];
        if IsInside(s.rect, px, py) {
          if status[s.name].None? {
            var plate := if |plates| > 0 then plates[0] else UNKNOWN;
            if |plates| > 0 {
              plates := plates[1..];
            }
            status := status[s.name := Some(plate)];
            timers := timers[s.name := Some(now)];
            occupied := occupied + [s.name];
          } else {
            timers := timers[s.name := Some(now)];
          }
        }
      }
      assert spots[..|spots|] == spots;
    }

    /**
     * Assigns this frame's keypoints to spots, keypoint by keypoint. Returns
     * the spots that became occupied, in the order they were announced.
     */
    method DetectCars(kps: seq<Keypoint>, now: real) returns (occupied: seq<Label>)
      requires Valid()
      modifies this
      ensures Valid()
      ensures Tracks(old(State()), spots)
      ensures Pass(State(), occupied) == Detect(old(State()), spots, kps, now)
    {
      TracksAll();
      ghost var o0 := State();
      occupied := [];
      for i := 0 to |kps|
        invariant Pass(State(), occupied) == ScanFrame(Pass(o0, []), spots, kps[..i], now)
      {
        ScanFrameStep(Pass(o0, []), spots, kps, i, now);
        occupied := LandKeypoint(kps[i], now, occupied);
      }
      assert kps[..|kps|] == kps;
      assert Pass(State(), occupied) == Detect(o0, spots, kps, now);
      ScanFrameKeepsConsistent(Pass(o0, []), spots, kps, now);
      assert Consistent(State()) && status.Keys == o0.status.Keys;
    }

    /**
     * Frees every spot whose occupant is set, whose timer is set and
     * non-zero, and which has not been seen for longer than `timeout`.
     * Returns the freed spots in spot order.
     */
    method ExpireStale(now: real, timeout: real) returns (freed: seq<Label>)
      requires Valid()
      modifies this
      ensures Valid()
      ensures Tracks(old(State()), spots)
      ensures State() == ExpireAll(old(State()), now, timeout)
      ensures freed == Freed(old(State()), spots, now, timeout)
    {
      TracksAll();
      ghost var o0 := State();
      freed := [];
      for j := 0 to |spots|
        invariant State() == ExpireScan(o0, spots[..j], now, timeout)
        invariant freed == Freed(o0, spots[..j], now, timeout)
      {
        ExpireScanStep(o0, spots, j, now, timeout);
        var l := spots[j].name;
        if status[l].Some? && timers[l].Some? && timers[l].value != 0.0 && now - timers[l].value > timeout {
          status := status[l := None];
          timers := timers[l := None];
          freed := freed + [l];
        }
      }
      assert spots[..|spots|] == spots;
      assert o0.status.Keys == LabelsOf(spots) && o0.timers.Keys == LabelsOf(spots);
      ExpireScanIsExpireAll(o0, spots, now, timeout);
      ExpireKeepsConsistent(o0, now, timeout);
      assert State() == ExpireAll(o0, now, timeout);
      assert Consistent(State()) && status.Keys == o0.status.Keys;
    }
  }
}
