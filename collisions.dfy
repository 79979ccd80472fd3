/**
 * The collision detector. A frame whose largest keypoint is more than 1.3
 * times the mean keypoint size is taken as a possible collision at the
 * (truncated) position of the first largest keypoint. The position is
 * recorded only if every earlier record differs from it by more than 15
 * pixels on x or on y. Records are never removed.
 */
module Collisions {
  import opened Geometry

  datatype Pos = Pos(x: int, y: int)

  /** Two records closer than this on both axes are the same collision. */
  const NEAR: int := 15

  predicate Far(a: Pos, b: Pos) {
    AbsInt(a.x - b.x) > NEAR || AbsInt(a.y - b.y) > NEAR
  }

  /** Every pair of records is more than 15 pixels apart on some axis. */
  predicate Separated(events: seq<Pos>) {
    forall i, j :: 0 <= i < j < |events| ==> Far(events[i], events[j])
  }

  function TotalSize(kps: seq<Keypoint>): real
    decreases |kps|
  {
    if kps == [] then 0.0 else TotalSize(kps[..|kps| - 1]) + kps[|kps| - 1].size
  }

  /** The position of the largest keypoint; on a tie, the first one. */
  function Largest(kps: seq<Keypoint>): (k: nat)
    requires kps != []
    ensures k < |kps|
    ensures forall j :: 0 <= j < |kps| ==> kps[j].size <= kps[k].size
    ensures forall j :: 0 <= j < k ==> kps[j].size < kps[k].size
    decreases |kps|
  {
    if |kps| == 1 then 0
    else
      var k := Largest(kps[..|kps| - 1]);
      if kps[|kps| - 1].size > kps[k].size then |kps| - 1 else k
  }

  /** The size test: a non-empty frame whose largest size exceeds 1.3 times the mean size. */
  predicate IsOutlier(kps: seq<Keypoint>) {
    kps != [] && kps[Largest(kps)].size > 1.3 * (TotalSize(kps) / |kps| as real)
  }

  /** The candidate position: the first largest keypoint, truncated to whole pixels. */
  function Candidate(kps: seq<Keypoint>): Pos
    requires kps != []
  {
    var k := kps[Largest(kps)];
    Pos(Trunc(k.x), Trunc(k.y))
  }

  predicate IsNew(events: seq<Pos>, p: Pos) {
    forall i :: 0 <= i < |events| ==> Far(events[i], p)
  }

  /** The record list after one frame. */
  function Record(events: seq<Pos>, kps: seq<Keypoint>): seq<Pos> {
    if IsOutlier(kps) && IsNew(events, Candidate(kps)) then events + [Candidate(kps)] else events
  }

  /**
   * A frame appends at most one record and removes none; it appends exactly
   * when the frame is non-empty, its size test fires, and the candidate is
   * more than 15 pixels from every earlier record on some axis.
   */
  lemma RecordAppendsAtMostOne(events: seq<Pos>, kps: seq<Keypoint>)
    ensures var r := Record(events, kps);
      |events| <= |r| <= |events| + 1 && r[..|events|] == events
    ensures var r := Record(events, kps);
      |r| == |events| + 1 <==> kps != [] && IsOutlier(kps) && IsNew(events, Candidate(kps))
    ensures var r := Record(events, kps);
      |r| == |events| + 1 ==> r[|events|] == Candidate(kps)
  {
    var r := Record(events, kps);
    assert r[..|events|] == events;
  }

  /** Recording keeps every pair of records apart. */
  lemma RecordKeepsSeparated(events: seq<Pos>, kps: seq<Keypoint>)
    requires Separated(events)
    ensures Separated(Record(events, kps))
  {
    var r := Record(events, kps);
    if r != events {
      forall i, j | 0 <= i < j < |r|
        ensures Far(r[i], r[j])
      {
        if j == |events| {
          assert Far(events[i], Candidate(kps));
        } else {
          assert r[i] == events[i] && r[j] == events[j];
        }
      }
    }
  }

  lemma {:induction false} TotalOfUniform(kps: seq<Keypoint>, s: real)
    requires forall i :: 0 <= i < |kps| ==> kps[i].size == s
    ensures TotalSize(kps) == |kps| as real * s
    decreases |kps|
  {
    if kps != [] {
      TotalOfUniform(kps[..|kps| - 1], s);
    }
  }

  /**
   * A frame whose keypoints all have the same non-negative size is never a
   * collision; in particular a frame with a single keypoint never is.
   */
  lemma UniformFrameIsNoCollision(kps: seq<Keypoint>, s: real)
    requires s >= 0.0
    requires forall i :: 0 <= i < |kps| ==> kps[i].size == s
    ensures !IsOutlier(kps)
  {
    if kps != [] {
      TotalOfUniform(kps, s);
      var n := |kps| as real;
      var mean := TotalSize(kps) / n;
      assert n * mean == n * s;
      assert n * (mean - s) == 0.0;
      assert mean == s;
    }
  }

  lemma TotalOfThree(a: Keypoint, b: Keypoint, c: Keypoint)
    ensures TotalSize([a, b, c]) == a.size + b.size + c.size
  {
    assert [a][..0] == [];
    assert TotalSize([a]) == a.size;
    assert [a, b][..1] == [a];
    assert TotalSize([a, b]) == a.size + b.size;
    assert [a, b, c][..2] == [a, b];
  }

  /**
   * Outliers at (10, 10) and then at (20, 20) give one record, because they
   * are within 15 pixels on both axes; a third at (100, 100) gives a second.
   */
  lemma NearbyCollisionsRecordedOnce()
    ensures var f1 := [Keypoint(10.5, 10.5, 30.0), Keypoint(200.0, 200.0, 10.0), Keypoint(300.0, 300.0, 10.0)];
      var f2 := [Keypoint(20.0, 20.0, 30.0), Keypoint(200.0, 200.0, 10.0), Keypoint(300.0, 300.0, 10.0)];
      var f3 := [Keypoint(100.0, 100.0, 30.0), Keypoint(200.0, 200.0, 10.0), Keypoint(300.0, 300.0, 10.0)];
      var e1 := Record([], f1);
      var e2 := Record(e1, f2);
      e1 == [Pos(10, 10)] && e2 == [Pos(10, 10)] && Record(e2, f3) == [Pos(10, 10), Pos(100, 100)]
  {
    var f1 := [Keypoint(10.5, 10.5, 30.0), Keypoint(200.0, 200.0, 10.0), Keypoint(300.0, 300.0, 10.0)];
    var f2 := [Keypoint(20.0, 20.0, 30.0), Keypoint(200.0, 200.0, 10.0), Keypoint(300.0, 300.0, 10.0)];
    var f3 := [Keypoint(100.0, 100.0, 30.0), Keypoint(200.0, 200.0, 10.0), Keypoint(300.0, 300.0, 10.0)];
    assert Largest(f1) == 0 && Largest(f2) == 0 && Largest(f3) == 0;
    TotalOfThree(f1[0], f1[1], f1[2]);
    TotalOfThree(f2[0], f2[1], f2[2]);
    TotalOfThree(f3[0], f3[1], f3[2]);
    assert Candidate(f1) == Pos(10, 10);
    assert Candidate(f2) == Pos(20, 20);
    assert Candidate(f3) == Pos(100, 100);
    assert IsOutlier(f1) && IsOutlier(f2) && IsOutlier(f3);
    var e1 := Record([], f1);
    assert e1 == [Pos(10, 10)];
    assert !Far(e1[0], Pos(20, 20));
    assert Record(e1, f2) == e1;
    assert IsNew(e1, Pos(100, 100));
  }

  /** The append-only list of recorded collision positions. */
  class CollisionLog {
    var events: seq<Pos>

    ghost predicate Valid()
      reads this
    {
      Separated(events)
    }

    constructor ()
      ensures Valid() && events == []
    {
      events := [];
    }

    /**
     * Runs the size test on one frame and, when it fires, appends the
     * candidate position unless an earlier record is within 15 pixels on
     * both axes. Returns whether a record was appended.
     */
    method Observe(kps: seq<Keypoint>) returns (recorded: bool)
      requires Valid()
      modifies this
      ensures Valid()
      ensures events == Record(old(events), kps)
      ensures recorded <==> |events| == |old(events)| + 1
    {
      recorded := false;
      RecordKeepsSeparated(events, kps);
      if kps != [] {
        var k := Largest(kps);
        var mean := TotalSize(kps) / |kps| as real;
        if kps[k].size > 1.3 * mean {
          var p := Pos(Trunc(kps[k].x), Trunc(kps[k].y));
          var clear := true;
          for i := 0 to |events|
            invariant clear <==> forall m :: 0 <= m < i ==> Far(events[m], p)
          {
            if !(AbsInt(events[i].x - p.x) > NEAR || AbsInt(events[i].y - p.y) > NEAR) {
              clear := false;
            }
          }
          if clear {
            events := events + [p];
            recorded := true;
          }
        }
      }
    }
  }
}
