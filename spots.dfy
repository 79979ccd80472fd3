/**
 * The spot registry: parking spots are discovered once, from the contours
 * of the first frame. A contour becomes a spot when its polygon
 * approximation has four vertices, its bounding box has an aspect ratio
 * strictly between 1 and 3, and its index in the whole contour list is
 * even. Kept contours are labelled 'A', 'B', ... in scan order.
 *
 * The contour extraction itself is a collaborator: each contour arrives as
 * a Candidate carrying its vertex count and bounding box.
 */
module SpotRegistry {
  import opened Geometry

  /** A spot label is the code point handed to `chr`; labels start at ord('A'). */
  type Label = nat

  const FIRST_LABEL: Label := 65

  datatype Spot = Spot(name: Label, rect: Rect)

  /** One contour, reduced to the vertex count of its polygon approximation and its bounding box. */
  datatype Candidate = Candidate(vertices: nat, box: Rect)

  /** The aspect ratio can be computed: a quadrilateral's bounding box never has zero height. */
  predicate Measurable(c: Candidate) {
    c.vertices == 4 ==> c.box.h != 0
  }

  predicate AllMeasurable(cands: seq<Candidate>) {
    forall i :: 0 <= i < |cands| ==> Measurable(cands[i])
  }

  /** The discovery filter applied to the contour at position `i` of the contour list. */
  predicate Qualifies(c: Candidate, i: nat)
    requires Measurable(c)
  {
    c.vertices == 4 &&
    var ratio := c.box.w as real / c.box.h as real;
    1.0 < ratio && ratio < 3.0 && i % 2 == 0
  }

  /** The positions, among the first `n` contours, of those the filter keeps, in scan order. */
  function KeptIndices(cands: seq<Candidate>, n: nat): (ks: seq<nat>)
    requires n <= |cands| && AllMeasurable(cands)
    ensures forall k :: 0 <= k < |ks| ==> ks[k] < n
  {
    if n == 0 then []
    else KeptIndices(cands, n - 1) + (if Qualifies(cands[n - 1], n - 1) then [n - 1] else [])
  }

  predicate DistinctLabels(spots: seq<Spot>) {
    forall i, j :: 0 <= i < j < |spots| ==> spots[i].name != spots[j].name
  }

  /**
   * KeptIndices lists exactly the qualifying positions, each once, in
   * increasing order.
   */
  lemma {:induction false} KeptIndicesExact(cands: seq<Candidate>, n: nat)
    requires n <= |cands| && AllMeasurable(cands)
    ensures forall i: nat :: i in KeptIndices(cands, n) <==> i < n && Qualifies(cands[i], i)
    ensures forall a, b :: 0 <= a < b < |KeptIndices(cands, n)| ==>
              KeptIndices(cands, n)[a] < KeptIndices(cands, n)[b]
    ensures |KeptIndices(cands, n)| <= n
  {
    if n > 0 {
      KeptIndicesExact(cands, n - 1);
      var prev := KeptIndices(cands, n - 1);
      var ks := KeptIndices(cands, n);
      assert ks == prev + (if Qualifies(cands[n - 1], n - 1) then [n - 1] else []);
      forall i: nat
        ensures i in ks <==> i < n && Qualifies(cands[i], i)
      {
        if i in prev {
          assert i < n - 1;
        }
      }
      forall a, b | 0 <= a < b < |ks|
        ensures ks[a] < ks[b]
      {
        if b == |prev| {
          assert ks[a] == prev[a] && prev[a] in prev;
        }
      }
    }
  }

  lemma ProductPositive(a: real, b: real)
    requires a > 0.0 && b > 0.0
    ensures a * b > 0.0
  {
  }

  lemma ProductNonNegative(a: real, b: real)
    requires a >= 0.0 && b > 0.0
    ensures a * b >= 0.0
  {
  }

  /** Comparing a quotient with a constant, for a positive divisor. */
  lemma QuotientBounds(w: real, h: real, c: real)
    requires h > 0.0
    ensures c < w / h <==> c * h < w
    ensures w / h < c <==> w < c * h
  {
    var q := w / h;
    assert w == q * h;
    if c < q {
      ProductPositive(q - c, h);
    } else {
      ProductNonNegative(c - q, h);
    }
    if q < c {
      ProductPositive(c - q, h);
    } else {
      ProductNonNegative(q - c, h);
    }
  }

  /** For a bounding box of positive height the ratio test is `h < w < 3h`. */
  lemma QualifiesInIntegers(c: Candidate, i: nat)
    requires c.box.h > 0
    ensures Qualifies(c, i) <==> c.vertices == 4 && c.box.h < c.box.w < 3 * c.box.h && i % 2 == 0
  {
    QuotientBounds(c.box.w as real, c.box.h as real, 1.0);
    QuotientBounds(c.box.w as real, c.box.h as real, 3.0);
  }

  /**
   * Scans the contour list once, keeping the qualifying contours and
   * labelling them with consecutive letters from 'A'. The k-th spot is the
   * k-th kept contour, so the labels have no gaps and the number of spots is
   * the number of kept contours; no qualifying contour gives no spots.
   */
  method DiscoverSpots(cands: seq<Candidate>) returns (spots: seq<Spot>)
    requires AllMeasurable(cands)
    ensures |spots| == |KeptIndices(cands, |cands|)|
    ensures forall k :: 0 <= k < |spots| ==>
              spots[k] == Spot(FIRST_LABEL + k, cands[KeptIndices(cands, |cands|)[k]].box)
    ensures DistinctLabels(spots)
  {
    spots := [];
    var next := FIRST_LABEL;
    for i := 0 to |cands|
      invariant next == FIRST_LABEL + |spots|
      invariant |spots| == |KeptIndices(cands, i)|
      invariant forall k :: 0 <= k < |spots| ==>
                  spots[k] == Spot(FIRST_LABEL + k, cands[KeptIndices(cands, i)[k]].box)
    {
      var c := cands[i];
      if c.vertices == 4 {
        var ratio := c.box.w as real / c.box.h as real;
        if ratio > 1.0 && ratio < 3.0 {
          if i % 2 == 0 {
            spots := spots + [Spot(next, c.box)];
            next := next + 1;
          }
        }
      }
    }
  }

  /**
   * A contour yields a spot exactly when it qualifies: its box appears as
   * the spot whose label counts the qualifying contours before it.
   */
  lemma SpotForEveryQualifyingContour(cands: seq<Candidate>, spots: seq<Spot>, i: nat)
    requires AllMeasurable(cands) && i < |cands|
    requires |spots| == |KeptIndices(cands, |cands|)|
    requires forall k :: 0 <= k < |spots| ==>
               spots[k] == Spot(FIRST_LABEL + k, cands[KeptIndices(cands, |cands|)[k]].box)
    ensures Qualifies(cands[i], i) <==>
              exists k :: 0 <= k < |spots| && KeptIndices(cands, |cands|)[k] == i &&
                          spots[k] == Spot(FIRST_LABEL + k, cands[i].box)
  {
    KeptIndicesExact(cands, |cands|);
  }

  /** Four qualifying contours in a row give two spots, 'A' from the first and 'B' from the third. */
  lemma FourQualifyingGiveTwo(r0: Rect, r1: Rect, r2: Rect, r3: Rect)
    requires r0.h > 0 && r1.h > 0 && r2.h > 0 && r3.h > 0
    requires r0.h < r0.w < 3 * r0.h && r1.h < r1.w < 3 * r1.h
    requires r2.h < r2.w < 3 * r2.h && r3.h < r3.w < 3 * r3.h
    ensures var cands := [Candidate(4, r0), Candidate(4, r1), Candidate(4, r2), Candidate(4, r3)];
            KeptIndices(cands, 4) == [0, 2]
  {
    var cands := [Candidate(4, r0), Candidate(4, r1), Candidate(4, r2), Candidate(4, r3)];
    QualifiesInIntegers(cands[0], 0);
    QualifiesInIntegers(cands[2], 2);
    assert KeptIndices(cands, 1) == [0];
    assert KeptIndices(cands, 2) == [0];
    assert KeptIndices(cands, 3) == [0, 2];
  }
}
