/** The curve profile of bezierDefinedCurve.ts: a piecewise cubic Bezier through a list of
    anchors, flattened into one lookup table that is scanned by x. */
module Profile {
  import opened Vectors

  datatype Option<T> = None | Some(value: T)

  /** bezier-js's Bezier(p1, p2, p3, p4): a cubic given by its four control points. */
  datatype Bezier = Bezier(p1: Vector2, p2: Vector2, p3: Vector2, p4: Vector2)

  /** One sample of bezier-js's getLUT: a curve point and its curve parameter. */
  datatype LutPoint = LutPoint(x: real, y: real, t: real)

  /** bezier-js's curve.getLUT(steps). Bezier evaluation is not part of this model,
      so the sampler is a parameter of every member that needs it. */
  type LutFunction = (Bezier, nat) -> seq<LutPoint>

  /** The resolution every segment is sampled at. */
  const LutSteps: nat := 50

  /** How far along the chord the start handle of the first segment sits. */
  const StartHandleFraction: real := 0.1

  /** How far along the chord the end handle of the last segment sits. */
  const EndHandleFraction: real := 0.9

  /** The value the scan's running x starts from. */
  const ScanStart: real := -1.0

  /** The control quadruple the constructor builds for the anchor pair (i, i + 1). */
  function SegmentCurve(points: seq<Vector3>, i: nat): Bezier
    requires i + 1 < |points|
  {
    var point1 := Vector2(points[i].x, points[i].y);
    var point2 :=
      if i == 0 then
        Vector2(Lerp(points[i].x, points[i + 1].x, StartHandleFraction),
                Lerp(points[i].y, points[i + 1].y, StartHandleFraction))
      else
        Vector2(points[i].x + points[i].z, points[i].y);
    var point3 :=
      if i == |points| - 2 then
        Vector2(Lerp(points[i].x, points[i + 1].x, EndHandleFraction),
                Lerp(points[i].y, points[i + 1].y, EndHandleFraction))
      else
        Vector2(points[i + 1].x - points[i + 1].z, points[i + 1].y);
    var point4 := Vector2(points[i + 1].x, points[i + 1].y);
    Bezier(point1, point2, point3, point4)
  }

  /** The number of segments the constructor's loop builds from |points| anchors. */
  function SegmentCount(points: seq<Vector3>): nat
  {
    if |points| < 2 then 0 else |points| - 1
  }

  /** The segment list: one curve per consecutive anchor pair, in order. */
  function Segments(points: seq<Vector3>): seq<Bezier>
  {
    seq(SegmentCount(points), i requires 0 <= i < SegmentCount(points) => SegmentCurve(points, i))
  }

  /** The copies `new Vector2(point.x, point.y)` of one segment's samples. */
  function Project(lut: seq<LutPoint>): seq<Vector2>
  {
    seq(|lut|, k requires 0 <= k < |lut| => Vector2(lut[k].x, lut[k].y))
  }

  /** The solidified lookup table: every segment's samples, segment after segment. */
  function Flatten(curves: seq<Bezier>, getLUT: LutFunction): seq<Vector2>
  {
    if curves == [] then []
    else Flatten(curves[..|curves| - 1], getLUT) + Project(getLUT(curves[|curves| - 1], LutSteps))
  }

  /** The lookup table a profile built from these anchors holds. */
  function ProfileLut(points: seq<Vector3>, getLUT: LutFunction): seq<Vector2>
  {
    Flatten(Segments(points), getLUT)
  }

  /** Where the scan of getYfromX stops when it starts at index `from`: the first entry at or
      after `from` whose x is at least `x`, or the last entry when none is. */
  function ScanFrom(lut: seq<Vector2>, x: real, from: nat): (k: nat)
    requires from < |lut|
    ensures from <= k < |lut|
    ensures forall j :: from <= j < k ==> lut[j].x < x
    ensures lut[k].x >= x || k == |lut| - 1
    decreases |lut| - from
  {
    if lut[from].x >= x || from == |lut| - 1 then from else ScanFrom(lut, x, from + 1)
  }

  /** What getYfromX(x) returns: None when the scan index ends at -1 (the source then reads a
      field of `undefined` and throws), otherwise the y of the entry the scan stops at. */
  function Sample(lut: seq<Vector2>, x: real): Option<real>
  {
    if x <= ScanStart || |lut| == 0 then None else Some(lut[ScanFrom(lut, x, 0)].y)
  }

  /** Segment i runs from anchor i to anchor i + 1. */
  lemma SegmentEndpoints(points: seq<Vector3>, i: nat)
    requires i + 1 < |points|
    ensures |Segments(points)| == |points| - 1
    ensures Segments(points)[i].p1 == Vector2(points[i].x, points[i].y)
    ensures Segments(points)[i].p4 == Vector2(points[i + 1].x, points[i + 1].y)
  {
  }

  /** Consecutive segments meet: the end of segment i - 1 is the start of segment i. */
  lemma SegmentsJoin(points: seq<Vector3>, i: nat)
    requires 0 < i < |points| - 1
    ensures Segments(points)[i - 1].p4 == Segments(points)[i].p1
  {
  }

  /** The start handle of the first segment lies on the chord towards anchor 1, a tenth of the way;
      the end handle of the last segment lies on the chord from the second-to-last anchor, nine tenths of the way. */
  lemma EndHandlesOnChord(points: seq<Vector3>)
    requires |points| >= 2
    ensures var first := Segments(points)[0];
      first.p2 == Vector2(Lerp(first.p1.x, first.p4.x, 0.1), Lerp(first.p1.y, first.p4.y, 0.1))
    ensures var last := Segments(points)[|points| - 2];
      last.p3 == Vector2(Lerp(last.p1.x, last.p4.x, 0.9), Lerp(last.p1.y, last.p4.y, 0.9))
  {
  }

  /** At every interior anchor both handles stay at the anchor's height and sit its tension to
      either side of it, so the two segments meeting there share a horizontal tangent. */
  lemma InteriorHandlesMirror(points: seq<Vector3>, i: nat)
    requires 0 < i < |points| - 1
    ensures var before := Segments(points)[i - 1]; var after := Segments(points)[i];
      before.p3 == Vector2(points[i].x - points[i].z, points[i].y) &&
      after.p2 == Vector2(points[i].x + points[i].z, points[i].y) &&
      before.p3.y == after.p2.y == after.p1.y &&
      after.p2.x - after.p1.x == after.p1.x - before.p3.x
  {
  }

  /** Appending one curve appends exactly its samples. */
  lemma FlattenAppend(curves: seq<Bezier>, c: Bezier, getLUT: LutFunction)
    ensures Flatten(curves + [c], getLUT) == Flatten(curves, getLUT) + Project(getLUT(c, LutSteps))
  {
    assert (curves + [c])[..|curves|] == curves;
  }

  /** Flattening distributes over concatenation: the table of two runs of curves is the table of
      the first run followed by the table of the second. */
  lemma {:induction false} FlattenConcat(a: seq<Bezier>, b: seq<Bezier>, getLUT: LutFunction)
    ensures Flatten(a + b, getLUT) == Flatten(a, getLUT) + Flatten(b, getLUT)
    decreases |b|
  {
    if b == [] {
      assert a + b == a;
    } else {
      var init := b[..|b| - 1];
      var c := b[|b| - 1];
      assert a + b == (a + init) + [c];
      assert b == init + [c];
      FlattenAppend(a + init, c, getLUT);
      FlattenAppend(init, c, getLUT);
      FlattenConcat(a, init, getLUT);
    }
  }

  /** When every sample list has `LutSteps + 1` points, the table has that many per segment, and
      entry k of segment s sits at position s * (LutSteps + 1) + k. */
  lemma {:induction false} FlattenAt(curves: seq<Bezier>, getLUT: LutFunction, s: nat, k: nat)
    requires forall c :: |getLUT(c, LutSteps)| == LutSteps + 1
    requires s < |curves| && k <= LutSteps
    ensures |Flatten(curves, getLUT)| == |curves| * (LutSteps + 1)
    ensures s * (LutSteps + 1) + k < |Flatten(curves, getLUT)|
    ensures Flatten(curves, getLUT)[s * (LutSteps + 1) + k]
         == Vector2(getLUT(curves[s], LutSteps)[k].x, getLUT(curves[s], LutSteps)[k].y)
  {
    var n := |curves|;
    var init := curves[..n - 1];
    var last := Project(getLUT(curves[n - 1], LutSteps));
    FlattenLength(init, getLUT);
    assert |Flatten(init, getLUT)| == (n - 1) * (LutSteps + 1);
    if s == n - 1 {
      assert Flatten(curves, getLUT)[s * (LutSteps + 1) + k] == last[k];
    } else {
      FlattenAt(init, getLUT, s, k);
      assert init[s] == curves[s];
    }
  }

  /** The table holds `LutSteps + 1` entries per segment and nothing else. */
  lemma {:induction false} FlattenLength(curves: seq<Bezier>, getLUT: LutFunction)
    requires forall c :: |getLUT(c, LutSteps)| == LutSteps + 1
    ensures |Flatten(curves, getLUT)| == |curves| * (LutSteps + 1)
  {
    if curves != [] {
      FlattenLength(curves[..|curves| - 1], getLUT);
    }
  }

  /** The table is non-empty as soon as there is a segment and every segment yields a sample. */
  lemma {:induction false} ProfileLutNonEmpty(points: seq<Vector3>, getLUT: LutFunction)
    requires |points| >= 2
    requires forall c :: |getLUT(c, LutSteps)| > 0
    ensures |ProfileLut(points, getLUT)| > 0
  {
    var curves := Segments(points);
    assert |Flatten(curves, getLUT)| >= |getLUT(curves[|curves| - 1], LutSteps)|;
  }

  /** The scan result is unique: any index that is preceded only by entries left of x and is
      itself at or right of x (or the last entry) is the one the scan stops at. */
  lemma ScanIndexUnique(lut: seq<Vector2>, x: real, k: nat)
    requires k < |lut|
    requires forall j :: 0 <= j < k ==> lut[j].x < x
    requires lut[k].x >= x || k == |lut| - 1
    ensures ScanFrom(lut, x, 0) == k
  {
  }

  /** A larger query never makes the scan stop earlier. */
  lemma ScanMonotone(lut: seq<Vector2>, x1: real, x2: real)
    requires |lut| > 0 && x1 <= x2
    ensures ScanFrom(lut, x1, 0) <= ScanFrom(lut, x2, 0)
  {
  }

  /** getYfromX fails exactly when the scan never runs, and otherwise returns the y of an entry of
      the table: no interpolation takes place. */
  lemma SampleIsEntry(lut: seq<Vector2>, x: real)
    ensures Sample(lut, x).None? <==> (x <= ScanStart || |lut| == 0)
    ensures Sample(lut, x).Some? ==>
      exists k :: 0 <= k < |lut| && Sample(lut, x).value == lut[k].y &&
        (forall j :: 0 <= j < k ==> lut[j].x < x) && (lut[k].x >= x || k == |lut| - 1)
  {
    if Sample(lut, x).Some? {
      var k := ScanFrom(lut, x, 0);
      assert Sample(lut, x).value == lut[k].y;
    }
  }

  /** The profile object of bezierDefinedCurve.ts. */
  class BezierDefinedCurve {
    var curve: seq<Bezier>
    var sLUT: seq<Vector2>

    /** Builds one curve per consecutive anchor pair, then concatenates their samples. */
    constructor (points: seq<Vector3>, getLUT: LutFunction)
      ensures curve == Segments(points)
      ensures sLUT == Flatten(curve, getLUT)
    {
      curve := [];
      sLUT := [];
      new;
      var i := 0;
      while i < |points| - 1
        invariant 0 <= i <= SegmentCount(points)
        invariant |curve| == i && sLUT == []
        invariant forall k :: 0 <= k < i ==> curve[k] == SegmentCurve(points, k)
      {
        curve := curve + [SegmentCurve(points, i)];
        i := i + 1;
      }
      assert curve == Segments(points);
      var s := 0;
      while s < |curve|
        invariant curve == Segments(points)
        invariant 0 <= s <= |curve|
        invariant sLUT == Flatten(curve[..s], getLUT)
      {
        var lut := getLUT(curve[s], LutSteps);
        var k := 0;
        while k < |lut|
          invariant curve == Segments(points)
          invariant 0 <= k <= |lut|
          invariant sLUT == Flatten(curve[..s], getLUT) + Project(lut[..k])
        {
          assert Project(lut[..k + 1]) == Project(lut[..k]) + [Vector2(lut[k].x, lut[k].y)];
          sLUT := sLUT + [Vector2(lut[k].x, lut[k].y)];
          k := k + 1;
        }
        assert lut[..k] == lut;
        assert curve[..s + 1] == curve[..s] + [curve[s]];
        FlattenAppend(curve[..s], curve[s], getLUT);
        s := s + 1;
      }
      assert curve[..s] == curve;
    }

    /** Scans the table for the first entry whose x reaches `x` (or the last entry), then
        interpolates between that entry and itself. */
    method GetYFromX(x: real) returns (y: Option<real>)
      ensures y == Sample(sLUT, x)
    {
      var xx := ScanStart;
      var i := 0;
      while xx < x && i < |sLUT|
        invariant 0 <= i <= |sLUT|
        invariant i == 0 ==> xx == ScanStart
        invariant i > 0 ==> xx == sLUT[i - 1].x
        invariant i > 0 ==> ScanStart < x
        invariant forall j :: 0 <= j < i - 1 ==> sLUT[j].x < x
        decreases |sLUT| - i
      {
        xx := sLUT[i].x;
        i := i + 1;
      }
      i := i - 1;
      if i < 0 {
        // sLUT[-1] is undefined in the source, and reading its x throws
        return None;
      }
      ScanIndexUnique(sLUT, x, i);
      var thisPoint := sLUT[i];
      var nextPoint := sLUT[i];
      var ilerped := InverseLerp(thisPoint.x, nextPoint.x, x);
      LerpOfEqualEnds(thisPoint.y, ilerped);
      y := Some(Lerp(thisPoint.y, nextPoint.y, ilerped));
    }
  }
}
