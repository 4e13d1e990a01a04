/** The ring cross-sections of fish.ts: RingSegment, LineSegment and phaseToPoint. */
module Rings {
  import opened Vectors

  /** fish.ts's LineSegment: an edge of a ring, from `start` to `end`. */
  datatype LineSegment = LineSegment(start: Vector3, end: Vector3)

  /** phaseToPoint(phase, rotation, positionZ, width, height). Its cosine and sine rotation is not
      part of this model, so the point function is a parameter of every member that needs it. */
  type PointFunction = (real, Vector3, real, real, real) -> Vector3

  /** Math.PI, as the decimal the source's double prints as. */
  const Pi: real := 3.141592653589793

  /** The phase of ring point k: `((2 * Math.PI) / segments) * k`. */
  function Phase(segments: nat, k: nat): real
    requires segments > 0
  {
    ((2.0 * Pi) / segments as real) * k as real
  }

  /** Ring point k, for k = 0 .. segments. */
  function RingPoint(phaseToPoint: PointFunction, segments: nat, k: nat, rotation: Vector3,
                     positionZ: real, width: real, height: real): Vector3
    requires segments > 0
  {
    phaseToPoint(Phase(segments, k), rotation, positionZ, width, height)
  }

  /** The ring points at phases 0 .. segments, in order. */
  function RingPoints(phaseToPoint: PointFunction, segments: nat, rotation: Vector3,
                      positionZ: real, width: real, height: real): (r: seq<Vector3>)
    requires segments > 0
  {
    seq(segments + 1, k requires 0 <= k <= segments =>
      RingPoint(phaseToPoint, segments, k, rotation, positionZ, width, height))
  }

  /** The edges the constructor's loop makes from a running previous point that starts at
      `first`: one edge from the previous point to each point in turn. */
  function ChainLines(first: Vector3, points: seq<Vector3>): (r: seq<LineSegment>)
    ensures |r| == |points|
    ensures |r| > 0 ==> r[0].start == first
    ensures forall k :: 0 <= k < |r| ==> r[k].end == points[k]
    ensures forall k :: 0 < k < |r| ==> r[k].start == points[k - 1]
    decreases |points|
  {
    if points == [] then []
    else ChainLines(first, points[..|points| - 1]) +
         [LineSegment(if |points| == 1 then first else points[|points| - 2], points[|points| - 1])]
  }

  /** The edge list of a ring: a chain through the ring points that starts at the phase-0 point. */
  function RingLines(phaseToPoint: PointFunction, segments: nat, rotation: Vector3,
                     positionZ: real, width: real, height: real): seq<LineSegment>
    requires segments > 0
  {
    ChainLines(phaseToPoint(0.0, rotation, positionZ, width, height),
               RingPoints(phaseToPoint, segments, rotation, positionZ, width, height))
  }

  /** Every edge ends where the next one starts. */
  ghost predicate Chained(lines: seq<LineSegment>)
  {
    forall k :: 0 <= k < |lines| - 1 ==> lines[k].end == lines[k + 1].start
  }

  /** A ring has segments + 1 edges, chained; edge 0 is degenerate (it starts and ends at the
      phase-0 point), and edge k ends at the point of phase 2 * pi * k / segments. */
  lemma RingLinesShape(phaseToPoint: PointFunction, segments: nat, rotation: Vector3,
                       positionZ: real, width: real, height: real)
    requires segments > 0
    ensures var lines := RingLines(phaseToPoint, segments, rotation, positionZ, width, height);
      var origin := phaseToPoint(0.0, rotation, positionZ, width, height);
      |lines| == segments + 1 &&
      Chained(lines) &&
      lines[0] == LineSegment(origin, origin) &&
      forall k :: 0 <= k <= segments ==>
        lines[k].end == phaseToPoint(Phase(segments, k), rotation, positionZ, width, height)
  {
    var lines := RingLines(phaseToPoint, segments, rotation, positionZ, width, height);
    var points := RingPoints(phaseToPoint, segments, rotation, positionZ, width, height);
    assert Phase(segments, 0) == 0.0;
    assert lines[0].end == points[0];
    forall k | 0 <= k < |lines| - 1
      ensures lines[k].end == lines[k + 1].start
    {
      assert lines[k + 1].start == points[k];
    }
  }

  /** fish.ts's RingSegment: one elliptical cross-section of the body. Nothing changes a ring once
      it is built, so its fields are constants. */
  class RingSegment {
    const width: real
    const height: real
    const segments: nat
    const lineSegments: seq<LineSegment>
    /** The source initialises this field and never assigns it: the constructor's rotation
        argument is used for the points only. */
    const rotation: Vector3 := Vector3(0.0, 0.0, 0.0)

    constructor (segments: nat, rotation: Vector3, positionZ: real, width: real, height: real,
                 phaseToPoint: PointFunction)
      requires segments > 0
      ensures this.width == width && this.height == height && this.segments == segments
      ensures this.rotation == Vector3(0.0, 0.0, 0.0)
      ensures lineSegments == RingLines(phaseToPoint, segments, rotation, positionZ, width, height)
    {
      var phase := 0.0;
      this.width := width;
      this.height := height;
      this.segments := segments;
      var previousPoint := phaseToPoint(phase, rotation, positionZ, width, height);
      ghost var origin := previousPoint;
      ghost var points := RingPoints(phaseToPoint, segments, rotation, positionZ, width, height);
      var lines: seq<LineSegment> := [];
      var i := 0;
      while i < segments + 1
        invariant 0 <= i <= segments + 1
        invariant lines == ChainLines(origin, points[..i])
        invariant previousPoint == if i == 0 then origin else points[i - 1]
      {
        var point := phaseToPoint(Phase(segments, i), rotation, positionZ, width, height);
        assert point == points[i];
        assert points[..i + 1][..i] == points[..i];
        lines := lines + [LineSegment(previousPoint, point)];
        previousPoint := point;
        i := i + 1;
      }
      assert points[..i] == points;
      lineSegments := lines;
    }
  }
}
