/** The Fish of fish.ts: two profiles sampled into a row of rings, skinned into a hull. */
module FishBody {
  import opened Vectors
  import opened Profile
  import opened Rings
  import opened Hull

  const TailPositionX: real := 0.82

  /** The anchors of the dorsal (height) profile. */
  function DorsalAnchors(): seq<Vector3>
  {
    [Vector3(0.0, 0.0, 0.8),
     Vector3(0.32, 0.9, 0.17),
     Vector3(TailPositionX - 0.2, 0.4, 0.0),
     Vector3(TailPositionX, 0.1, -0.01),
     Vector3(1.0, 1.0, 0.1)]
  }

  /** The anchors of the side (width) profile. */
  function SideAnchors(): seq<Vector3>
  {
    [Vector3(0.0, 0.0, 0.4),
     Vector3(0.4, 0.5, 0.1),
     Vector3(0.6, 0.5, 0.1),
     Vector3(TailPositionX, 0.1, 0.1),
     Vector3(1.0, 0.0, 0.1)]
  }

  /** Every ring is sampled at 50 phase steps. */
  const RingSegmentCount: nat := 50

  /** The rotation every ring's points are turned by: a quarter turn about y. */
  const RingRotation: Vector3 := Vector3(0.0, Pi / 2.0, 0.0)

  /** The normalised position of ring i along the body. */
  function RingT(i: nat, rings: nat): real
    requires rings > 0
  {
    i as real / rings as real
  }

  /** The positionZ argument of ring i: `((i / rings) - 0.5) * length`. phaseToPoint's quarter turn
      about y carries it to the world x of the ring. */
  function RingZ(i: nat, rings: nat, length: real): real
    requires rings > 0
  {
    (RingT(i, rings) - 0.5) * length
  }

  /** The rings form a grid of edges, ring by ring. */
  function LineGrid(ringSegments: seq<RingSegment>): (grid: seq<seq<LineSegment>>)
    ensures |grid| == |ringSegments|
  {
    seq(|ringSegments|, i requires 0 <= i < |ringSegments| => ringSegments[i].lineSegments)
  }

  /** Ring i of a fish of `rings` rings and the given length: its width and height are the side
      and dorsal lookup tables sampled at i / rings, and its edges are the ring chain built with positionZ = RingZ(i, rings, length). */
  predicate RingPlaced(ring: RingSegment, i: nat, rings: nat, length: real,
                       sideLut: seq<Vector2>, dorsalLut: seq<Vector2>, phaseToPoint: PointFunction)
    requires rings > 0
  {
    Sample(sideLut, RingT(i, rings)) == Some(ring.width) &&
    Sample(dorsalLut, RingT(i, rings)) == Some(ring.height) &&
    ring.segments == RingSegmentCount &&
    ring.lineSegments ==
      RingLines(phaseToPoint, RingSegmentCount, RingRotation, RingZ(i, rings, length), ring.width, ring.height)
  }

  /** Every ring lies in [0, 1) of the normalised body length. */
  lemma RingTRange(i: nat, rings: nat)
    requires i < rings
    ensures 0.0 <= RingT(i, rings) < 1.0
  {
  }

  /** Consecutive rings sit length / rings apart, from -length / 2 up to (but not reaching) length / 2. */
  lemma RingSpacing(i: nat, rings: nat, length: real)
    requires rings > 0 && i < rings && length > 0.0
    ensures RingZ(0, rings, length) == -length / 2.0
    ensures RingZ(i + 1, rings, length) - RingZ(i, rings, length) == length / rings as real
    ensures -length / 2.0 <= RingZ(i, rings, length) < length / 2.0
  {
    var n := rings as real;
    assert RingT(i + 1, rings) - RingT(i, rings) == 1.0 / n;
    assert (RingT(i + 1, rings) - RingT(i, rings)) * length == length / n;
    assert (i as real) < n;
    assert 0.0 <= RingT(i, rings) < 1.0;
    assert RingZ(i, rings, length) == RingT(i, rings) * length - 0.5 * length;
    assert RingT(i, rings) * length < length;
    assert RingT(i, rings) * length >= 0.0;
    assert length / 2.0 == 0.5 * length;
  }

  /** The body of the Fish constructor's loop: ring i of `rings`, its width and height read from
      the side and dorsal profiles at i / rings, placed at its z. */
  method NewRing(i: nat, rings: nat, length: real, sideProfile: BezierDefinedCurve,
                 dorsalProfile: BezierDefinedCurve, phaseToPoint: PointFunction)
    returns (ringSegment: RingSegment)
    requires i < rings && |sideProfile.sLUT| > 0 && |dorsalProfile.sLUT| > 0
    ensures RingPlaced(ringSegment, i, rings, length, sideProfile.sLUT, dorsalProfile.sLUT, phaseToPoint)
  {
    var t := RingT(i, rings);
    RingTRange(i, rings);
    var width := sideProfile.GetYFromX(t);
    var height := dorsalProfile.GetYFromX(t);
    ringSegment := new RingSegment(
      RingSegmentCount,
      RingRotation,
      RingZ(i, rings, length),
      width.value,
      height.value,
      phaseToPoint);
  }

  class Fish {
    const length: real := 8.0
    const maxWidth: real := 0.5
    const maxHeight: real := 1.0
    const rings: nat := 40
    var ringSegments: seq<RingSegment>

    /** The shape the constructor leaves the fish in: `rings` rings of 51 edges each. */
    ghost predicate Valid()
      reads this
    {
      |ringSegments| == rings &&
      Uniform(LineGrid(ringSegments), RingSegmentCount + 1)
    }

    /** Places `rings` rings along the body, each sized by the two profiles at its position. */
    constructor (getLUT: LutFunction, phaseToPoint: PointFunction)
      requires forall c :: |getLUT(c, LutSteps)| > 0
      ensures Valid()
      ensures forall i :: 0 <= i < |ringSegments| ==>
        RingPlaced(ringSegments[i], i, rings, length,
                   ProfileLut(SideAnchors(), getLUT), ProfileLut(DorsalAnchors(), getLUT), phaseToPoint)
    {
      ringSegments := [];
      new;
      var dorsalProfile := new BezierDefinedCurve(DorsalAnchors(), getLUT);
      var sideProfile := new BezierDefinedCurve(SideAnchors(), getLUT);
      ProfileLutNonEmpty(DorsalAnchors(), getLUT);
      ProfileLutNonEmpty(SideAnchors(), getLUT);
      ghost var dorsalLut := dorsalProfile.sLUT;
      ghost var sideLut := sideProfile.sLUT;
      var i := 0;
      while i < rings
        invariant 0 <= i <= rings
        invariant dorsalProfile.sLUT == dorsalLut && |dorsalLut| > 0
        invariant sideProfile.sLUT == sideLut && |sideLut| > 0
        invariant |ringSegments| == i
        invariant forall k :: 0 <= k < i ==>
          RingPlaced(ringSegments[k], k, rings, length, sideLut, dorsalLut, phaseToPoint)
      {
        var ringSegment := NewRing(i, rings, length, sideProfile, dorsalProfile, phaseToPoint);
        ringSegments := ringSegments + [ringSegment];
        i := i + 1;
      }
      forall k | 0 <= k < |ringSegments|
        ensures |LineGrid(ringSegments)[k]| == RingSegmentCount + 1
      {
        assert RingPlaced(ringSegments[k], k, rings, length, sideLut, dorsalLut, phaseToPoint);
      }
    }

    /** Skins consecutive rings into quads, then lays out the flat vertex buffer and the triangle
        index buffer (what the source passes on to mergeVertices). */
    method Mount() returns (faces: seq<Face>, vertices: seq<real>, indices: seq<int>)
      requires Valid()
      ensures faces == Faces(LineGrid(ringSegments))
      ensures |faces| == (rings - 1) * (RingSegmentCount + 1)
      ensures vertices == VertexBuffer(faces) && |vertices| == 12 * |faces|
      ensures indices == IndexBuffer(|faces|) && |indices| == 6 * |faces|
      ensures forall k :: 0 <= k < |indices| ==> 0 <= indices[k] < 4 * |faces|
    {
      ghost var grid := LineGrid(ringSegments);
      assert Skinnable(grid);
      faces := [];
      var i := 1;
      while i < |ringSegments|
        invariant 1 <= i <= |ringSegments|
        invariant Skinnable(grid[..i]) && faces == Faces(grid[..i])
      {
        var ringSegment := ringSegments[i];
        var previousRingSegment := ringSegments[i - 1];
        assert grid[i] == ringSegment.lineSegments && grid[i - 1] == previousRingSegment.lineSegments;
        var j := 0;
        while j < |ringSegment.lineSegments|
          invariant 0 <= j <= |ringSegment.lineSegments|
          invariant faces == Faces(grid[..i]) + RowFaces(ringSegment.lineSegments, previousRingSegment.lineSegments, j)
        {
          var lineSegment := ringSegment.lineSegments[j];
          var previousLineSegment := previousRingSegment.lineSegments[j];
          var thisFace := Face(lineSegment.start, lineSegment.end, previousLineSegment.end, previousLineSegment.start);
          faces := faces + [thisFace];
          j := j + 1;
        }
        FacesSnoc(grid, i);
        i := i + 1;
      }
      assert grid[..i] == grid;
      FacesCount(grid, RingSegmentCount + 1);

      vertices := LayOutVertices(faces);
      indices := LayOutIndices(|faces|);
    }
  }

  /** A placed ring has 51 chained edges, the first of them degenerate. */
  lemma PlacedRingShape(ring: RingSegment, i: nat, rings: nat, length: real, sideLut: seq<Vector2>,
                        dorsalLut: seq<Vector2>, phaseToPoint: PointFunction)
    requires rings > 0
    requires RingPlaced(ring, i, rings, length, sideLut, dorsalLut, phaseToPoint)
    ensures |ring.lineSegments| == RingSegmentCount + 1 && Chained(ring.lineSegments)
    ensures ring.lineSegments[0].start == ring.lineSegments[0].end
  {
    RingLinesShape(phaseToPoint, RingSegmentCount, RingRotation, RingZ(i, rings, length), ring.width, ring.height);
  }

  /** In the hull of rings placed as the constructor places them, the first face of every band is
      degenerate (both its ring edges are the degenerate first edges of their rings), and every
      face shares its side edges with its neighbours around the band. */
  lemma PlacedHullBands(ringSegments: seq<RingSegment>, length: real, sideLut: seq<Vector2>,
                        dorsalLut: seq<Vector2>, phaseToPoint: PointFunction, i: nat, j: nat)
    requires Uniform(LineGrid(ringSegments), RingSegmentCount + 1)
    requires forall k :: 0 <= k < |ringSegments| ==>
      RingPlaced(ringSegments[k], k, |ringSegments|, length, sideLut, dorsalLut, phaseToPoint)
    requires 0 < i < |ringSegments| && j < RingSegmentCount
    ensures var w := RingSegmentCount + 1; var faces := Faces(LineGrid(ringSegments));
      (i - 1) * w + j + 1 < |faces| &&
      faces[(i - 1) * w].p0 == faces[(i - 1) * w].p1 &&
      faces[(i - 1) * w].p2 == faces[(i - 1) * w].p3 &&
      faces[(i - 1) * w + j].p1 == faces[(i - 1) * w + j + 1].p0 &&
      faces[(i - 1) * w + j].p2 == faces[(i - 1) * w + j + 1].p3
  {
    var n := |ringSegments|;
    var grid := LineGrid(ringSegments);
    var w := RingSegmentCount + 1;
    forall r | 0 <= r < n
      ensures |grid[r]| == w && Chained(grid[r])
      ensures grid[r][0].start == grid[r][0].end
    {
      PlacedRingShape(ringSegments[r], r, n, length, sideLut, dorsalLut, phaseToPoint);
    }
    assert Uniform(grid, w);
    FirstFaceDegenerate(grid, w, i);
    FacesShareRadialEdge(grid, w, i, j);
  }
}
