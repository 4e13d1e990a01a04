/** The hull that Fish.mount in fish.ts skins between consecutive rings: the faces, the flat
    vertex buffer and the triangle index buffer it hands to three.js. */
module Hull {
  import opened Vectors
  import opened Rings

  /** One quad of the hull, its corners in the order the source lists them. */
  datatype Face = Face(p0: Vector3, p1: Vector3, p2: Vector3, p3: Vector3)

  /** The quad between edge j of a ring and edge j of the ring before it: this edge forwards,
      then the previous ring's edge backwards. */
  function FaceBetween(line: LineSegment, previous: LineSegment): Face
  {
    Face(line.start, line.end, previous.end, previous.start)
  }

  /** The corners of a face, in order. */
  function Corners(face: Face): seq<Vector3>
  {
    [face.p0, face.p1, face.p2, face.p3]
  }

  /** What the source needs of the rings: each ring has no more edges than the one before it,
      so that `previousRingSegment.lineSegments[j]` exists. */
  predicate Skinnable(grid: seq<seq<LineSegment>>)
  {
    forall i :: 0 < i < |grid| ==> |grid[i]| <= |grid[i - 1]|
  }

  /** Every ring has exactly w edges. */
  predicate Uniform(grid: seq<seq<LineSegment>>, w: nat)
  {
    forall i :: 0 <= i < |grid| ==> |grid[i]| == w
  }

  /** The first n faces the inner loop pushes for a ring and the ring before it. */
  function RowFaces(ring: seq<LineSegment>, previous: seq<LineSegment>, n: nat): (r: seq<Face>)
    requires n <= |ring| && n <= |previous|
    ensures |r| == n
    ensures forall j :: 0 <= j < n ==> r[j] == FaceBetween(ring[j], previous[j])
  {
    if n == 0 then [] else RowFaces(ring, previous, n - 1) + [FaceBetween(ring[n - 1], previous[n - 1])]
  }

  /** The faces the nested loops of mount push, ring 1 first. */
  function Faces(grid: seq<seq<LineSegment>>): seq<Face>
    requires Skinnable(grid)
    decreases |grid|
  {
    if |grid| < 2 then []
    else
      var n := |grid|;
      assert Skinnable(grid[..n - 1]);
      Faces(grid[..n - 1]) + RowFaces(grid[n - 1], grid[n - 2], |grid[n - 1]|)
  }

  /** The coordinates of the points, three numbers per point, in order. */
  function PointCoords(points: seq<Vector3>): seq<real>
  {
    if points == [] then []
    else
      var p := points[|points| - 1];
      PointCoords(points[..|points| - 1]) + [p.x, p.y, p.z]
  }

  /** The vertex buffer: every corner of every face, in face order. */
  function VertexBuffer(faces: seq<Face>): seq<real>
  {
    if faces == [] then [] else VertexBuffer(faces[..|faces| - 1]) + PointCoords(Corners(faces[|faces| - 1]))
  }

  /** Vertex v of a flat buffer read with item size 3, as three.js reads a position attribute. */
  function VertexOf(buffer: seq<real>, v: nat): Vector3
    requires 3 * v + 2 < |buffer|
  {
    Vector3(buffer[3 * v], buffer[3 * v + 1], buffer[3 * v + 2])
  }

  /** The index buffer for n faces: face f adds the triangles (4f, 4f+1, 4f+2) and (4f, 4f+2, 4f+3). */
  function IndexBuffer(n: nat): seq<int>
  {
    if n == 0 then []
    else
      var i := n - 1;
      IndexBuffer(i) + [i * 4, i * 4 + 1, i * 4 + 2] + [i * 4, i * 4 + 2, i * 4 + 3]
  }

  /** Skinning one more ring appends that ring's band of faces. */
  lemma FacesSnoc(grid: seq<seq<LineSegment>>, i: nat)
    requires Skinnable(grid) && 0 < i < |grid|
    ensures Skinnable(grid[..i]) && Skinnable(grid[..i + 1])
    ensures Faces(grid[..i + 1]) == Faces(grid[..i]) + RowFaces(grid[i], grid[i - 1], |grid[i]|)
  {
    assert grid[..i + 1][..i] == grid[..i];
  }

  /** Laying out one more face appends its corners' coordinates. */
  lemma VertexBufferSnoc(faces: seq<Face>, f: nat)
    requires f < |faces|
    ensures VertexBuffer(faces[..f + 1]) == VertexBuffer(faces[..f]) + PointCoords(Corners(faces[f]))
  {
    assert faces[..f + 1][..f] == faces[..f];
  }

  /** Laying out one more point appends its three coordinates. */
  lemma PointCoordsSnoc(points: seq<Vector3>, c: nat)
    requires c < |points|
    ensures PointCoords(points[..c + 1]) == PointCoords(points[..c]) + [points[c].x, points[c].y, points[c].z]
  {
    assert points[..c + 1][..c] == points[..c];
  }

  /** Which corner of its face each of the six indices of a face refers to. */
  const TrianglePattern: seq<nat> := [0, 1, 2, 0, 2, 3]

  /** Multiplying both sides of a <= b by the same natural number keeps the order. */
  lemma MulLeq(a: nat, b: nat, w: nat)
    requires a <= b
    ensures a * w <= b * w
  {
  }

  /** With w edges per ring, n rings give (n - 1) * w faces. */
  lemma {:induction false} FacesCount(grid: seq<seq<LineSegment>>, w: nat)
    requires Uniform(grid, w) && |grid| > 0
    ensures |Faces(grid)| == (|grid| - 1) * w
  {
    var n := |grid|;
    if n >= 2 {
      FacesCount(grid[..n - 1], w);
      assert (n - 2) * w + w == (n - 1) * w;
    }
  }

  /** With w edges per ring, the quad between edge j of ring i and edge j of ring i - 1 is
      face (i - 1) * w + j. */
  lemma {:induction false} FaceAt(grid: seq<seq<LineSegment>>, w: nat, i: nat, j: nat)
    requires Uniform(grid, w)
    requires 0 < i < |grid| && j < w
    ensures (i - 1) * w + j < |Faces(grid)|
    ensures Faces(grid)[(i - 1) * w + j] == FaceBetween(grid[i][j], grid[i - 1][j])
  {
    var n := |grid|;
    var init := grid[..n - 1];
    FacesCount(grid, w);
    FacesCount(init, w);
    assert (i - 1) * w + w == i * w;
    MulLeq(i, n - 1, w);
    if i == n - 1 {
      assert (i - 1) * w + j == |Faces(init)| + j;
    } else {
      MulLeq(i, n - 2, w);
      FaceAt(init, w, i, j);
      assert init[i] == grid[i] && init[i - 1] == grid[i - 1];
    }
  }

  /** Neighbouring faces around a band share an edge when the ring edges are chained. */
  lemma FacesShareRadialEdge(grid: seq<seq<LineSegment>>, w: nat, i: nat, j: nat)
    requires Uniform(grid, w)
    requires forall r :: 0 <= r < |grid| ==> Chained(grid[r])
    requires 0 < i < |grid| && j + 1 < w
    ensures (i - 1) * w + j + 1 < |Faces(grid)|
    ensures var f := Faces(grid)[(i - 1) * w + j]; var g := Faces(grid)[(i - 1) * w + j + 1];
      f.p1 == g.p0 && f.p2 == g.p3
  {
    FaceAt(grid, w, i, j);
    FaceAt(grid, w, i, j + 1);
    assert Chained(grid[i]) && Chained(grid[i - 1]);
  }

  /** Faces of consecutive bands share the edge of the ring between them, traversed in the
      opposite direction. */
  lemma FacesShareRingEdge(grid: seq<seq<LineSegment>>, w: nat, i: nat, j: nat)
    requires Uniform(grid, w)
    requires 0 < i && i + 1 < |grid| && j < w
    ensures i * w + j < |Faces(grid)|
    ensures var f := Faces(grid)[(i - 1) * w + j]; var g := Faces(grid)[i * w + j];
      f.p0 == g.p3 && f.p1 == g.p2
  {
    FaceAt(grid, w, i, j);
    FaceAt(grid, w, i + 1, j);
  }

  /** A degenerate first edge on both rings makes the first face of the band degenerate:
      its first two corners coincide and so do its last two. */
  lemma FirstFaceDegenerate(grid: seq<seq<LineSegment>>, w: nat, i: nat)
    requires Uniform(grid, w) && w > 0
    requires 0 < i < |grid|
    requires grid[i][0].start == grid[i][0].end && grid[i - 1][0].start == grid[i - 1][0].end
    ensures (i - 1) * w < |Faces(grid)|
    ensures var f := Faces(grid)[(i - 1) * w]; f.p0 == f.p1 && f.p2 == f.p3
  {
    FaceAt(grid, w, i, 0);
  }

  /** The coordinates of a face's corners, in order. */
  lemma CornerCoords(face: Face)
    ensures PointCoords(Corners(face)) ==
      [face.p0.x, face.p0.y, face.p0.z, face.p1.x, face.p1.y, face.p1.z,
       face.p2.x, face.p2.y, face.p2.z, face.p3.x, face.p3.y, face.p3.z]
  {
    var c := Corners(face);
    assert c[..0] == [];
    assert c[..1][..0] == c[..0];
    assert c[..2][..1] == c[..1];
    assert c[..3][..2] == c[..2];
    assert c[..3] == [face.p0, face.p1, face.p2];
    assert c[..4][..3] == c[..3];
    assert PointCoords(c[..1]) == [face.p0.x, face.p0.y, face.p0.z];
    assert PointCoords(c[..2]) == [face.p0.x, face.p0.y, face.p0.z, face.p1.x, face.p1.y, face.p1.z];
  }

  /** The vertex buffer holds 12 numbers per face. */
  lemma {:induction false} VertexBufferLength(faces: seq<Face>)
    ensures |VertexBuffer(faces)| == 12 * |faces|
  {
    if faces != [] {
      VertexBufferLength(faces[..|faces| - 1]);
      CornerCoords(faces[|faces| - 1]);
    }
  }

  /** Vertex 4f + c of the buffer is corner c of face f. */
  lemma {:induction false} VertexAt(faces: seq<Face>, f: nat, c: nat)
    requires f < |faces| && c < 4
    ensures 3 * (4 * f + c) + 2 < |VertexBuffer(faces)|
    ensures VertexOf(VertexBuffer(faces), 4 * f + c) == Corners(faces[f])[c]
  {
    var n := |faces|;
    var init := faces[..n - 1];
    VertexBufferLength(faces);
    VertexBufferLength(init);
    CornerCoords(faces[n - 1]);
    if f == n - 1 {
      assert 3 * (4 * f + c) == |VertexBuffer(init)| + 3 * c;
    } else {
      VertexAt(init, f, c);
      assert init[f] == faces[f];
    }
  }

  /** The index buffer holds 6 entries per face. */
  lemma {:induction false} IndexBufferLength(n: nat)
    ensures |IndexBuffer(n)| == 6 * n
  {
    if n > 0 {
      IndexBufferLength(n - 1);
    }
  }

  /** Entry 6f + m of the index buffer is 4f + TrianglePattern[m]: face f's two triangles
      (0, 1, 2) and (0, 2, 3) over its own four vertices. */
  lemma {:induction false} IndexAt(n: nat, f: nat, m: nat)
    requires f < n && m < 6
    ensures 6 * f + m < |IndexBuffer(n)|
    ensures IndexBuffer(n)[6 * f + m] == 4 * f + TrianglePattern[m]
  {
    IndexBufferLength(n);
    IndexBufferLength(n - 1);
    if f < n - 1 {
      IndexAt(n - 1, f, m);
    }
  }

  /** Every index names one of the 4n vertices. */
  lemma {:induction false} IndexBounds(n: nat)
    ensures forall k :: 0 <= k < |IndexBuffer(n)| ==> 0 <= IndexBuffer(n)[k] < 4 * n
  {
    if n > 0 {
      IndexBounds(n - 1);
      IndexBufferLength(n - 1);
    }
  }

  /** The six indices of face f pick, in the vertex buffer, the corners (0, 1, 2) and (0, 2, 3)
      of face f itself. */
  lemma TriangleCorners(faces: seq<Face>, f: nat, m: nat)
    requires f < |faces| && m < 6
    ensures 6 * f + m < |IndexBuffer(|faces|)|
    ensures var v := IndexBuffer(|faces|)[6 * f + m];
      0 <= v && 3 * v + 2 < |VertexBuffer(faces)| &&
      VertexOf(VertexBuffer(faces), v) == Corners(faces[f])[TrianglePattern[m]]
  {
    IndexAt(|faces|, f, m);
    VertexAt(faces, f, TrianglePattern[m]);
  }

  /** The `faces.forEach` loop of mount: the x, y and z of every corner of every face, in order. */
  method LayOutVertices(faces: seq<Face>) returns (vertices: seq<real>)
    ensures vertices == VertexBuffer(faces)
    ensures |vertices| == 12 * |faces|
  {
    vertices := [];
    var f := 0;
    while f < |faces|
      invariant 0 <= f <= |faces|
      invariant vertices == VertexBuffer(faces[..f])
    {
      var face := Corners(faces[f]);
      var c := 0;
      while c < |face|
        invariant 0 <= c <= |face|
        invariant vertices == VertexBuffer(faces[..f]) + PointCoords(face[..c])
      {
        var point := face[c];
        PointCoordsSnoc(face, c);
        vertices := vertices + [point.x, point.y, point.z];
        c := c + 1;
      }
      assert face[..c] == face;
      VertexBufferSnoc(faces, f);
      f := f + 1;
    }
    assert faces[..f] == faces;
    VertexBufferLength(faces);
  }

  /** The index loop of mount: two triangles per face, over that face's four vertices. */
  method LayOutIndices(count: nat) returns (indices: seq<int>)
    ensures indices == IndexBuffer(count)
    ensures |indices| == 6 * count
    ensures forall k :: 0 <= k < |indices| ==> 0 <= indices[k] < 4 * count
  {
    indices := [];
    var i := 0;
    while i < count
      invariant 0 <= i <= count
      invariant indices == IndexBuffer(i)
    {
      indices := indices + [i * 4, i * 4 + 1, i * 4 + 2];
      indices := indices + [i * 4, i * 4 + 2, i * 4 + 3];
      i := i + 1;
    }
    IndexBufferLength(count);
    IndexBounds(count);
  }
}
