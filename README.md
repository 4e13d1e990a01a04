# FishSim mesh geometry in Dafny

This project models the procedural fish body of FishSim, a TypeScript/three.js program. There are two parts:

- **Curve profile** (`bezierDefinedCurve`). A list of anchors `(x, y, tension)` becomes one cubic Bezier per consecutive anchor pair. Those curves are sampled into one flattened lookup table (`sLUT`), and `getYfromX` scans that table for a height.
- **Fish body and hull** (`Fish`, `RingSegment`, `LineSegment`). The constructor builds 40 elliptical ring cross-sections, ring i with the `positionZ` argument `((i / rings) - 0.5) * length`; `phaseToPoint`'s quarter turn about y carries that coordinate to world x, so the body runs along x. Each ring is sized by the side and dorsal profiles and is stored as a chain of 51 line segments. `mount` skins consecutive rings into quads and lays out the flat vertex buffer and the triangle index buffer that it hands to three.js.

Modules:

- `Vectors` holds three.js's `Vector2`, `Vector3`, `lerp` and `inverseLerp`, over exact reals.
- `Profile` holds the `BezierDefinedCurve` class and the functions that specify it.
- `Rings` holds `LineSegment`, the `RingSegment` class and the ring's edge chain.
- `Hull` holds the faces, the vertex buffer and the index buffer of `mount`, and the two loops that lay out those buffers.
- `FishBody` holds the `Fish` class: the constructor's ring placement and `Mount`.

Two foreign functions are passed in as function-typed parameters. Apart from two assumptions about the sampler, named under "## Left out", the model assumes nothing about their results:

- bezier-js's `getLUT` (`Profile.LutFunction`);
- `phaseToPoint`, with its cosine and sine rotation (`Rings.PointFunction`).

Some behaviours of the code are easy to misread; the model follows the code:

- **Too few anchors.** A profile built from fewer than two anchors is not rejected. The loop builds no curve, and the table is empty.
- **No interpolation.** `getYfromX` takes the same table entry as both "this point" and "next point". `inverseLerp` of two equal values is 0, and `lerp` of two equal values is that value. So the call returns exactly the y of the entry where the scan stops. `Profile.BezierDefinedCurve.GetYFromX` proves this.
- **Scan ends at -1.** If `x <= -1` or the table is empty, the scan index ends at -1, and reading `.x` of `sLUT[-1]` throws. The model returns `None` in that case.
- **Face count.** Every ring has `segments + 1` edges, and edge 0 is degenerate (it starts and ends at the phase-0 point). So `mount` builds one face per edge, the degenerate edge 0 included: `(rings - 1) * (segments + 1)` faces. The first face of every band is degenerate.
- **Ring rotation.** Every ring's points are rotated by `(0, π/2, 0)`. The `rotation` field of `RingSegment` keeps its initial `(0, 0, 0)`, because the constructor never assigns it.
- **Fewer than two rings.** The face loop does not require two rings. `Hull.Faces` of a grid with fewer than two rings is empty. `FishBody.Fish.Mount` itself requires `Valid()`, which fixes the ring count at 40.

The bodies of `Fish.mount` are split in this model:

- The face-building loops stay in `FishBody.Fish.Mount`.
- The vertex loop is `Hull.LayOutVertices`.
- The index loop is `Hull.LayOutIndices`.
- One iteration of the `Fish` constructor's loop is `FishBody.NewRing`.

Nothing else in a `RingSegment` changes after it is built. So its fields are constants, and its constructor collects the line segments in a local list before storing them.

## Model

| member | source | states |
|---|---|---|
| Vectors.LerpOfEqualEnds | src/components/bezierDefinedCurve.ts:66-72 | lerp between two equal values returns that value for any fraction, so the final lerp of getYfromX cannot interpolate |
| Profile.SegmentEndpoints | src/components/bezierDefinedCurve.ts:12-40 | curve i starts at (points[i].x, points[i].y) and ends at (points[i+1].x, points[i+1].y) |
| Profile.SegmentsJoin | src/components/bezierDefinedCurve.ts:13-40 | consecutive curves meet: the end of curve i - 1 is the start of curve i |
| Profile.EndHandlesOnChord | src/components/bezierDefinedCurve.ts:15-38 | the first curve's start handle is lerp(anchor 0, anchor 1, 0.1) and the last curve's end handle is lerp(second-to-last, last, 0.9), both on the chord |
| Profile.InteriorHandlesMirror | src/components/bezierDefinedCurve.ts:20-37 | at every interior anchor both handles keep the anchor's y and lie the anchor's tension to either side of it in x, mirror images through the anchor |
| Profile.FlattenConcat | src/components/bezierDefinedCurve.ts:45-51 | the table of two runs of curves is the first run's table followed by the second's, so every curve's samples occupy one contiguous block in curve order, whatever the sampler returns |
| Profile.FlattenLength | src/components/bezierDefinedCurve.ts:45-51 | when getLUT(50) yields 51 points, the table holds 51 entries per curve |
| Profile.FlattenAt | src/components/bezierDefinedCurve.ts:45-51 | entry 51 * s + k of the table is sample k of curve s, so the table is the curves' samples in curve order |
| Profile.ProfileLutNonEmpty | src/components/bezierDefinedCurve.ts:45-51 | with at least two anchors and non-empty sample lists, the table is non-empty |
| Profile.ScanFrom | src/components/bezierDefinedCurve.ts:56-63 | the scan stops at an in-range index: the first entry whose x is at least the query, or the last entry when none is |
| Profile.ScanIndexUnique | src/components/bezierDefinedCurve.ts:56-63 | that characterisation determines the index: any index preceded only by entries left of x and itself reaching x (or last) is the scan's |
| Profile.ScanMonotone | src/components/bezierDefinedCurve.ts:56-63 | a larger query never stops the scan at an earlier entry |
| Profile.SampleIsEntry | src/components/bezierDefinedCurve.ts:54-73 | getYfromX fails exactly when x <= -1 or the table is empty, and otherwise returns the y of the first entry reaching x (or the last entry) |
| Profile.BezierDefinedCurve.constructor | src/components/bezierDefinedCurve.ts:8-52 | after construction curve is the per-pair curve list and sLUT the concatenation of their samples |
| Profile.BezierDefinedCurve.GetYFromX | src/components/bezierDefinedCurve.ts:54-73 | the while loop, the decrement and the lerp of an entry with itself return exactly the table sample at the scan index, or fail when that index is -1 |
| Rings.ChainLines | src/components/fish.ts:118-127 | the running-previous-point loop makes one edge per point, edge k ending at point k and starting at point k - 1 (edge 0 at the initial point) |
| Rings.RingLinesShape | src/components/fish.ts:118-127 | a ring has segments + 1 edges, each ending where the next starts; edge 0 starts and ends at the phase-0 point; edge k ends at phaseToPoint(2π·k/segments) |
| Rings.RingSegment.constructor | src/components/fish.ts:113-129 | a ring keeps width, height and segments, its rotation field stays (0, 0, 0), and its lineSegments are the ring's edge chain |
| Hull.RowFaces | src/components/fish.ts:65-77 | the inner loop pushes, for slot j, the face (edge j start, edge j end, previous edge j end, previous edge j start) |
| Hull.FacesCount | src/components/fish.ts:62-78 | with w edges per ring, n rings give (n - 1) * w faces |
| Hull.FaceAt | src/components/fish.ts:62-78 | face (i - 1) * w + j is the quad between edge j of ring i and edge j of ring i - 1, in the order start, end, previous end, previous start |
| Hull.FacesShareRadialEdge | src/components/fish.ts:65-77 | with chained ring edges, neighbouring faces of a band share their side edge |
| Hull.FacesShareRingEdge | src/components/fish.ts:62-78 | faces of consecutive bands share the edge of the ring between them, the other way round |
| Hull.FirstFaceDegenerate | src/components/fish.ts:68-73 | when both rings' first edges are degenerate, the first face of the band has coinciding first two and last two corners |
| Hull.CornerCoords | src/components/fish.ts:80-83 | a face contributes the x, y, z of its four corners in order, twelve numbers |
| Hull.VertexBufferLength | src/components/fish.ts:79-84 | the vertex buffer holds exactly 12 numbers per face |
| Hull.VertexAt | src/components/fish.ts:79-84 | vertex 4f + c of the buffer (read three numbers at a time) is corner c of face f |
| Hull.IndexBufferLength | src/components/fish.ts:85-89 | the index buffer holds exactly 6 entries per face |
| Hull.IndexAt | src/components/fish.ts:85-89 | entries 6f .. 6f + 5 are 4f, 4f+1, 4f+2, 4f, 4f+2, 4f+3 |
| Hull.IndexBounds | src/components/fish.ts:85-89 | every index is at least 0 and below 4 times the face count |
| Hull.TriangleCorners | src/components/fish.ts:79-92 | the six indices of face f name, in the vertex buffer, the corners (0, 1, 2) and (0, 2, 3) of face f itself |
| Hull.LayOutVertices | src/components/fish.ts:79-84 | the nested forEach produces the vertex buffer of the faces, 12 numbers per face |
| Hull.LayOutIndices | src/components/fish.ts:85-89 | the index loop produces the index buffer: 6 entries per face, all below 4 times the face count |
| FishBody.RingTRange | src/components/fish.ts:34-40 | every ring samples the profiles at i / rings in [0, 1), so getYfromX never fails for it on a non-empty table |
| FishBody.RingSpacing | src/components/fish.ts:34-38 | the rings' positionZ arguments start at -length / 2, step by length / rings and stay below length / 2 |
| FishBody.NewRing | src/components/fish.ts:35-41 | ring i gets the side profile's sample at i / rings as width, the dorsal profile's as height, 50 segments, rotation (0, π/2, 0), and its edges built by phaseToPoint with positionZ = ((i / rings) - 0.5) * length |
| FishBody.Fish.constructor | src/components/fish.ts:14-44 | the fish holds exactly rings ring segments of 51 edges, ring i placed as above from the two fixed anchor lists |
| FishBody.Fish.Mount | src/components/fish.ts:46-92 | mount's faces are the skinned bands, (rings - 1) * 51 of them, and its buffers have 12 numbers and 6 in-range indices per face |
| FishBody.PlacedRingShape | src/components/fish.ts:113-127 | a ring placed by the constructor has 51 chained edges, the first degenerate |
| FishBody.PlacedHullBands | src/components/fish.ts:62-78 | in the hull of the constructor's rings, every band's first face is degenerate and neighbouring faces around a band share an edge |

## Left out

- Bezier evaluation and bezier-js's `getLUT` (src/components/bezierDefinedCurve.ts:41, 47) are foreign code. The sampler is a parameter. Most properties are proved for any sampler. The exceptions are that `FishBody.Fish.constructor` requires every sample list to be non-empty, and that `Profile.FlattenLength` and `Profile.FlattenAt` require exactly 51 points per list.
- The trigonometry of `phaseToPoint` (src/components/fish.ts:141-164) is left out. The point function is a parameter, so the model does not show that point `segments` closes the loop onto point 0, or where on the ellipse a point lies.
- Floating point is not modelled. The model has no doubles and no `Float32Array` rounding, and `Math.PI` is taken as the decimal 3.141592653589793. Real `/` stands in for the division by `segments` and `rings`.
- `BufferGeometryUtils.mergeVertices`, `computeVertexNormals`, `normalizeNormals`, the material, the mesh and `scene.add` (src/components/fish.ts:90-103) are three.js library calls and rendering. `FishBody.Fish.Mount` returns the faces and the two buffers instead of handing them to a `BufferGeometry`.
- The `Renderable` base class, the `main` renderer, scene, camera, lights and the animation loop (src/components/renderable.ts, src/components/main.ts) are I/O and scene plumbing with no geometry logic. The `main` constructor argument of `Fish` is dropped.
- `maxWidth` and `maxHeight` are kept as constants. The source never reads them.
- `Renderable.animate()` (src/components/renderable.ts:25) has an empty body and `Fish` does not override it, so there is no animation to model.
- Hull.Faces: requires each ring to have no more edges than the ring before it (`Hull.Skinnable`). On a grid that breaks this, the source reads `.end` of `undefined` at src/components/fish.ts:67-72 and throws; the model does not describe that failure. No caller reaches it, because every ring has 51 edges.
- Rings.RingSegment.constructor: requires `segments > 0`. With 0 segments the source computes the phase `(2π/0)·0`, which is NaN, and reals have no such value. The only caller passes 50.
- FishBody.Fish.constructor: requires every `getLUT(c, 50)` result to be non-empty. bezier-js returns 51 points for 50 steps, and with an empty table `getYfromX` would throw.
- Profile.FlattenLength: assumes bezier-js's promise that `getLUT(50)` returns 51 points, instead of deriving it.
- Profile.FlattenAt: assumes the same 51-point promise of `getLUT(50)` to place sample k of curve s at entry 51 * s + k; `Profile.FlattenConcat` gives the block structure without it.
