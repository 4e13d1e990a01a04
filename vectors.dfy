/** The three.js value types and interpolation helpers that the mesh code uses,
    over exact reals (floating-point rounding is not modelled). */
module Vectors {

  /** three.js Vector2: a point in the plane of a profile curve. */
  datatype Vector2 = Vector2(x: real, y: real)

  /** three.js Vector3. For a curve anchor the z component is the handle length ("tension"). */
  datatype Vector3 = Vector3(x: real, y: real, z: real)

  /** MathUtils.lerp(a, b, t): the point a fraction t of the way from a to b. */
  function Lerp(a: real, b: real, t: real): real
  {
    (1.0 - t) * a + t * b
  }

  /** MathUtils.inverseLerp(a, b, v): the fraction at which v lies between a and b, 0 when a == b. */
  function InverseLerp(a: real, b: real, v: real): real
  {
    if a != b then (v - a) / (b - a) else 0.0
  }

  /** Interpolating between two equal values gives that value, whatever the fraction. */
  lemma LerpOfEqualEnds(y: real, t: real)
    ensures Lerp(y, y, t) == y
  {
  }
}
