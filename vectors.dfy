/**
 * Three-component positions (THREE.Vector3) over the reals.  The JavaScript
 * uses doubles; over the reals the identities below are exact, so they state an
 * idealisation of what the floating-point code does approximately.
 */
module Vectors {
  datatype Vec3 = Vec3(x: real, y: real, z: real)

  const Zero := Vec3(0.0, 0.0, 0.0)

  function Add(a: Vec3, b: Vec3): Vec3 {
    Vec3(a.x + b.x, a.y + b.y, a.z + b.z)
  }

  function Sub(a: Vec3, b: Vec3): Vec3 {
    Vec3(a.x - b.x, a.y - b.y, a.z - b.z)
  }

  function Scale(a: Vec3, k: real): Vec3 {
    Vec3(a.x * k, a.y * k, a.z * k)
  }

  /** `from.clone().lerp(to, e)`: the point a fraction `e` of the way from `from` to `to`. */
  function Lerp(from: Vec3, to: Vec3, e: real): (r: Vec3)
    ensures e == 0.0 ==> r == from
    ensures e == 1.0 ==> r == to
  {
    Add(from, Scale(Sub(to, from), e))
  }
}
