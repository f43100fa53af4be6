/** Unit and handedness conversion from the engine's convention (centimetres,
    left-handed, rotator in degrees, quaternions) to the authoring tool's
    (metres, Y flipped, XYZ Euler in radians).

    Matrices are kept symbolic: `LocRotScale(t)` stands for the 4x4 matrix the
    math library builds from a transform and `Product(a, b)` for `a @ b`. Two
    matrices are the same term only when they are built the same way, so the
    model can say which transforms are composed, and in which order, without
    interpreting the arithmetic. */
module Geometry {

  datatype Vec3 = Vec3(x: real, y: real, z: real)

  /** A quaternion in the (W, X, Y, Z) order the math library is given. */
  datatype Quat = Quat(w: real, x: real, y: real, z: real)

  /** Location, XYZ Euler rotation in radians, and scale. */
  datatype Transform = Transform(pos: Vec3, rotEuler: Vec3, scale: Vec3)

  datatype Matrix =
    | LocRotScale(t: Transform)
    | Product(left: Matrix, right: Matrix)

  const Zero: Vec3 := Vec3(0.0, 0.0, 0.0)
  const One: Vec3 := Vec3(1.0, 1.0, 1.0)

  /** The transform a fresh `InstanceTransform()` holds. */
  const Identity: Transform := Transform(Zero, Zero, One)

  /** The double closest to pi, as the host language's math module has it. */
  const Pi: real := 3.141592653589793

  /** Degrees to radians, as `x * (pi / 180)`. */
  function Radians(deg: real): real
  {
    deg * (Pi / 180.0)
  }

  /** The transform's 4x4 matrix (the `matrix_4x4` property). */
  function Matrix4x4(t: Transform): Matrix
  {
    LocRotScale(t)
  }

  /** Centimetres to metres with the Y axis flipped: (X/100, Y/-100, Z/100). */
  function ConvertLocation(cm: Vec3): (m: Vec3)
    ensures m.x * 100.0 == cm.x && m.y * -100.0 == cm.y && m.z * 100.0 == cm.z
  {
    Vec3(cm.x / 100.0, cm.y / -100.0, cm.z / 100.0)
  }

  /** A rotator (Roll, Pitch, Yaw in degrees) as XYZ Euler radians, with pitch
      and yaw negated for the flipped Y axis. */
  function ConvertRotator(roll: real, pitch: real, yaw: real): (e: Vec3)
    ensures e == Vec3(Radians(roll), -Radians(pitch), -Radians(yaw))
  {
    Vec3(Radians(roll), Radians(pitch * -1.0), Radians(yaw * -1.0))
  }

  /** Negate X and Z of an Euler triple: the correction applied to a quaternion's
      Euler form for the flipped Y axis. */
  function FlipXZ(e: Vec3): (r: Vec3)
    ensures r.y == e.y && r.x + e.x == 0.0 && r.z + e.z == 0.0
  {
    Vec3(-e.x, e.y, -e.z)
  }

  /** A quaternion rotation as Euler radians; `toEuler` is the math library's
      quaternion-to-Euler conversion, which the model does not interpret. */
  function ConvertQuat(toEuler: Quat -> Vec3, q: Quat): Vec3
  {
    FlipXZ(toEuler(q))
  }
}
