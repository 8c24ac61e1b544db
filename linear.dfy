/** Vectors over the reals and matrices kept symbolic.

    A matrix is a word over transform factors: `Identity` is the empty word and `Mul` is
    concatenation. Real 4x4 matrices form a monoid under multiplication, and evaluating a word
    factor by factor is a monoid homomorphism, so every equation between words proved here also
    holds between the matrices they denote. */
module Linear {

  datatype Vec2 = Vec2(x: real, y: real)
  datatype Vec3 = Vec3(x: real, y: real, z: real)
  datatype Vec4 = Vec4(x: real, y: real, z: real, w: real)

  const Zero3: Vec3 := Vec3(0.0, 0.0, 0.0)
  const Zero2: Vec2 := Vec2(0.0, 0.0)

  function Add(a: Vec3, b: Vec3): Vec3 { Vec3(a.x + b.x, a.y + b.y, a.z + b.z) }
  function Sub(a: Vec3, b: Vec3): Vec3 { Vec3(a.x - b.x, a.y - b.y, a.z - b.z) }
  function Neg(a: Vec3): Vec3 { Vec3(-a.x, -a.y, -a.z) }
  function Max(a: real, b: real): real { if a >= b then a else b }
  function Min(a: real, b: real): real { if a <= b then a else b }
  function Abs(a: real): real { if a < 0.0 then -a else a }

  /** Component `i` (0, 1 or 2) of a vector, as `v[i]` in the source. */
  function Component(v: Vec3, i: nat): real
    requires i < 3
  {
    if i == 0 then v.x else if i == 1 then v.y else v.z
  }

  /** The degree-to-radian factor pi / 180, to the digits the vector library writes it with. */
  const RadiansPerDegree: real := 0.01745329251994329576923690768489

  /** An angle in degrees converted to radians. */
  function Radians(degrees: real): real {
    degrees * RadiansPerDegree
  }

  /** One elementary transform. `External` stands for a matrix supplied from outside the core
      (a view matrix, an animation transform), named by a tag. */
  datatype Factor =
    | ScaleBy(sx: real, sy: real, sz: real)
    | TranslateBy(tx: real, ty: real, tz: real)
    | RotateBy(radians: real, ax: real, ay: real, az: real)
    | External(tag: string)

  /** A 4x4 matrix as the product of its factors, leftmost first. */
  type Mat = seq<Factor>

  const Identity: Mat := []

  function Mul(a: Mat, b: Mat): Mat { a + b }

  lemma MulAssoc(a: Mat, b: Mat, c: Mat)
    ensures Mul(a, Mul(b, c)) == Mul(Mul(a, b), c)
  {
  }

  /** A homogeneous point: the matrix `frame` applied to the coordinates `local`. */
  datatype HPoint = HPoint(frame: Mat, local: Vec4)

  /** A direction: the upper-left 3x3 blocks of `frames` applied, leftmost first, to `local`. */
  datatype LinDir = LinDir(frames: seq<Mat>, local: Vec3)

  /** `m * p`. */
  function ApplyToPoint(m: Mat, p: HPoint): HPoint { HPoint(Mul(m, p.frame), p.local) }

  /** `mat3(m) * d`. */
  function ApplyLinear(m: Mat, d: LinDir): LinDir { LinDir([m] + d.frames, d.local) }
}
