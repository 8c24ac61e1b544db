/** Materials and lights as the scene description sets them. The classes that define them are
    not part of this model; their fields default to zero and a position gets w = 1. */
module Attributes {
  import opened Linear

  datatype Material = Material(
    ambient: Vec3, diffuse: Vec3, specular: Vec3, emission: Vec3,
    shininess: real, absorption: real, reflection: real,
    transparency: real, refractiveIndex: real)

  const DefaultMaterial: Material :=
    Material(Zero3, Zero3, Zero3, Zero3, 0.0, 0.0, 0.0, 0.0, 0.0)

  datatype Light = Light(
    ambient: Vec3, diffuse: Vec3, specular: Vec3,
    position: HPoint, spotDirection: LinDir, spotAngle: real)

  const DefaultLight: Light :=
    Light(Zero3, Zero3, Zero3, HPoint(Identity, Vec4(0.0, 0.0, 0.0, 1.0)),
          LinDir([], Zero3), 0.0)

  /** `setPosition(x, y, z)`: a point light at (x, y, z, 1). */
  function PointAt(x: real, y: real, z: real): HPoint {
    HPoint(Identity, Vec4(x, y, z, 1.0))
  }
}
