/** Rays and hit records of the ray caster. Normalising a vector needs a square root, which the
    model takes as a parameter: `normalize` stands for the vector library's normalisation. */
module Rays {
  import opened Wrappers
  import opened Linear
  import opened Attributes

  /** Textures are declared but never defined for the ray caster; a hit record only ever holds
      a null texture pointer. */
  datatype Texture = Texture

  datatype Ray = Ray(origin: Vec3, direction: Vec3)

  /** `Ray(origin, direction)`: the origin as given, the direction normalised. */
  function NewRay(normalize: Vec3 -> Vec3, origin: Vec3, direction: Vec3): (r: Ray)
    ensures r.origin == origin && r.direction == normalize(direction)
  {
    Ray(origin, normalize(direction))
  }

  /** The ray parameter, the point and the normal of an intersection, the material hit, and
      texture data no part of the renderer fills in. */
  datatype HitRecord = HitRecord(
    t: real, point: Vec3, normal: Vec3, material: Option<Material>,
    texCoords: Vec2, texture: Option<Texture>)

  /** `HitRecord()`: parameter zero, zero point, normal and texture coordinates, no material and
      no texture. */
  const DefaultHit: HitRecord := HitRecord(0.0, Zero3, Zero3, None, Zero2, None)
}
