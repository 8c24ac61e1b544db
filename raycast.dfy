/** The ray caster. For every pixel it casts a ray from the eye, walks the graph to find the
    nearest positive hit, shades that hit with two fixed lights and, for reflective materials,
    a reflected ray, and writes the image as plain-text PPM.

    The arithmetic the vector library does in floating point (square roots, normalisation,
    powers, matrix inverses, the eye ray of a pixel) is a `Kernel` of function parameters;
    everything the renderer decides with that arithmetic (which primitive to test, the slab
    test, which hit wins, the shadow test, when to recurse, how to format the image) is
    modelled over the reals. */
module Raycast {
  import opened Wrappers
  import opened Linear
  import opened Attributes
  import opened Nodes
  import opened Rays
  import opened Scanner

  /** The largest finite single-precision float, the "no hit yet" parameter. */
  const FloatMax: real := 340282346638528859811704183484516925440.0

  const Background: Vec3 := Zero3
  const MaxBounce: int := 5
  const ParallelBound: real := 0.000001
  const FaceBias: real := 0.0001
  const ShadowOffset: real := 0.001
  const ReflectionOffset: real := 0.01

  /** The floating-point operations the renderer takes from the vector library. */
  datatype Kernel = Kernel(
    /** Single-precision multiplication and division. */
    mul: (real, real) -> real,
    div: (real, real) -> real,
    sqrt: real -> real,
    pow: (real, real) -> real,
    normalize: Vec3 -> Vec3,
    /** `transformRay(ray, inverse(M))`. */
    toLocal: (Mat, Ray) -> Ray,
    /** `M * (p, 1)` divided by its w. */
    toViewPoint: (Mat, Vec3) -> Vec3,
    /** `normalize(transpose(inverse(M)) * (n, 0))`. */
    toViewNormal: (Mat, Vec3) -> Vec3,
    /** The eye ray through pixel (i, j) of a w x h image, for a view matrix and the z of the
        view plane. */
    primaryRay: (Mat, real, int, int, int, int) -> Ray)

  /** The parameter, point and normal an intersection test writes. */
  datatype LocalHit = LocalHit(t: real, point: Vec3, normal: Vec3)

  // ---------------------------------------------------------------------------------------
  // Vector arithmetic in the kernel's products; sums and differences are exact

  function Scaled(k: Kernel, s: real, v: Vec3): Vec3 {
    Vec3(k.mul(s, v.x), k.mul(s, v.y), k.mul(s, v.z))
  }

  function Dot(k: Kernel, a: Vec3, b: Vec3): real {
    k.mul(a.x, b.x) + k.mul(a.y, b.y) + k.mul(a.z, b.z)
  }

  /** The renderer's own `HadamardProduct`: component-wise products. */
  function HadamardProduct(k: Kernel, a: Vec3, b: Vec3): Vec3 {
    Vec3(k.mul(a.x, b.x), k.mul(a.y, b.y), k.mul(a.z, b.z))
  }

  /** `glm::reflect`: the incident vector mirrored about the normal. */
  function Reflect(k: Kernel, incident: Vec3, normal: Vec3): Vec3 {
    Sub(incident, Scaled(k, k.mul(2.0, Dot(k, normal, incident)), normal))
  }

  /** The kernel multiplies and divides exactly. */
  ghost predicate ExactArithmetic(k: Kernel) {
    && (forall a, b :: k.mul(a, b) == a * b)
    && (forall a, b :: b != 0.0 ==> k.div(a, b) == a / b)
  }

  /** `origin + t * direction`. */
  function At3(k: Kernel, o: Vec3, d: Vec3, t: real): Vec3 { Add(o, Scaled(k, t, d)) }

  // ---------------------------------------------------------------------------------------
  // The box test

  predicate Parallel(d: real) { Abs(d) < ParallelBound }

  predicate OutsideSlab(o: real) { o < -0.5 || o > 0.5 }

  /** Where the ray crosses the plane `plane` of one axis: `(plane - o) * invD` with
      `invD = 1 / d`, in the kernel's arithmetic. */
  function Crossing(k: Kernel, plane: real, o: real, d: real): real {
    k.mul(plane - o, k.div(1.0, d))
  }

  /** Where the ray crosses the two planes of one axis, nearer first. */
  function SlabNear(k: Kernel, o: real, d: real): real {
    Min(Crossing(k, -0.5, o, d), Crossing(k, 0.5, o, d))
  }

  function SlabFar(k: Kernel, o: real, d: real): real {
    Max(Crossing(k, -0.5, o, d), Crossing(k, 0.5, o, d))
  }

  /** Some axis below `n` runs parallel to its slab and starts outside it. */
  predicate Blocked(r: Ray, n: nat)
    requires n <= 3
  {
    n > 0 &&
    (Blocked(r, n - 1) ||
     (Parallel(Component(r.direction, n - 1)) && OutsideSlab(Component(r.origin, n - 1))))
  }

  /** The latest entry into the slabs of the axes below `n`, never before the origin. */
  function Entry(k: Kernel, r: Ray, n: nat): real
    requires n <= 3
  {
    if n == 0 then 0.0
    else if Parallel(Component(r.direction, n - 1)) then Entry(k, r, n - 1)
    else Max(Entry(k, r, n - 1), SlabNear(k, Component(r.origin, n - 1), Component(r.direction, n - 1)))
  }

  /** The earliest exit from the slabs of the axes below `n`, never past the float range. */
  function Exit(k: Kernel, r: Ray, n: nat): real
    requires n <= 3
  {
    if n == 0 then FloatMax
    else if Parallel(Component(r.direction, n - 1)) then Exit(k, r, n - 1)
    else Min(Exit(k, r, n - 1), SlabFar(k, Component(r.origin, n - 1), Component(r.direction, n - 1)))
  }

  predicate NearFace(a: real, face: real) { Abs(a - face) < FaceBias }

  /** The outward normal of the first face within the bias of `p`, trying -x, +x, -y, +y, -z,
      +z in that order, or zero when `p` is near none of them. */
  function FaceNormal(p: Vec3): (n: Vec3)
    ensures n == Zero3 <==>
              !(NearFace(p.x, -0.5) || NearFace(p.x, 0.5) || NearFace(p.y, -0.5) ||
                NearFace(p.y, 0.5) || NearFace(p.z, -0.5) || NearFace(p.z, 0.5))
    ensures n in {Zero3, Vec3(-1.0, 0.0, 0.0), Vec3(1.0, 0.0, 0.0), Vec3(0.0, -1.0, 0.0),
                  Vec3(0.0, 1.0, 0.0), Vec3(0.0, 0.0, -1.0), Vec3(0.0, 0.0, 1.0)}
  {
    if NearFace(p.x, -0.5) then Vec3(-1.0, 0.0, 0.0)
    else if NearFace(p.x, 0.5) then Vec3(1.0, 0.0, 0.0)
    else if NearFace(p.y, -0.5) then Vec3(0.0, -1.0, 0.0)
    else if NearFace(p.y, 0.5) then Vec3(0.0, 1.0, 0.0)
    else if NearFace(p.z, -0.5) then Vec3(0.0, 0.0, -1.0)
    else if NearFace(p.z, 0.5) then Vec3(0.0, 0.0, 1.0)
    else Zero3
  }

  /** The hit of the box [-0.5, 0.5]^3, by the slab method. */
  function BoxHit(k: Kernel, r: Ray): Option<LocalHit> {
    if Blocked(r, 3) || Exit(k, r, 3) < Entry(k, r, 3) then None
    else
      var t := Entry(k, r, 3);
      var p := At3(k, r.origin, r.direction, t);
      Some(LocalHit(t, p, FaceNormal(p)))
  }

  lemma {:induction false} EntryNonNegative(k: Kernel, r: Ray, n: nat)
    requires n <= 3
    ensures Entry(k, r, n) >= 0.0
  {
    if n > 0 {
      EntryNonNegative(k, r, n - 1);
    }
  }

  /** Entries only grow, exits only shrink and a blocked axis stays blocked as more axes are
      taken in. */
  lemma {:induction false} SlabsMonotone(k: Kernel, r: Ray, i: nat, j: nat)
    requires i <= j <= 3
    ensures Entry(k, r, i) <= Entry(k, r, j) && Exit(k, r, j) <= Exit(k, r, i)
    ensures Blocked(r, i) ==> Blocked(r, j)
    decreases j - i
  {
    if i < j {
      SlabsMonotone(k, r, i, j - 1);
    }
  }

  /** `intersectBox`: the three axes in turn, keeping the running entry and exit. On a miss
      the record may have been given a parameter and nothing else. */
  method IntersectBox(k: Kernel, ray: Ray, hit: HitRecord) returns (found: bool, result: HitRecord)
    ensures found <==> BoxHit(k, ray).Some?
    ensures found ==> result == hit.(t := BoxHit(k, ray).value.t, point := BoxHit(k, ray).value.point,
                                     normal := BoxHit(k, ray).value.normal)
    ensures !found ==> result.(t := hit.t) == hit
  {
    result := hit;
    var tmin := 0.0;
    var tmax := FloatMax;
    for i := 0 to 3
      invariant !Blocked(ray, i) && tmin == Entry(k, ray, i) && tmax == Exit(k, ray, i)
      invariant tmin <= tmax
    {
      var d := Component(ray.direction, i);
      var o := Component(ray.origin, i);
      if Abs(d) < ParallelBound {
        if o < -0.5 || o > 0.5 {
          SlabsMonotone(k, ray, i + 1, 3);
          return false, result;
        }
      } else {
        var invD := k.div(1.0, d);
        var t1 := k.mul(-0.5 - o, invD);
        var t2 := k.mul(0.5 - o, invD);
        if t1 > t2 {
          t1, t2 := t2, t1;
        }
        tmin := Max(tmin, t1);
        tmax := Min(tmax, t2);
        if tmax < tmin {
          SlabsMonotone(k, ray, i + 1, 3);
          return false, result;
        }
      }
    }
    EntryNonNegative(k, ray, 3);
    assert BoxHit(k, ray) == Some(LocalHit(tmin, At3(k, ray.origin, ray.direction, tmin),
                                        FaceNormal(At3(k, ray.origin, ray.direction, tmin))));
    result := result.(t := if tmin >= 0.0 then tmin else tmax);
    if result.t < 0.0 {
      return false, result;
    }
    var p := At3(k, ray.origin, ray.direction, result.t);
    result := result.(point := p);
    // the face chain of the source, -x, +x, -y, +y, -z, +z, is `FaceNormal`
    result := result.(normal := FaceNormal(p));
    found := true;
  }

  /** A box hit is never behind the origin, so the fall-back to the exit parameter never
      applies, and the hit lies within the exit. */
  lemma BoxHitInFront(k: Kernel, r: Ray)
    requires BoxHit(k, r).Some?
    ensures 0.0 <= BoxHit(k, r).value.t == Entry(k, r, 3) <= Exit(k, r, 3)
  {
    EntryNonNegative(k, r, 3);
  }

  lemma ProductSign(a: real, b: real)
    ensures a < 0.0 && b > 0.0 ==> a * b < 0.0
    ensures a > 0.0 && b > 0.0 ==> a * b > 0.0
    ensures a < 0.0 && b < 0.0 ==> a * b > 0.0
    ensures a > 0.0 && b < 0.0 ==> a * b < 0.0
  {
  }

  /** Inside the box, on every axis the nearer crossing is behind the origin and the farther
      one ahead of it. */
  lemma {:induction false} InsideSlabs(k: Kernel, r: Ray, n: nat)
    requires n <= 3
    requires ExactArithmetic(k)
    requires forall i :: 0 <= i < 3 ==> -0.5 < Component(r.origin, i) < 0.5
    ensures !Blocked(r, n) && Entry(k, r, n) == 0.0 && Exit(k, r, n) > 0.0
  {
    if n > 0 {
      InsideSlabs(k, r, n - 1);
      var o, d := Component(r.origin, n - 1), Component(r.direction, n - 1);
      if !Parallel(d) {
        assert d != 0.0 && k.div(1.0, d) == 1.0 / d;
        assert Crossing(k, -0.5, o, d) == (-0.5 - o) * (1.0 / d);
        assert Crossing(k, 0.5, o, d) == (0.5 - o) * (1.0 / d);
        ProductSign(-0.5 - o, 1.0 / d);
        ProductSign(0.5 - o, 1.0 / d);
        assert d > 0.0 ==> 1.0 / d > 0.0;
        assert d < 0.0 ==> 1.0 / d < 0.0;
      }
    }
  }

  /** A ray starting strictly inside the box hits it at parameter zero, and the leaf rule
      (parameter strictly positive) never records that hit: from inside, a box is invisible. */
  lemma BoxFromInside(k: Kernel, r: Ray)
    requires ExactArithmetic(k)
    requires -0.5 < r.origin.x < 0.5 && -0.5 < r.origin.y < 0.5 && -0.5 < r.origin.z < 0.5
    ensures BoxHit(k, r).Some? && BoxHit(k, r).value.t == 0.0
  {
    InsideSlabs(k, r, 3);
  }

  // ---------------------------------------------------------------------------------------
  // The sphere test

  /** The discriminant of |o + t d|^2 = radius^2 as a quadratic in t, for radius one. */
  function Discriminant(k: Kernel, r: Ray): real {
    var a := Dot(k, r.direction, r.direction);
    var b := k.mul(2.0, Dot(k, r.origin, r.direction));
    var c := Dot(k, r.origin, r.origin) - k.mul(1.0, 1.0);
    k.mul(b, b) - k.mul(k.mul(4.0, a), c)
  }

  /** `intersectSphere`: the unit sphere at the origin. The nearer root is taken when it is
      positive, the farther otherwise, and a negative parameter is a miss. */
  function SphereHit(k: Kernel, r: Ray): (h: Option<LocalHit>)
    ensures h.Some? ==> h.value.t >= 0.0 && h.value.point == At3(k, r.origin, r.direction, h.value.t)
    ensures Discriminant(k, r) < 0.0 ==> h.None?
  {
    var a := Dot(k, r.direction, r.direction);
    var b := k.mul(2.0, Dot(k, r.origin, r.direction));
    var disc := Discriminant(k, r);
    if disc < 0.0 then None
    else
      var s := k.sqrt(disc);
      var t0 := k.div(-b - s, k.mul(2.0, a));
      var t1 := k.div(-b + s, k.mul(2.0, a));
      var t := if t0 > 0.0 then t0 else t1;
      if t < 0.0 then None
      else
        var p := At3(k, r.origin, r.direction, t);
        Some(LocalHit(t, p, k.normalize(p)))
  }

  method IntersectSphere(k: Kernel, ray: Ray, hit: HitRecord) returns (found: bool, result: HitRecord)
    ensures found <==> SphereHit(k, ray).Some?
    ensures found ==> result == hit.(t := SphereHit(k, ray).value.t,
                                     point := SphereHit(k, ray).value.point,
                                     normal := SphereHit(k, ray).value.normal)
    ensures !found ==> result == hit
  {
    result := hit;
    var a := Dot(k, ray.direction, ray.direction);
    var b := k.mul(2.0, Dot(k, ray.origin, ray.direction));
    var radius := 1.0;
    var c := Dot(k, ray.origin, ray.origin) - k.mul(radius, radius);
    var disc := k.mul(b, b) - k.mul(k.mul(4.0, a), c);
    if disc < 0.0 {
      return false, result;
    }
    var sqrtDisc := k.sqrt(disc);
    var t0 := k.div(-b - sqrtDisc, k.mul(2.0, a));
    var t1 := k.div(-b + sqrtDisc, k.mul(2.0, a));
    var t := if t0 > 0.0 then t0 else t1;
    if t < 0.0 {
      return false, result;
    }
    var p := At3(k, ray.origin, ray.direction, t);
    result := result.(t := t, point := p, normal := k.normalize(p));
    found := true;
  }

  // ---------------------------------------------------------------------------------------
  // Primitive dispatch and the nearest hit

  /** `s.find(w) != npos`. */
  predicate Contains(s: string, w: string)
    decreases |s|
  {
    |w| <= |s| && (s[..|w|] == w || Contains(s[1..], w))
  }

  predicate OccursAt(s: string, w: string, i: int) {
    0 <= i && i + |w| <= |s| && s[i..i + |w|] == w
  }

  /** `Contains` is exactly "occurs somewhere as a substring". */
  lemma {:induction false} ContainsOccurs(s: string, w: string)
    ensures Contains(s, w) <==> exists i :: OccursAt(s, w, i)
    decreases |s|
  {
    if |w| <= |s| && s[..|w|] != w {
      ContainsOccurs(s[1..], w);
      if exists i :: OccursAt(s, w, i) {
        var i :| OccursAt(s, w, i);
        assert i > 0;
        assert s[1..][i - 1..i - 1 + |w|] == s[i..i + |w|];
        assert OccursAt(s[1..], w, i - 1);
      }
      if Contains(s[1..], w) {
        var i :| OccursAt(s[1..], w, i);
        assert s[i + 1..i + 1 + |w|] == s[1..][i..i + |w|];
        assert OccursAt(s, w, i + 1);
      }
    } else if |w| <= |s| {
      assert OccursAt(s, w, 0);
    }
  }

  /** The test of a leaf: a box when the instance name contains "box", else a sphere when it
      contains "sphere", else none; the ray is taken into the leaf's own coordinates first. */
  function LeafHit(k: Kernel, d: NodeData, m: Mat, ray: Ray): (h: Option<LocalHit>)
    requires d.Leaf?
    ensures Contains(d.instanceOf, "box") ==> h == BoxHit(k, k.toLocal(m, ray))
    ensures !Contains(d.instanceOf, "box") && Contains(d.instanceOf, "sphere") ==>
              h == SphereHit(k, k.toLocal(m, ray))
    ensures !Contains(d.instanceOf, "box") && !Contains(d.instanceOf, "sphere") ==> h.None?
  {
    var local := k.toLocal(m, ray);
    if Contains(d.instanceOf, "box") then BoxHit(k, local)
    else if Contains(d.instanceOf, "sphere") then SphereHit(k, local)
    else None
  }

  /** The leaf rule: the current hit is replaced by the leaf's when the leaf is hit strictly
      in front of the origin and strictly nearer than the current hit. */
  function Consider(k: Kernel, d: NodeData, m: Mat, ray: Ray, cur: HitRecord): HitRecord
    requires d.Leaf?
  {
    match LeafHit(k, d, m, ray)
    case Some(lh) =>
      if lh.t < cur.t && lh.t > 0.0 then
        cur.(point := k.toViewPoint(m, lh.point), normal := k.toViewNormal(m, lh.normal),
             t := lh.t, material := Some(d.material))
      else cur
    case None => cur
  }

  /** The hit record after visiting `t` with `top` on the stack: groups visit all children
      under the same matrix, transforms all children under their own matrix multiplied on. */
  function Closest(k: Kernel, t: Tree, top: Mat, ray: Ray, cur: HitRecord): HitRecord
    decreases t
  {
    if t.data.Leaf? then Consider(k, t.data, top, ray, cur)
    else if t.data.Group? then ClosestForest(k, t.kids, top, ray, cur)
    else ClosestForest(k, t.kids, Mul(top, TransformOf(t.data.op)), ray, cur)
  }

  function ClosestForest(k: Kernel, ts: seq<Tree>, top: Mat, ray: Ray, cur: HitRecord): HitRecord
    decreases ts
  {
    if ts == [] then cur
    else Closest(k, ts[|ts| - 1], top, ray, ClosestForest(k, ts[..|ts| - 1], top, ray, cur))
  }

  /** The positive hit parameters of the leaves a visit of `t` tests, in visit order. */
  function PositiveTs(k: Kernel, t: Tree, top: Mat, ray: Ray): seq<real>
    decreases t
  {
    if t.data.Leaf? then
      match LeafHit(k, t.data, top, ray)
      case Some(lh) => if lh.t > 0.0 then [lh.t] else []
      case None => []
    else if t.data.Group? then PositiveTsForest(k, t.kids, top, ray)
    else PositiveTsForest(k, t.kids, Mul(top, TransformOf(t.data.op)), ray)
  }

  function PositiveTsForest(k: Kernel, ts: seq<Tree>, top: Mat, ray: Ray): seq<real>
    decreases ts
  {
    if ts == [] then []
    else PositiveTsForest(k, ts[..|ts| - 1], top, ray) + PositiveTs(k, ts[|ts| - 1], top, ray)
  }

  /** The closest-hit rule: the parameter never grows; it ends no larger than any positive
      hit parameter of a leaf it meets; it is either where it started or one of those
      parameters; and a record that changed carries a material. */
  predicate Least(r: HitRecord, cur: HitRecord, ts: seq<real>) {
    && r.t <= cur.t
    && (forall x :: x in ts ==> r.t <= x)
    && (r == cur || (r.t in ts && r.t < cur.t && r.material.Some?))
  }

  lemma {:induction false} ClosestIsLeast(k: Kernel, t: Tree, top: Mat, ray: Ray, cur: HitRecord)
    ensures Least(Closest(k, t, top, ray, cur), cur, PositiveTs(k, t, top, ray))
    decreases t, 1
  {
    if t.data.Group? {
      ForestIsLeast(k, t.kids, top, ray, cur);
    } else if t.data.Transform? {
      ForestIsLeast(k, t.kids, Mul(top, TransformOf(t.data.op)), ray, cur);
    }
  }

  lemma {:induction false} ForestIsLeast(k: Kernel, ts: seq<Tree>, top: Mat, ray: Ray, cur: HitRecord)
    ensures Least(ClosestForest(k, ts, top, ray, cur), cur, PositiveTsForest(k, ts, top, ray))
    decreases ts, 0
  {
    if ts != [] {
      var n := |ts| - 1;
      var mid := ClosestForest(k, ts[..n], top, ray, cur);
      ForestIsLeast(k, ts[..n], top, ray, cur);
      ClosestIsLeast(k, ts[n], top, ray, mid);
      LeastChains(Closest(k, ts[n], top, ray, mid), mid, cur,
                  PositiveTs(k, ts[n], top, ray), PositiveTsForest(k, ts[..n], top, ray));
    }
  }

  lemma LeastChains(r: HitRecord, mid: HitRecord, cur: HitRecord, b: seq<real>, a: seq<real>)
    requires Least(mid, cur, a) && Least(r, mid, b)
    ensures Least(r, cur, a + b)
  {
    if r == mid && mid != cur {
      assert mid.t in a + b;
    } else if r != mid {
      assert r.t in a + b;
    }
  }

  /** Two records that differ at most in their point and normal. */
  predicate SameButPlace(h1: HitRecord, h2: HitRecord) {
    h1.(point := h2.point, normal := h2.normal) == h2
  }

  /** A visit that starts from two records differing only in point and normal either changes
      both to the same record or leaves both alone: a stale point or normal never shows
      through a change. */
  lemma {:induction false} ClosestIgnoresStale(k: Kernel, t: Tree, top: Mat, ray: Ray,
                                               h1: HitRecord, h2: HitRecord)
    requires SameButPlace(h1, h2)
    ensures var r1, r2 := Closest(k, t, top, ray, h1), Closest(k, t, top, ray, h2);
            r1 == r2 || (r1 == h1 && r2 == h2)
    decreases t, 1
  {
    if t.data.Group? {
      ForestIgnoresStale(k, t.kids, top, ray, h1, h2);
    } else if t.data.Transform? {
      ForestIgnoresStale(k, t.kids, Mul(top, TransformOf(t.data.op)), ray, h1, h2);
    }
  }

  lemma {:induction false} ForestIgnoresStale(k: Kernel, ts: seq<Tree>, top: Mat, ray: Ray,
                                              h1: HitRecord, h2: HitRecord)
    requires SameButPlace(h1, h2)
    ensures var r1, r2 := ClosestForest(k, ts, top, ray, h1), ClosestForest(k, ts, top, ray, h2);
            r1 == r2 || (r1 == h1 && r2 == h2)
    decreases ts, 0
  {
    if ts != [] {
      var n := |ts| - 1;
      ForestIgnoresStale(k, ts[..n], top, ray, h1, h2);
      var m1, m2 := ClosestForest(k, ts[..n], top, ray, h1), ClosestForest(k, ts[..n], top, ray, h2);
      if m1 != m2 {
        ClosestIgnoresStale(k, ts[n], top, ray, m1, m2);
      }
    }
  }

  /** No intersection test fills in texture coordinates or a texture. */
  predicate Untextured(h: HitRecord) { h.texCoords == Zero2 && h.texture.None? }

  lemma {:induction false} ClosestKeepsTexture(k: Kernel, t: Tree, top: Mat, ray: Ray, cur: HitRecord)
    ensures var r := Closest(k, t, top, ray, cur);
            r.texCoords == cur.texCoords && r.texture == cur.texture
    decreases t, 1
  {
    if t.data.Group? {
      ForestKeepsTexture(k, t.kids, top, ray, cur);
    } else if t.data.Transform? {
      ForestKeepsTexture(k, t.kids, Mul(top, TransformOf(t.data.op)), ray, cur);
    }
  }

  lemma {:induction false} ForestKeepsTexture(k: Kernel, ts: seq<Tree>, top: Mat, ray: Ray,
                                              cur: HitRecord)
    ensures var r := ClosestForest(k, ts, top, ray, cur);
            r.texCoords == cur.texCoords && r.texture == cur.texture
    decreases ts, 0
  {
    if ts != [] {
      var n := |ts| - 1;
      ForestKeepsTexture(k, ts[..n], top, ray, cur);
      ClosestKeepsTexture(k, ts[n], top, ray, ClosestForest(k, ts[..n], top, ray, cur));
    }
  }

  /** The record every search starts from: no hit yet. */
  const Unhit: HitRecord := DefaultHit.(t := FloatMax)

  /** Before a search the renderer resets only the parameter and the material. */
  function Reset(h: HitRecord): HitRecord { h.(t := FloatMax, material := None) }

  predicate Found(h: HitRecord) { h.t < FloatMax && h.material.Some? }

  /** The nearest hit of `ray` in the scene. */
  function Primary(k: Kernel, root: Tree, ray: Ray): HitRecord {
    Closest(k, root, Identity, ray, Unhit)
  }

  /** A search from a reset record finds a hit exactly when the search from scratch does, and
      then finds the same one, whatever point and normal the record held before. */
  lemma ResetFindsPrimary(k: Kernel, root: Tree, ray: Ray, h: HitRecord)
    requires Untextured(h)
    ensures var r := Closest(k, root, Identity, ray, Reset(h));
            (Found(r) <==> Found(Primary(k, root, ray))) && (Found(r) ==> r == Primary(k, root, ray))
  {
    ClosestIgnoresStale(k, root, Identity, ray, Reset(h), Unhit);
  }

  /** A search that finds something finds a parameter strictly between zero and the float
      range, the least positive parameter among the leaves it meets. */
  lemma PrimaryIsNearest(k: Kernel, root: Tree, ray: Ray)
    ensures var p := Primary(k, root, ray);
            && (Found(p) <==> p.material.Some?)
            && (Found(p) ==> 0.0 < p.t && p.t in PositiveTs(k, root, Identity, ray) &&
                             forall x :: x in PositiveTs(k, root, Identity, ray) ==> p.t <= x)
  {
    ClosestIsLeast(k, root, Identity, ray, Unhit);
    PositiveTsArePositive(k, root, Identity, ray);
  }

  lemma {:induction false} PositiveTsArePositive(k: Kernel, t: Tree, top: Mat, ray: Ray)
    ensures forall x :: x in PositiveTs(k, t, top, ray) ==> x > 0.0
    decreases t, 1
  {
    if t.data.Group? {
      ForestTsArePositive(k, t.kids, top, ray);
    } else if t.data.Transform? {
      ForestTsArePositive(k, t.kids, Mul(top, TransformOf(t.data.op)), ray);
    }
  }

  lemma {:induction false} ForestTsArePositive(k: Kernel, ts: seq<Tree>, top: Mat, ray: Ray)
    ensures forall x :: x in PositiveTsForest(k, ts, top, ray) ==> x > 0.0
    decreases ts, 0
  {
    if ts != [] {
      ForestTsArePositive(k, ts[..|ts| - 1], top, ray);
      PositiveTsArePositive(k, ts[|ts| - 1], top, ray);
    }
  }

  // ---------------------------------------------------------------------------------------
  // Shading

  const LightPositions: seq<Vec3> := [Vec3(0.0, 0.0, 30.0), Vec3(0.0, 10.0, 0.0)]
  const LightIntensity: Vec3 := Vec3(0.5, 0.5, 0.5)

  /** The ray from just off the hit point towards light `i`. */
  function ShadowRay(k: Kernel, h: HitRecord, i: nat): Ray
    requires i < 2
  {
    var l := k.normalize(Sub(LightPositions[i], h.point));
    NewRay(k.normalize, Add(h.point, Scaled(k, ShadowOffset, h.normal)), l)
  }

  /** The shadow test: the unit box, or failing that the unit sphere, at the origin of view
      space is hit beyond the offset. */
  predicate InShadow(k: Kernel, h: HitRecord, i: nat)
    requires i < 2
  {
    var sr := ShadowRay(k, h, i);
    match BoxHit(k, sr)
    case Some(b) => b.t > ShadowOffset
    case None => SphereHit(k, sr).Some? && SphereHit(k, sr).value.t > ShadowOffset
  }

  /** The diffuse and specular light that light `i` adds when it is not shadowed. */
  function LightTerm(k: Kernel, h: HitRecord, ray: Ray, i: nat): Vec3
    requires i < 2 && h.material.Some?
  {
    if InShadow(k, h, i) then Zero3
    else
      var m := h.material.value;
      var l := k.normalize(Sub(LightPositions[i], h.point));
      var diff := Max(Dot(k, h.normal, l), 0.0);
      var diffuse := HadamardProduct(k, Scaled(k, diff, m.diffuse), LightIntensity);
      var r := Reflect(k, Neg(l), h.normal);
      var v := k.normalize(Sub(ray.origin, h.point));
      var specAngle := Max(Dot(k, v, r), 0.0);
      var spec := k.pow(specAngle, m.shininess);
      var specular := HadamardProduct(k, Scaled(k, spec, m.specular), LightIntensity);
      Add(diffuse, specular)
  }

  /** The body of the light loop of `shade` for light `i`: a shadow ray towards the light,
      intersected with the unit box and then the unit sphere, and the diffuse and specular
      terms when nothing blocks it. */
  method LightContribution(k: Kernel, hit: HitRecord, ray: Ray, i: nat) returns (term: Vec3)
    requires i < 2 && hit.material.Some?
    ensures term == LightTerm(k, hit, ray, i)
  {
    var m := hit.material.value;
    var l := k.normalize(Sub(LightPositions[i], hit.point));
    var shadowRay := NewRay(k.normalize, Add(hit.point, Scaled(k, ShadowOffset, hit.normal)), l);
    assert shadowRay == ShadowRay(k, hit, i);
    var shadowHit := DefaultHit.(t := FloatMax);
    var boxHit, sphereHit := false, false;
    boxHit, shadowHit := IntersectBox(k, shadowRay, shadowHit);
    if !boxHit {
      sphereHit, shadowHit := IntersectSphere(k, shadowRay, shadowHit);
    }
    var inShadow := (boxHit || sphereHit) && shadowHit.t > ShadowOffset;
    assert inShadow == InShadow(k, hit, i);
    if !inShadow {
      var diff := Max(Dot(k, hit.normal, l), 0.0);
      var diffuse := HadamardProduct(k, Scaled(k, diff, m.diffuse), LightIntensity);
      var r := Reflect(k, Neg(l), hit.normal);
      var v := k.normalize(Sub(ray.origin, hit.point));
      var specAngle := Max(Dot(k, v, r), 0.0);
      var spec := k.pow(specAngle, m.shininess);
      var specular := HadamardProduct(k, Scaled(k, spec, m.specular), LightIntensity);
      term := Add(diffuse, specular);
    } else {
      term := Zero3;
    }
  }

  /** The ambient colour plus the terms of the first `n` lights. */
  function LocalColor(k: Kernel, h: HitRecord, ray: Ray, n: nat): Vec3
    requires n <= 2 && h.material.Some?
  {
    if n == 0 then h.material.value.ambient
    else Add(LocalColor(k, h, ray, n - 1), LightTerm(k, h, ray, n - 1))
  }

  /** A material with no diffuse and no specular colour shows its ambient colour only,
      whatever the lights and shadows. */
  lemma {:induction false} AmbientOnly(k: Kernel, h: HitRecord, ray: Ray, n: nat)
    requires ExactArithmetic(k)
    requires n <= 2 && h.material.Some?
    requires h.material.value.diffuse == Zero3 && h.material.value.specular == Zero3
    ensures LocalColor(k, h, ray, n) == h.material.value.ambient
  {
    if n > 0 {
      AmbientOnly(k, h, ray, n - 1);
      var a := LocalColor(k, h, ray, n - 1);
      assert LightTerm(k, h, ray, n - 1) == Zero3;
      assert Add(a, Zero3) == a;
    }
  }

  /** The reflected ray, started just off the surface. */
  function ReflectionRay(k: Kernel, h: HitRecord, ray: Ray): Ray {
    NewRay(k.normalize, Add(h.point, Scaled(k, ReflectionOffset, h.normal)),
           Reflect(k, ray.direction, h.normal))
  }

  function Budget(bounce: int): nat { if bounce > 0 then bounce else 0 }

  /** `shade` as written: the local colour weighted by the absorption, plus the colour
      `traceRay` returns for the reflected ray weighted by the reflection. `primaryRay` is the
      renderer's `currentRay`, which `traceRay` searches with. */
  function ShadeAsWritten(k: Kernel, root: Tree, primaryRay: Ray, h: HitRecord, ray: Ray,
                          bounce: int): Vec3
    requires h.material.Some?
    decreases Budget(bounce), 0
  {
    var m := h.material.value;
    var reflection :=
      if bounce > 0 && m.reflection > 0.0 then
        TraceAsWritten(k, root, primaryRay, ReflectionRay(k, h, ray), bounce - 1)
      else Zero3;
    Add(Scaled(k, m.absorption, LocalColor(k, h, ray, 2)), Scaled(k, m.reflection, reflection))
  }

  /** `shade` as written, taken apart: the local colour and the colour of the reflected
      ray, each weighted by the material. */
  lemma ShadeUnfolds(k: Kernel, root: Tree, primaryRay: Ray, h: HitRecord, ray: Ray,
                     bounce: int, local: Vec3, reflection: Vec3)
    requires h.material.Some? && local == LocalColor(k, h, ray, 2)
    requires reflection == if bounce > 0 && h.material.value.reflection > 0.0
                           then TraceAsWritten(k, root, primaryRay, ReflectionRay(k, h, ray),
                                               bounce - 1)
                           else Zero3
    ensures ShadeAsWritten(k, root, primaryRay, h, ray, bounce) ==
            Add(Scaled(k, h.material.value.absorption, local),
                Scaled(k, h.material.value.reflection, reflection))
  {
  }

  /** `traceRay(ray, bounce)` as written: the background once the bounces are used up;
      otherwise a fresh search, but with `currentRay` rather than `ray`, whose hit is shaded as
      seen along `ray`. */
  function TraceAsWritten(k: Kernel, root: Tree, primaryRay: Ray, ray: Ray, bounce: int): Vec3
    decreases Budget(bounce), 1
  {
    if bounce <= 0 then Background
    else
      var h := Primary(k, root, primaryRay);
      if Found(h) then ShadeAsWritten(k, root, primaryRay, h, ray, bounce) else Background
  }

  /** `shade` with the reflected ray traced for what it hits. The hit is shade's own copy: the
      reflected search cannot change the material used for the absorption and reflection. */
  function ShadeFixed(k: Kernel, root: Tree, h: HitRecord, ray: Ray, bounce: int): Vec3
    requires h.material.Some?
    decreases Budget(bounce), 0
  {
    var m := h.material.value;
    var reflection :=
      if bounce > 0 && m.reflection > 0.0 then
        TraceFixed(k, root, ReflectionRay(k, h, ray), bounce - 1)
      else Zero3;
    Add(Scaled(k, m.absorption, LocalColor(k, h, ray, 2)), Scaled(k, m.reflection, reflection))
  }

  /** `traceRay(ray, bounce)` searching with its own ray. */
  function TraceFixed(k: Kernel, root: Tree, ray: Ray, bounce: int): Vec3
    decreases Budget(bounce), 1
  {
    if bounce <= 0 then Background
    else
      var h := Primary(k, root, ray);
      if Found(h) then ShadeFixed(k, root, h, ray, bounce) else Background
  }

  /** As written, every reflection finds the primary hit again, whatever direction it was
      reflected in: a reflective surface shows itself instead of what it faces. */
  lemma ReflectionRetracesPrimary(k: Kernel, root: Tree, primaryRay: Ray, h: HitRecord,
                                  ray: Ray, bounce: int)
    requires h.material.Some? && bounce > 1 && h.material.value.reflection > 0.0
    requires Found(Primary(k, root, primaryRay))
    ensures var m := h.material.value;
            ShadeAsWritten(k, root, primaryRay, h, ray, bounce) ==
              Add(Scaled(k, m.absorption, LocalColor(k, h, ray, 2)),
                  Scaled(k, m.reflection,
                        ShadeAsWritten(k, root, primaryRay, Primary(k, root, primaryRay),
                                       ReflectionRay(k, h, ray), bounce - 1)))
  {
  }

  /** Corrected, a reflected ray that hits nothing adds the background and nothing else. */
  lemma ReflectionOfNothing(k: Kernel, root: Tree, h: HitRecord, ray: Ray, bounce: int)
    requires h.material.Some? && !Found(Primary(k, root, ReflectionRay(k, h, ray)))
    ensures var m := h.material.value;
            ShadeFixed(k, root, h, ray, bounce) ==
              Add(Scaled(k, m.absorption, LocalColor(k, h, ray, 2)), Scaled(k, m.reflection, Background))
  {
  }

  /** Corrected, the recursion stops after at most `bounce` reflections: with no bounces left
      a hit shows its local colour alone. */
  lemma NoBounceNoReflection(k: Kernel, root: Tree, h: HitRecord, ray: Ray, bounce: int)
    requires h.material.Some? && bounce <= 1
    ensures var m := h.material.value;
            ShadeFixed(k, root, h, ray, bounce) ==
              Add(Scaled(k, m.absorption, LocalColor(k, h, ray, 2)), Scaled(k, m.reflection, Background))
  {
  }

  /** The colour of pixel (i, j) as the renderer computes it. */
  function PixelAsWritten(k: Kernel, root: Tree, view: Mat, i: int, j: int, w: int, h: int): Vec3 {
    var ray := k.primaryRay(view, -1.0, i, j, w, h);
    var hit := Primary(k, root, ray);
    if Found(hit) then ShadeAsWritten(k, root, ray, hit, ray, MaxBounce) else Background
  }

  /** The colour of pixel (i, j) with reflections traced for what they hit. */
  function PixelFixed(k: Kernel, root: Tree, view: Mat, i: int, j: int, w: int, h: int): Vec3 {
    var ray := k.primaryRay(view, -1.0, i, j, w, h);
    var hit := Primary(k, root, ray);
    if Found(hit) then ShadeFixed(k, root, hit, ray, MaxBounce) else Background
  }

  // ---------------------------------------------------------------------------------------
  // A scene that shows the difference

  /** Exact arithmetic, every eye ray along -z from (0, 0, 5). */
  const Exact: Kernel := Kernel(
    (a, b) => a * b, (a, b) => if b != 0.0 then a / b else 0.0, x => x, (a, b) => 0.0, v => v,
    (m, r) => r, (m, p) => p, (m, n) => n,
    (v, z, i, j, w, h) => Ray(Vec3(0.0, 0.0, 5.0), Vec3(0.0, 0.0, -1.0)))

  lemma ExactIsExact()
    ensures ExactArithmetic(Exact)
  {
  }

  const Mirror: Material :=
    DefaultMaterial.(ambient := Vec3(0.1, 0.1, 0.1), absorption := 1.0, reflection := 1.0)

  /** One reflective unit box facing the eye. */
  const MirrorBox: Tree := Tree(0, Leaf("box", [], "box", Mirror, ""), [])

  /** The eye ray meets the box's front face at (0, 0, 0.5), normal +z. */
  lemma MirrorBoxFront()
    ensures Primary(Exact, MirrorBox, Ray(Vec3(0.0, 0.0, 5.0), Vec3(0.0, 0.0, -1.0))) ==
            Unhit.(point := Vec3(0.0, 0.0, 0.5), normal := Vec3(0.0, 0.0, 1.0), t := 4.5,
                   material := Some(Mirror))
  {
    var r := Ray(Vec3(0.0, 0.0, 5.0), Vec3(0.0, 0.0, -1.0));
    assert Crossing(Exact, -0.5, 5.0, -1.0) == 5.5;
    assert Crossing(Exact, 0.5, 5.0, -1.0) == 4.5;
    assert Entry(Exact, r, 3) == 4.5;
    assert Exit(Exact, r, 3) == 5.5;
    assert BoxHit(Exact, r) == Some(LocalHit(4.5, Vec3(0.0, 0.0, 0.5), Vec3(0.0, 0.0, 1.0)));
    assert OccursAt("box", "box", 0);
    ContainsOccurs("box", "box");
  }

  /** The eye ray reflected at the front face turns back along +z, starting just in front of
      the face. */
  lemma MirrorBoxReflection(h: HitRecord, eye: Ray)
    requires h.point == Vec3(0.0, 0.0, 0.5) && h.normal == Vec3(0.0, 0.0, 1.0)
    requires eye.direction == Vec3(0.0, 0.0, -1.0)
    ensures ReflectionRay(Exact, h, eye) == Ray(Vec3(0.0, 0.0, 0.51), Vec3(0.0, 0.0, 1.0))
  {
    ReflectBack();
    assert Scaled(Exact, ReflectionOffset, h.normal) == Vec3(0.0, 0.0, 0.01);
  }

  /** A ray along -z meeting a face with normal +z is reflected along +z. */
  lemma ReflectBack()
    ensures Reflect(Exact, Vec3(0.0, 0.0, -1.0), Vec3(0.0, 0.0, 1.0)) == Vec3(0.0, 0.0, 1.0)
  {
    var i, n := Vec3(0.0, 0.0, -1.0), Vec3(0.0, 0.0, 1.0);
    assert Dot(Exact, n, i) == -1.0;
    assert Scaled(Exact, Exact.mul(2.0, -1.0), n) == Vec3(0.0, 0.0, -2.0);
  }

  /** The reflection of the eye ray off the box leaves it: it runs along +z from just in
      front of the face and misses. */
  lemma MirrorBoxReflectionMisses()
    ensures !Found(Primary(Exact, MirrorBox, Ray(Vec3(0.0, 0.0, 0.51), Vec3(0.0, 0.0, 1.0))))
  {
    var rr := Ray(Vec3(0.0, 0.0, 0.51), Vec3(0.0, 0.0, 1.0));
    assert Crossing(Exact, 0.5, 0.51, 1.0) == -0.01;
    assert Exit(Exact, rr, 3) == -0.01;
    EntryNonNegative(Exact, rr, 3);
    assert BoxHit(Exact, rr).None?;
  }

  /** `n` copies of `v` added up. */
  function Repeat(n: nat, v: Vec3): Vec3 {
    if n == 0 then Zero3 else Add(v, Repeat(n - 1, v))
  }

  /** As written, a hit whose material has no diffuse or specular colour and reflects and
      absorbs fully shows its ambient colour once for every bounce left, since each bounce
      finds the same hit again. */
  lemma {:induction false} RepeatedAmbient(k: Kernel, root: Tree, primaryRay: Ray, ray: Ray,
                                           bounce: nat)
    requires ExactArithmetic(k)
    requires Found(Primary(k, root, primaryRay)) && bounce >= 1
    requires var m := Primary(k, root, primaryRay).material.value;
             m.diffuse == Zero3 && m.specular == Zero3 && m.absorption == 1.0 && m.reflection == 1.0
    decreases bounce
    ensures var hit := Primary(k, root, primaryRay);
            ShadeAsWritten(k, root, primaryRay, hit, ray, bounce) ==
              Repeat(bounce, hit.material.value.ambient)
  {
    var hit := Primary(k, root, primaryRay);
    var a := hit.material.value.ambient;
    AmbientOnly(k, hit, ray, 2);
    assert Scaled(k, 1.0, a) == a;
    if bounce > 1 {
      var next := ReflectionRay(k, hit, ray);
      ReflectionRetracesPrimary(k, root, primaryRay, hit, ray, bounce);
      RepeatedAmbient(k, root, primaryRay, next, bounce - 1);
      var rest := Repeat(bounce - 1, a);
      assert Scaled(k, 1.0, rest) == rest;
    } else {
      assert Scaled(k, 1.0, Zero3) == Zero3;
      assert Repeat(1, a) == Add(a, Zero3);
    }
  }

  /** As written the reflective box is drawn at five times its ambient colour; corrected, at
      its ambient colour, since its reflection sees only the background. */
  lemma MirrorBoxPixel(view: Mat, i: int, j: int, w: int, h: int)
    ensures PixelAsWritten(Exact, MirrorBox, view, i, j, w, h) == Vec3(0.5, 0.5, 0.5)
    ensures PixelFixed(Exact, MirrorBox, view, i, j, w, h) == Vec3(0.1, 0.1, 0.1)
  {
    assert Exact.primaryRay(view, -1.0, i, j, w, h) == EyeRay;
    MirrorBoxFront();
    MirrorBoxAsWritten();
    MirrorBoxFixed();
  }

  const EyeRay: Ray := Ray(Vec3(0.0, 0.0, 5.0), Vec3(0.0, 0.0, -1.0))

  lemma MirrorBoxAsWritten()
    requires Found(Primary(Exact, MirrorBox, EyeRay))
    requires Primary(Exact, MirrorBox, EyeRay).material == Some(Mirror)
    ensures var hit := Primary(Exact, MirrorBox, EyeRay);
            ShadeAsWritten(Exact, MirrorBox, EyeRay, hit, EyeRay, MaxBounce) == Vec3(0.5, 0.5, 0.5)
  {
    ExactIsExact();
    RepeatedAmbient(Exact, MirrorBox, EyeRay, EyeRay, 5);
    assert Repeat(5, Mirror.ambient) == Vec3(0.5, 0.5, 0.5);
  }

  lemma MirrorBoxFixed()
    requires Primary(Exact, MirrorBox, EyeRay) ==
             Unhit.(point := Vec3(0.0, 0.0, 0.5), normal := Vec3(0.0, 0.0, 1.0), t := 4.5,
                    material := Some(Mirror))
    ensures var hit := Primary(Exact, MirrorBox, EyeRay);
            ShadeFixed(Exact, MirrorBox, hit, EyeRay, MaxBounce) == Vec3(0.1, 0.1, 0.1)
  {
    var hit := Primary(Exact, MirrorBox, EyeRay);
    MirrorBoxReflection(hit, EyeRay);
    MirrorBoxReflectionMisses();
    ExactIsExact();
    AmbientOnly(Exact, hit, EyeRay, 2);
    ReflectionOfNothing(Exact, MirrorBox, hit, EyeRay, MaxBounce);
    assert Scaled(Exact, 1.0, Mirror.ambient) == Mirror.ambient;
    assert Scaled(Exact, 1.0, Background) == Zero3;
  }

  // ---------------------------------------------------------------------------------------
  // The image and its text

  /** A colour channel: clamped to [0, 1], scaled to 255 and truncated. */
  function Channel(c: real): (n: nat)
    ensures n <= 255
    ensures c <= 0.0 ==> n == 0
    ensures c >= 1.0 ==> n == 255
  {
    (255.0 * Min(Max(c, 0.0), 1.0)).Floor
  }

  function PixelText(c: Vec3): string {
    Numeral(Channel(c.x)) + " " + Numeral(Channel(c.y)) + " " + Numeral(Channel(c.z)) + "  "
  }

  /** The pixels of one row, in order. */
  function RowText(ps: seq<Vec3>): string {
    if ps == [] then "" else RowText(ps[..|ps| - 1]) + PixelText(ps[|ps| - 1])
  }

  /** The first `h` rows of a `w`-wide image, each ended by a newline. */
  function Rows(ps: seq<Vec3>, w: nat, h: nat): string
    requires |ps| == h * w
  {
    if h == 0 then ""
    else
      MulStep(h - 1, w);
      Rows(ps[..|ps| - w], w, h - 1) + RowText(ps[|ps| - w..]) + "\n"
  }

  function Header(w: nat, h: nat): string {
    "P3\n" + Numeral(w) + " " + Numeral(h) + "\n255\n"
  }

  /** The plain-text PPM image of `h` rows of `w` pixels. */
  function PPM(w: nat, h: nat, ps: seq<Vec3>): string
    requires |ps| == h * w
  {
    Header(w, h) + Rows(ps, w, h)
  }

  lemma MulStep(a: nat, w: nat)
    ensures (a + 1) * w == a * w + w
  {
  }

  lemma {:induction false} MulBound(a: nat, b: nat, w: nat)
    requires a <= b
    ensures a * w <= b * w
    decreases b - a
  {
    if a < b {
      MulBound(a, b - 1, w);
      MulStep(b - 1, w);
    }
  }

  /** One more row of text is the text of one more row of pixels. */
  lemma RowsStep(ps: seq<Vec3>, w: nat, j: nat)
    requires (j + 1) * w <= |ps|
    ensures j * w + w == (j + 1) * w
    ensures Rows(ps[..(j + 1) * w], w, j + 1) ==
            Rows(ps[..j * w], w, j) + RowText(ps[j * w..j * w + w]) + "\n"
  {
    MulStep(j, w);
    var qs := ps[..(j + 1) * w];
    assert qs[..j * w] == ps[..j * w];
    assert qs[j * w..] == ps[j * w..j * w + w];
  }

  /** One more pixel of a row is one more pixel's text. */
  lemma RowTextStep(ps: seq<Vec3>, start: nat, i: nat)
    requires start + i < |ps|
    ensures RowText(ps[start..start + i + 1]) == RowText(ps[start..start + i]) + PixelText(ps[start + i])
  {
    assert ps[start..start + i + 1][..i] == ps[start..start + i];
  }

  /** The text of the first `j` rows, a row's text and a newline are the text of `j + 1` rows. */
  lemma RowsAppend(ps: seq<Vec3>, w: nat, j: nat, header: string, before: string, row: string)
    requires (j + 1) * w <= |ps|
    requires before == header + Rows(ps[..j * w], w, j)
    requires row == RowText(ps[j * w..j * w + w])
    ensures before + row + "\n" == header + Rows(ps[..(j + 1) * w], w, j + 1)
  {
    RowsStep(ps, w, j);
    assert header + Rows(ps[..j * w], w, j) + row + "\n"
        == header + (Rows(ps[..j * w], w, j) + row + "\n");
  }

  /** Row `j` of a `w`-wide image of `h` rows ends inside the image. */
  lemma RowInside(j: nat, h: nat, w: nat)
    requires j < h
    ensures 0 <= j * w && j * w + w == (j + 1) * w <= h * w
  {
    MulBound(j + 1, h, w);
    MulStep(j, w);
  }

  /** Euclidean division of `q * w + r` by `w` gives back `q` and `r`. */
  lemma DivModUnique(x: int, w: int, q: int, r: int)
    requires w > 0 && 0 <= r < w && x == q * w + r
    ensures x / w == q && x % w == r
  {
    var q', r' := x / w, x % w;
    assert x == q' * w + r';
    if q' > q {
      MulBound(1, q' - q, w);
    } else if q' < q {
      MulBound(1, q - q', w);
    }
  }

  /** Pixel (i, j) sits at `j * w + i`: for i < w and j < h that is inside the image, and the
      place gives back the column and the row. */
  lemma PixelIndex(w: nat, h: nat, i: nat, j: nat)
    requires i < w && j < h
    ensures 0 <= j * w + i < h * w
    ensures (j * w + i) / w == j && (j * w + i) % w == i
  {
    MulBound(j + 1, h, w);
    MulStep(j, w);
    DivModUnique(j * w + i, w, j, i);
  }

  /** The image text starts with the plain-PPM magic word, as the word scanner of the scene
      reader sees it. */
  lemma HeaderReadsBack(w: nat, h: nat, rest: string)
    ensures NextWord(Header(w, h) + rest, Start) == ("P3", Cursor(2, false))
  {
    var text := Header(w, h) + rest;
    assert text[0] == 'P' && text[1] == '3' && text[2] == '\n';
    assert SkipSpace(text, 0) == 0;
    WordEndAt(text, 0, 2);
    assert text[0..2] == "P3";
  }

  // ---------------------------------------------------------------------------------------
  // The renderer

  class RaycastScenegraphRenderer {
    var modelview: seq<Mat>
    const kernel: Kernel
    const imageWidth: int
    const imageHeight: int
    const imageBuffer: array<Vec3>
    const backgroundColor: Vec3 := Zero3
    const viewPlaneZ: real := -1.0
    const maxBounce: int := 5
    var root: Option<Tree>
    var currentRay: Ray
    var currentHit: HitRecord

    /** The buffer has one entry per pixel. */
    predicate Valid() {
      imageWidth >= 0 && imageHeight >= 0 && imageBuffer.Length == imageHeight * imageWidth
    }

    constructor (mv: seq<Mat>, k: Kernel, width: int, height: int)
      requires width >= 0 && height >= 0
      ensures Valid() && fresh(imageBuffer)
      ensures modelview == mv && kernel == k && imageWidth == width && imageHeight == height
      ensures forall n :: 0 <= n < imageBuffer.Length ==> imageBuffer[n] == Zero3
      ensures root.None? && currentHit == DefaultHit
      ensures currentRay == NewRay(k.normalize, Zero3, Vec3(0.0, 0.0, -1.0))
    {
      modelview := mv;
      kernel := k;
      imageWidth := width;
      imageHeight := height;
      imageBuffer := new Vec3[height * width](_ => Zero3);
      root := None;
      currentRay := NewRay(k.normalize, Zero3, Vec3(0.0, 0.0, -1.0));
      currentHit := DefaultHit;
    }

    /** `render(root, file)`: every pixel is cast, searched, shaded and stored at
        `j * width + i`, then the image text is produced. */
    method Render(scene: Tree) returns (ppm: string)
      requires Valid() && |modelview| >= 1 && Untextured(currentHit)
      modifies this, imageBuffer
      ensures modelview == old(modelview) && root == Some(scene) && Untextured(currentHit)
      ensures forall n :: 0 <= n < imageBuffer.Length ==>
                imageBuffer[n] == PixelAsWritten(kernel, scene, modelview[|modelview| - 1],
                                                 n % imageWidth, n / imageWidth,
                                                 imageWidth, imageHeight)
      ensures ppm == PPM(imageWidth, imageHeight, imageBuffer[..])
    {
      root := Some(scene);
      var view := modelview[|modelview| - 1];
      var w, h := imageWidth, imageHeight;
      for j := 0 to h
        invariant modelview == old(modelview) && root == Some(scene) && Untextured(currentHit)
        invariant j * w <= h * w
        invariant forall n :: 0 <= n < j * w ==>
                    imageBuffer[n] == PixelAsWritten(kernel, scene, view, n % w, n / w, w, h)
      {
        MulBound(j + 1, h, w);
        MulStep(j, w);
        for i := 0 to w
          invariant modelview == old(modelview) && root == Some(scene) && Untextured(currentHit)
          invariant forall n :: 0 <= n < j * w + i ==>
                      imageBuffer[n] == PixelAsWritten(kernel, scene, view, n % w, n / w, w, h)
        {
          PixelIndex(w, h, i, j);
          var pixelColor := CastPixel(scene, view, i, j);
          imageBuffer[j * w + i] := pixelColor;
        }
      }
      ppm := WritePPM();
    }

    /** The body of `render`'s pixel loop: the eye ray of pixel (i, j) becomes `currentRay`,
        the hit record is reset, the scene is searched under an identity matrix and the hit,
        if any, is shaded. */
    method CastPixel(scene: Tree, view: Mat, i: int, j: int) returns (pixelColor: Vec3)
      requires |modelview| >= 1 && root == Some(scene) && Untextured(currentHit)
      modifies this
      ensures modelview == old(modelview) && root == old(root) && Untextured(currentHit)
      ensures pixelColor == PixelAsWritten(kernel, scene, view, i, j, imageWidth, imageHeight)
    {
      currentRay := kernel.primaryRay(view, viewPlaneZ, i, j, imageWidth, imageHeight);
      var before := currentHit;
      currentHit := currentHit.(t := FloatMax, material := None);
      modelview := modelview + [Identity];
      Accept(scene);
      modelview := modelview[..|modelview| - 1];
      ResetFindsPrimary(kernel, scene, currentRay, before);
      ClosestKeepsTexture(kernel, scene, Identity, currentRay, Reset(before));
      pixelColor := backgroundColor;
      if currentHit.t < FloatMax && currentHit.material.Some? {
        pixelColor := Shade(currentHit, currentRay, maxBounce);
      }
    }

    /** `accept` on `t`: the visit method of its kind. */
    method Accept(t: Tree)
      requires |modelview| >= 1
      modifies this
      ensures modelview == old(modelview) && currentRay == old(currentRay) && root == old(root)
      ensures currentHit == Closest(kernel, t, modelview[|modelview| - 1], currentRay,
                                    old(currentHit))
      decreases t, 1
    {
      if t.data.Group? {
        VisitGroupNode(t);
      } else if t.data.Leaf? {
        VisitLeafNode(t);
      } else {
        VisitTransformNode(t);
      }
    }

    /** A group visits all of its children under the same matrix. */
    method VisitGroupNode(t: Tree)
      requires t.data.Group? && |modelview| >= 1
      modifies this
      ensures modelview == old(modelview) && currentRay == old(currentRay) && root == old(root)
      ensures currentHit == Closest(kernel, t, modelview[|modelview| - 1], currentRay,
                                    old(currentHit))
      decreases t, 0
    {
      var top := modelview[|modelview| - 1];
      for i := 0 to |t.kids|
        invariant modelview == old(modelview) && currentRay == old(currentRay) && root == old(root)
        invariant currentHit == ClosestForest(kernel, t.kids[..i], top, currentRay, old(currentHit))
      {
        assert t.kids[..i + 1][..i] == t.kids[..i];
        Accept(t.kids[i]);
      }
      assert t.kids[..|t.kids|] == t.kids;
    }

    /** A leaf is intersected in its own coordinates and recorded when it is the nearest positive
        hit so far. */
    method VisitLeafNode(t: Tree)
      requires t.data.Leaf? && |modelview| >= 1
      modifies this
      ensures modelview == old(modelview) && currentRay == old(currentRay) && root == old(root)
      ensures currentHit == Closest(kernel, t, modelview[|modelview| - 1], currentRay,
                                    old(currentHit))
      decreases t, 0
    {
      var instanceName := t.data.instanceOf;
      var material := t.data.material;
      var m := modelview[|modelview| - 1];
      var localRay := kernel.toLocal(m, currentRay);
      var localHit := DefaultHit.(t := FloatMax);
      var hit := false;
      if Contains(instanceName, "box") {
        hit, localHit := IntersectBox(kernel, localRay, localHit);
      } else if Contains(instanceName, "sphere") {
        hit, localHit := IntersectSphere(kernel, localRay, localHit);
      }
      if hit && localHit.t < currentHit.t && localHit.t > 0.0 {
        currentHit := currentHit.(point := kernel.toViewPoint(m, localHit.point));
        currentHit := currentHit.(normal := kernel.toViewNormal(m, localHit.normal));
        currentHit := currentHit.(t := localHit.t);
        currentHit := currentHit.(material := Some(material));
      }
    }

    /** A transform multiplies its matrix onto a pushed copy of the top and visits all of its
        children, then pops. */
    method VisitTransformNode(t: Tree)
      requires t.data.Transform? && |modelview| >= 1
      modifies this
      ensures modelview == old(modelview) && currentRay == old(currentRay) && root == old(root)
      ensures currentHit == Closest(kernel, t, modelview[|modelview| - 1], currentRay,
                                    old(currentHit))
      decreases t, 0
    {
      var top := modelview[|modelview| - 1];
      var m := Mul(top, TransformOf(t.data.op));
      modelview := modelview + [m];
      for i := 0 to |t.kids|
        invariant modelview == old(modelview) + [m]
        invariant currentRay == old(currentRay) && root == old(root)
        invariant currentHit == ClosestForest(kernel, t.kids[..i], m, currentRay, old(currentHit))
      {
        assert t.kids[..i + 1][..i] == t.kids[..i];
        Accept(t.kids[i]);
      }
      assert t.kids[..|t.kids|] == t.kids;
      modelview := modelview[..|modelview| - 1];
    }

    /** `shade(hit, ray, bounce)`. The source passes the renderer's own current hit by
        reference; when that hit is the nearest hit of the current ray, the search inside
        `TraceRay` restores it, so reading it by value gives the same colour. */
    method Shade(hit: HitRecord, ray: Ray, bounce: int) returns (color: Vec3)
      requires root.Some? && hit.material.Some? && Untextured(currentHit)
      modifies this
      ensures modelview == old(modelview) && currentRay == old(currentRay) && root == old(root)
      ensures Untextured(currentHit)
      ensures color == ShadeAsWritten(kernel, root.value, currentRay, hit, ray, bounce)
      ensures (old(currentHit) == Primary(kernel, root.value, currentRay) &&
               Found(old(currentHit))) ==> currentHit == old(currentHit)
      decreases Budget(bounce), 0
    {
      var m := hit.material.value;
      color := m.ambient;
      for i := 0 to 2
        invariant color == LocalColor(kernel, hit, ray, i)
        invariant modelview == old(modelview) && currentRay == old(currentRay)
        invariant root == old(root) && currentHit == old(currentHit)
      {
        var term := LightContribution(kernel, hit, ray, i);
        color := Add(color, term);
      }
      var reflectionColor := Zero3;
      if bounce > 0 && m.reflection > 0.0 {
        var reflectDir := Reflect(kernel, ray.direction, hit.normal);
        var reflectionRay := NewRay(kernel.normalize,
                                    Add(hit.point, Scaled(kernel, ReflectionOffset, hit.normal)),
                                    reflectDir);
        assert reflectionRay == ReflectionRay(kernel, hit, ray);
        reflectionColor := TraceRay(reflectionRay, bounce - 1);
      }
      ShadeUnfolds(kernel, root.value, currentRay, hit, ray, bounce, color, reflectionColor);
      color := Add(Scaled(kernel, m.absorption, color), Scaled(kernel, m.reflection, reflectionColor));
    }

    /** `traceRay(ray, bounce)`: a fresh search of the whole scene, made with `currentRay`. */
    method TraceRay(ray: Ray, bounce: int) returns (color: Vec3)
      requires root.Some? && Untextured(currentHit)
      modifies this
      ensures modelview == old(modelview) && currentRay == old(currentRay) && root == old(root)
      ensures Untextured(currentHit)
      ensures color == TraceAsWritten(kernel, root.value, currentRay, ray, bounce)
      ensures (old(currentHit) == Primary(kernel, root.value, currentRay) &&
               Found(old(currentHit))) ==> currentHit == old(currentHit)
      decreases Budget(bounce), 1
    {
      if bounce <= 0 {
        return backgroundColor;
      }
      var before := currentHit;
      currentHit := currentHit.(t := FloatMax, material := None);
      modelview := modelview + [Identity];
      Accept(root.value);
      modelview := modelview[..|modelview| - 1];
      ResetFindsPrimary(kernel, root.value, currentRay, before);
      ClosestKeepsTexture(kernel, root.value, Identity, currentRay, Reset(before));
      if currentHit.t < FloatMax && currentHit.material.Some? {
        color := Shade(currentHit, ray, bounce);
      } else {
        color := backgroundColor;
      }
    }

    /** `writePPM`: the header, then each row's pixels as three channels and two spaces, each
        row ended by a newline. */
    method WritePPM() returns (text: string)
      requires Valid()
      ensures text == PPM(imageWidth, imageHeight, imageBuffer[..])
    {
      var w, h := imageWidth, imageHeight;
      text := "P3\n" + Numeral(w) + " " + Numeral(h) + "\n255\n";
      for j := 0 to h
        invariant 0 <= j * w <= imageBuffer.Length
        invariant text == Header(w, h) + Rows(imageBuffer[..][..j * w], w, j)
      {
        RowInside(j, h, w);
        var row := WriteRow(j * w);
        RowsAppend(imageBuffer[..], w, j, Header(w, h), text, row);
        text := text + row + "\n";
      }
      assert imageBuffer[..][..h * w] == imageBuffer[..];
    }

    /** The inner loop of `writePPM`: the pixels of the row starting at `start`, in order. */
    method WriteRow(start: nat) returns (row: string)
      requires Valid() && start + imageWidth <= imageBuffer.Length
      ensures row == RowText(imageBuffer[..][start..start + imageWidth])
    {
      ghost var ps := imageBuffer[..];
      row := "";
      for i := 0 to imageWidth
        invariant row == RowText(ps[start..start + i])
      {
        var color := imageBuffer[start + i];
        RowTextStep(ps, start, i);
        row := row + (Numeral(Channel(color.x)) + " " + Numeral(Channel(color.y)) + " " +
                      Numeral(Channel(color.z)) + "  ");
      }
    }
  }
}
