/** An indexed polygon mesh: vertex attribute records, the index list, how to read the indices
    as primitives, and an axis-aligned bounding box over the vertex positions. */
module Meshes {
  import opened Linear

  /** A vertex: each attribute name ("position", "normal", "texcoord", ...) maps to its
      components. An attribute the vertex lacks reads as no components. */
  type Vertex = map<string, seq<real>>

  function GetData(v: Vertex, name: string): seq<real> {
    if name in v then v[name] else []
  }

  /** The position of a vertex as a homogeneous point: the components present overwrite, from
      the first on, the default (0, 0, 0, 1); with none, or more than four, the default stays. */
  function Position(v: Vertex): (p: Vec4)
    ensures var d := GetData(v, "position");
            && (1 <= |d| <= 4 ==> p.x == d[0])
            && (2 <= |d| <= 4 ==> p.y == d[1])
            && (3 <= |d| <= 4 ==> p.z == d[2])
            && (|d| == 4 ==> p.w == d[3])
            && (|d| == 0 || |d| > 4 ==> p == Vec4(0.0, 0.0, 0.0, 1.0))
            && (|d| < 4 ==> p.w == 1.0) && (|d| < 3 ==> p.z == 0.0) && (|d| < 2 ==> p.y == 0.0)
  {
    var d := GetData(v, "position");
    var p := Vec4(0.0, 0.0, 0.0, 1.0);
    // the cases of the switch fall through, from the highest component down
    var p := if |d| == 4 then p.(w := d[3]) else p;
    var p := if 3 <= |d| <= 4 then p.(z := d[2]) else p;
    var p := if 2 <= |d| <= 4 then p.(y := d[1]) else p;
    if 1 <= |d| <= 4 then p.(x := d[0]) else p
  }

  function Positions(vs: seq<Vertex>): (ps: seq<Vec4>)
    ensures |ps| == |vs| && forall i :: 0 <= i < |vs| ==> ps[i] == Position(vs[i])
  {
    seq(|vs|, i requires 0 <= i < |vs| => Position(vs[i]))
  }

  datatype Box = Box(lo: Vec4, hi: Vec4)

  /** One round of the bounds loop: each of x, y and z of each corner moves out to the point
      when the point lies beyond it; w is never touched. */
  function Widen(b: Box, p: Vec4): Box {
    Box(Vec4(if p.x < b.lo.x then p.x else b.lo.x,
             if p.y < b.lo.y then p.y else b.lo.y,
             if p.z < b.lo.z then p.z else b.lo.z, b.lo.w),
        Vec4(if p.x > b.hi.x then p.x else b.hi.x,
             if p.y > b.hi.y then p.y else b.hi.y,
             if p.z > b.hi.z then p.z else b.hi.z, b.hi.w))
  }

  function WidenAll(b: Box, ps: seq<Vec4>): Box
    decreases |ps|
  {
    if ps == [] then b else Widen(WidenAll(b, ps[..|ps| - 1]), ps[|ps| - 1])
  }

  /** The bounds `computeBoundingBox` leaves: unchanged without vertices or when the first
      vertex has no position; otherwise both corners start at the first position and widen
      over every position in order. */
  function BoundingBox(vs: seq<Vertex>, old_: Box): Box {
    if |vs| == 0 || "position" !in vs[0] then old_
    else
      var ps := Positions(vs);
      WidenAll(Box(ps[0], ps[0]), ps)
  }

  predicate Inside(p: Vec4, b: Box) {
    b.lo.x <= p.x <= b.hi.x && b.lo.y <= p.y <= b.hi.y && b.lo.z <= p.z <= b.hi.z
  }

  predicate Ordered(b: Box) {
    b.lo.x <= b.hi.x && b.lo.y <= b.hi.y && b.lo.z <= b.hi.z
  }

  /** Widening only moves the corners outward and leaves the box holding each point passed. */
  lemma {:induction false} WidenAllContains(b: Box, ps: seq<Vec4>)
    ensures var r := WidenAll(b, ps);
            && r.lo.x <= b.lo.x && r.lo.y <= b.lo.y && r.lo.z <= b.lo.z
            && r.hi.x >= b.hi.x && r.hi.y >= b.hi.y && r.hi.z >= b.hi.z
            && r.lo.w == b.lo.w && r.hi.w == b.hi.w
            && (Ordered(b) ==> forall j :: 0 <= j < |ps| ==> Inside(ps[j], r))
    decreases |ps|
  {
    if ps != [] {
      var init := ps[..|ps| - 1];
      WidenAllContains(b, init);
      assert forall j :: 0 <= j < |init| ==> ps[j] == init[j];
    }
  }

  /** Every corner coordinate is the start value or the coordinate of some point passed. */
  lemma {:induction false} WidenAllAttained(b: Box, ps: seq<Vec4>)
    ensures var r := WidenAll(b, ps);
            && (r.lo.x == b.lo.x || exists j :: 0 <= j < |ps| && r.lo.x == ps[j].x)
            && (r.lo.y == b.lo.y || exists j :: 0 <= j < |ps| && r.lo.y == ps[j].y)
            && (r.lo.z == b.lo.z || exists j :: 0 <= j < |ps| && r.lo.z == ps[j].z)
            && (r.hi.x == b.hi.x || exists j :: 0 <= j < |ps| && r.hi.x == ps[j].x)
            && (r.hi.y == b.hi.y || exists j :: 0 <= j < |ps| && r.hi.y == ps[j].y)
            && (r.hi.z == b.hi.z || exists j :: 0 <= j < |ps| && r.hi.z == ps[j].z)
    decreases |ps|
  {
    if ps != [] {
      var init := ps[..|ps| - 1];
      WidenAllAttained(b, init);
      assert forall j :: 0 <= j < |init| ==> ps[j] == init[j];
    }
  }

  /** With position data, every vertex position lies inside the computed box. */
  lemma BoundingBoxContains(vs: seq<Vertex>, old_: Box)
    requires |vs| > 0 && "position" in vs[0]
    ensures forall j :: 0 <= j < |vs| ==> Inside(Position(vs[j]), BoundingBox(vs, old_))
  {
    var ps := Positions(vs);
    WidenAllContains(Box(ps[0], ps[0]), ps);
  }

  /** With position data, each x, y and z bound is the coordinate of some vertex, and both
      corners carry the first vertex's w. */
  lemma BoundingBoxTight(vs: seq<Vertex>, old_: Box)
    requires |vs| > 0 && "position" in vs[0]
    ensures var b := BoundingBox(vs, old_);
            && (exists j :: 0 <= j < |vs| && b.lo.x == Position(vs[j]).x)
            && (exists j :: 0 <= j < |vs| && b.lo.y == Position(vs[j]).y)
            && (exists j :: 0 <= j < |vs| && b.lo.z == Position(vs[j]).z)
            && (exists j :: 0 <= j < |vs| && b.hi.x == Position(vs[j]).x)
            && (exists j :: 0 <= j < |vs| && b.hi.y == Position(vs[j]).y)
            && (exists j :: 0 <= j < |vs| && b.hi.z == Position(vs[j]).z)
            && b.lo.w == Position(vs[0]).w && b.hi.w == Position(vs[0]).w
  {
    var ps := Positions(vs);
    WidenAllAttained(Box(ps[0], ps[0]), ps);
    WidenAllContains(Box(ps[0], ps[0]), ps);
  }

  /** The first loop of `computeBoundingBox`: the position of each vertex, in order. */
  method CollectPositions(vs: seq<Vertex>) returns (positions: seq<Vec4>)
    ensures positions == Positions(vs)
  {
    positions := [];
    var i := 0;
    while i < |vs|
      invariant 0 <= i <= |vs|
      invariant |positions| == i && forall k :: 0 <= k < i ==> positions[k] == Position(vs[k])
    {
      var data := GetData(vs[i], "position");
      var pos := Vec4(0.0, 0.0, 0.0, 1.0);
      if |data| == 4 {
        pos := pos.(w := data[3]);
      }
      if 3 <= |data| <= 4 {
        pos := pos.(z := data[2]);
      }
      if 2 <= |data| <= 4 {
        pos := pos.(y := data[1]);
      }
      if 1 <= |data| <= 4 {
        pos := pos.(x := data[0]);
      }
      positions := positions + [pos];
      i := i + 1;
    }
  }

  lemma WidenAllSnoc(b: Box, ps: seq<Vec4>, j: nat)
    requires j < |ps|
    ensures WidenAll(b, ps[..j + 1]) == Widen(WidenAll(b, ps[..j]), ps[j])
  {
    assert ps[..j + 1][..j] == ps[..j];
  }

  /** A mesh as a value, as the importer stores it in its tables. */
  datatype MeshData = MeshData(
    vertexData: seq<Vertex>, primitives: seq<nat>, primitiveType: int, primitiveSize: int,
    bounds: Box)

  class PolygonMesh {
    var vertexData: seq<Vertex>
    var primitives: seq<nat>
    var primitiveType: int
    var primitiveSize: int
    var minBounds: Vec4
    var maxBounds: Vec4

    function Value(): MeshData
      reads this
    {
      MeshData(vertexData, primitives, primitiveType, primitiveSize, Box(minBounds, maxBounds))
    }

    /** The constructor sets no field: the type, size and bounds start unspecified. */
    constructor ()
      ensures vertexData == [] && primitives == []
    {
      vertexData := [];
      primitives := [];
    }

    method SetPrimitiveType(v: int)
      modifies this
      ensures PrimitiveType() == v && Value() == old(Value()).(primitiveType := v)
    {
      primitiveType := v;
    }

    function PrimitiveType(): (t: int)
      reads this
      ensures t == Value().primitiveType
    {
      primitiveType
    }

    method SetPrimitiveSize(s: int)
      modifies this
      ensures PrimitiveSize() == s && Value() == old(Value()).(primitiveSize := s)
    {
      primitiveSize := s;
    }

    function PrimitiveSize(): (n: int)
      reads this
      ensures n == Value().primitiveSize
    {
      primitiveSize
    }

    /** The number of indices, not the number of primitives they make up. */
    function PrimitiveCount(): (n: nat)
      reads this
      ensures n == |primitives|
    {
      |primitives|
    }

    function VertexCount(): (n: nat)
      reads this
      ensures n == |vertexData|
    {
      |vertexData|
    }

    function MinimumBounds(): (lo: Vec4)
      reads this
      ensures lo == Value().bounds.lo
    {
      minBounds
    }

    function MaximumBounds(): (hi: Vec4)
      reads this
      ensures hi == Value().bounds.hi
    {
      maxBounds
    }

    /** A copy of the vertex records. */
    method GetVertexAttributes() returns (vs: seq<Vertex>)
      ensures vs == vertexData
    {
      vs := vertexData;
    }

    /** A copy of the index list. */
    method GetPrimitives() returns (ps: seq<nat>)
      ensures ps == primitives
    {
      ps := primitives;
    }

    /** Stores the vertex records and recomputes the bounds over them. */
    method SetVertexData(vp: seq<Vertex>)
      modifies this
      ensures vertexData == vp
      ensures Box(minBounds, maxBounds) == BoundingBox(vp, Box(old(minBounds), old(maxBounds)))
      ensures primitives == old(primitives) && primitiveType == old(primitiveType)
      ensures primitiveSize == old(primitiveSize)
    {
      vertexData := vp;
      ComputeBoundingBox();
    }

    /** Stores the index list; the bounds stay as they were. */
    method SetPrimitives(t: seq<nat>)
      modifies this
      ensures Value() == old(Value()).(primitives := t)
    {
      primitives := t;
    }

    method ComputeBoundingBox()
      modifies this
      ensures Box(minBounds, maxBounds) == BoundingBox(vertexData, old(Box(minBounds, maxBounds)))
      ensures vertexData == old(vertexData) && primitives == old(primitives)
      ensures primitiveType == old(primitiveType) && primitiveSize == old(primitiveSize)
    {
      if |vertexData| <= 0 {
        return;
      }
      if "position" !in vertexData[0] {
        return;
      }
      var positions := CollectPositions(vertexData);
      var lo, hi := positions[0], positions[0];
      var j := 0;
      while j < |positions|
        invariant 0 <= j <= |positions|
        invariant Box(lo, hi) == WidenAll(Box(positions[0], positions[0]), positions[..j])
        invariant unchanged(this)
      {
        var p := positions[j];
        if p.x < lo.x {
          lo := lo.(x := p.x);
        }
        if p.x > hi.x {
          hi := hi.(x := p.x);
        }
        if p.y < lo.y {
          lo := lo.(y := p.y);
        }
        if p.y > hi.y {
          hi := hi.(y := p.y);
        }
        if p.z < lo.z {
          lo := lo.(z := p.z);
        }
        if p.z > hi.z {
          hi := hi.(z := p.z);
        }
        WidenAllSnoc(Box(positions[0], positions[0]), positions, j);
        j := j + 1;
      }
      assert positions[..j] == positions;
      minBounds, maxBounds := lo, hi;
    }
  }
}
