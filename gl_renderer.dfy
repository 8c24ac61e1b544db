/** The rasterising renderer: it walks the graph with the shared modelview stack and issues one
    draw per leaf it reaches. A group multiplies its animation transform onto the top of the
    stack for all of its children; a transform multiplies its own transform for its first child
    only; every push is matched by a pop. The uniforms a leaf sends and the draw it issues are
    recorded as one `Draw` each. */
module GLRenderer {
  import opened Wrappers
  import opened Linear
  import opened Attributes
  import opened Nodes
  import opened Meshes

  /** What one leaf visit sends: the modelview uniform, the material uniforms, the bound
      texture and the object instance drawn. The normal matrix is the inverse transpose of the
      modelview and is not recorded separately; the texture matrix is always the identity. */
  datatype Draw = Draw(
    modelview: Mat,
    ambient: Vec3, diffuse: Vec3, specular: Vec3, shininess: real,
    texture: nat,
    instance: string)

  /** The texture bound for a leaf: the named one when the name is non-empty and known,
      otherwise the default texture. */
  function TextureFor(textures: map<string, nat>, defaultTexture: nat, name: string): nat {
    if name != "" && name in textures then textures[name] else defaultTexture
  }

  /** The draw of leaf `d` under modelview `mv`. */
  function DrawOf(d: NodeData, mv: Mat, textures: map<string, nat>, defaultTexture: nat): Draw
    requires d.Leaf?
  {
    var m := d.material;
    Draw(mv, m.ambient, m.diffuse, m.specular, m.shininess,
         TextureFor(textures, defaultTexture, d.texture), d.instanceOf)
  }

  /** The matrix a parent multiplies onto the top of the stack for its children. */
  function OwnMatrix(d: NodeData): Mat {
    match d
    case Group(_, _, anim, _) => anim
    case Transform(_, _, _, op, _) => TransformOf(op)
    case Leaf(_, _, _, _, _) => Identity
  }

  /** The draws of visiting `t` with `top` on top of the stack. */
  function Draws(t: Tree, top: Mat, textures: map<string, nat>, defaultTexture: nat): seq<Draw>
    decreases t
  {
    if t.data.Leaf? then [DrawOf(t.data, top, textures, defaultTexture)]
    else if t.data.Group? then ForestDraws(t.kids, Mul(top, t.data.anim), textures, defaultTexture)
    else if t.kids == [] then []
    else Draws(t.kids[0], Mul(top, TransformOf(t.data.op)), textures, defaultTexture)
  }

  function ForestDraws(ts: seq<Tree>, top: Mat, textures: map<string, nat>, defaultTexture: nat)
    : seq<Draw>
    decreases ts
  {
    if ts == [] then []
    else ForestDraws(ts[..|ts| - 1], top, textures, defaultTexture) +
         Draws(ts[|ts| - 1], top, textures, defaultTexture)
  }

  /** Every leaf the visit reaches names an instance the renderer knows. */
  predicate Drawable(t: Tree, objects: map<string, MeshData>)
    decreases t
  {
    if t.data.Leaf? then t.data.instanceOf in objects
    else if t.data.Group? then forall k :: 0 <= k < |t.kids| ==> Drawable(t.kids[k], objects)
    else t.kids == [] || Drawable(t.kids[0], objects)
  }

  // ---------------------------------------------------------------------------------------
  // Where the draws come from

  /** The routes to the leaves the visit reaches, in the order it reaches them. */
  function LeafPaths(t: Tree): seq<Path>
    decreases t
  {
    if t.data.Leaf? then [[]]
    else if t.data.Group? then ForestPaths(t.kids, |t.kids|)
    else if t.kids == [] then []
    else Prefixed(0, LeafPaths(t.kids[0]))
  }

  /** The leaf routes of the first `n` children, each behind its child index. */
  function ForestPaths(ts: seq<Tree>, n: nat): seq<Path>
    requires n <= |ts|
    decreases ts, n
  {
    if n == 0 then [] else ForestPaths(ts, n - 1) + Prefixed(n - 1, LeafPaths(ts[n - 1]))
  }

  function Prefixed(i: nat, ps: seq<Path>): (r: seq<Path>)
    ensures |r| == |ps| && forall k :: 0 <= k < |ps| ==> r[k] == [i] + ps[k]
  {
    seq(|ps|, k requires 0 <= k < |ps| => [i] + ps[k])
  }

  /** `p` leads to a leaf the visit reaches: a group passes the visit to every child, a
      transform only to its first. */
  predicate Reached(t: Tree, p: Path)
    decreases |p|
  {
    if p == [] then t.data.Leaf?
    else && !t.data.Leaf? && p[0] < |t.kids| && (t.data.Transform? ==> p[0] == 0)
         && Reached(t.kids[p[0]], p[1..])
  }

  /** Every route in `LeafPaths` is reached by the visit. */
  lemma {:induction false} LeafPathsSound(t: Tree, p: Path)
    requires p in LeafPaths(t)
    ensures Reached(t, p)
    decreases t
  {
    if t.data.Group? {
      var i, q := ForestPathsSplit(t.kids, |t.kids|, p);
      LeafPathsSound(t.kids[i], q);
      assert p[1..] == q;
    } else if t.data.Transform? {
      var ps := LeafPaths(t.kids[0]);
      var k :| 0 <= k < |ps| && p == [0] + ps[k];
      LeafPathsSound(t.kids[0], ps[k]);
      assert p[1..] == ps[k];
    }
  }

  lemma {:induction false} ForestPathsSplit(ts: seq<Tree>, n: nat, p: Path)
    returns (i: nat, q: Path)
    requires n <= |ts| && p in ForestPaths(ts, n)
    ensures i < n && p == [i] + q && q in LeafPaths(ts[i])
    decreases n
  {
    if p in ForestPaths(ts, n - 1) {
      i, q := ForestPathsSplit(ts, n - 1, p);
    } else {
      var ps := LeafPaths(ts[n - 1]);
      var k :| 0 <= k < |ps| && p == [n - 1] + ps[k];
      i, q := n - 1, ps[k];
    }
  }

  /** Every leaf the visit reaches has its route in `LeafPaths`. */
  lemma {:induction false} LeafPathsComplete(t: Tree, p: Path)
    requires Reached(t, p)
    ensures p in LeafPaths(t)
    decreases |p|
  {
    if p != [] {
      var i, q := p[0], p[1..];
      LeafPathsComplete(t.kids[i], q);
      assert p == [i] + q;
      var ps := LeafPaths(t.kids[i]);
      var k :| 0 <= k < |ps| && ps[k] == q;
      assert Prefixed(i, ps)[k] == p;
      if t.data.Group? {
        ForestPathsContain(t.kids, |t.kids|, i, p);
      }
    }
  }

  lemma {:induction false} ForestPathsContain(ts: seq<Tree>, n: nat, i: nat, p: Path)
    requires i < n <= |ts| && p in Prefixed(i, LeafPaths(ts[i]))
    ensures p in ForestPaths(ts, n)
    decreases n
  {
    if i < n - 1 {
      ForestPathsContain(ts, n - 1, i, p);
    }
  }

  /** The product, root first, of the matrices of the nodes strictly above the end of `p`. */
  function Along(t: Tree, p: Path): Mat
    decreases |p|
  {
    if p == [] || p[0] >= |t.kids| then Identity
    else Mul(OwnMatrix(t.data), Along(t.kids[p[0]], p[1..]))
  }

  /** `ds` are the draws of the leaves at `ps` below `t`, one each and in order, each drawn
      with `top` multiplied on the right by the matrices of the leaf's ancestors, root first. */
  ghost predicate DrawnAlong(t: Tree, top: Mat, ds: seq<Draw>, ps: seq<Path>,
                             textures: map<string, nat>, defaultTexture: nat)
  {
    && |ds| == |ps|
    && forall k :: 0 <= k < |ps| ==>
         && At(t, ps[k]).Some? && At(t, ps[k]).value.data.Leaf?
         && ds[k] == DrawOf(At(t, ps[k]).value.data, Mul(top, Along(t, ps[k])),
                            textures, defaultTexture)
  }

  /** The visit issues exactly one draw per reached leaf, in reach order, and the modelview a
      leaf is drawn with is the starting top multiplied on the right by the matrices of its
      ancestors, root first. */
  lemma {:induction false} DrawsFollowPaths(t: Tree, top: Mat, textures: map<string, nat>,
                                            defaultTexture: nat)
    ensures DrawnAlong(t, top, Draws(t, top, textures, defaultTexture), LeafPaths(t),
                       textures, defaultTexture)
    decreases t, 1
  {
    if t.data.Group? {
      ForestFollowPaths(t, |t.kids|, Mul(top, t.data.anim), top, textures, defaultTexture);
      assert t.kids[..|t.kids|] == t.kids;
    } else if t.data.Transform? && t.kids != [] {
      DrawsFollowPaths(t.kids[0], Mul(top, TransformOf(t.data.op)), textures, defaultTexture);
      FirstChildFollowsPaths(t, top, textures, defaultTexture);
    } else if t.data.Leaf? {
      var ps := LeafPaths(t);
      assert At(t, ps[0]) == Some(t);
      assert Mul(top, Along(t, ps[0])) == top;
    }
  }

  /** A transform's draws are its first child's, along the same routes behind index 0. */
  lemma FirstChildFollowsPaths(t: Tree, top: Mat, textures: map<string, nat>, defaultTexture: nat)
    requires t.data.Transform? && t.kids != []
    requires var m := Mul(top, TransformOf(t.data.op));
             DrawnAlong(t.kids[0], m, Draws(t.kids[0], m, textures, defaultTexture),
                        LeafPaths(t.kids[0]), textures, defaultTexture)
    ensures DrawnAlong(t, top, Draws(t, top, textures, defaultTexture), LeafPaths(t),
                       textures, defaultTexture)
  {
    var m := Mul(top, TransformOf(t.data.op));
    var ds := Draws(t.kids[0], m, textures, defaultTexture);
    DrawnAlongAppend(t, top, m, 0, [], [], ds, LeafPaths(t.kids[0]), textures, defaultTexture);
    assert [] + ds == ds;
    assert [] + Prefixed(0, LeafPaths(t.kids[0])) == LeafPaths(t);
  }

  lemma {:induction false} ForestFollowPaths(t: Tree, n: nat, m: Mat, top: Mat,
                                             textures: map<string, nat>, defaultTexture: nat)
    requires t.data.Group? && n <= |t.kids| && m == Mul(top, t.data.anim)
    ensures DrawnAlong(t, top, ForestDraws(t.kids[..n], m, textures, defaultTexture),
                       ForestPaths(t.kids, n), textures, defaultTexture)
    decreases t, 0, n
  {
    if n > 0 {
      ForestFollowPaths(t, n - 1, m, top, textures, defaultTexture);
      var kid := t.kids[n - 1];
      DrawsFollowPaths(kid, m, textures, defaultTexture);
      assert t.kids[..n][..n - 1] == t.kids[..n - 1];
      DrawnAlongAppend(t, top, m, n - 1, ForestDraws(t.kids[..n - 1], m, textures, defaultTexture),
                       ForestPaths(t.kids, n - 1), Draws(kid, m, textures, defaultTexture),
                       LeafPaths(kid), textures, defaultTexture);
    }
  }

  /** Draws below child `i`, under the child's starting top `m`, are draws below `t` along
      the same routes behind `i`; appending them keeps `DrawnAlong`. */
  lemma DrawnAlongAppend(t: Tree, top: Mat, m: Mat, i: nat, a: seq<Draw>, pa: seq<Path>,
                         b: seq<Draw>, qs: seq<Path>, textures: map<string, nat>,
                         defaultTexture: nat)
    requires i < |t.kids| && m == Mul(top, OwnMatrix(t.data))
    requires DrawnAlong(t, top, a, pa, textures, defaultTexture)
    requires DrawnAlong(t.kids[i], m, b, qs, textures, defaultTexture)
    ensures DrawnAlong(t, top, a + b, pa + Prefixed(i, qs), textures, defaultTexture)
  {
    var ps := pa + Prefixed(i, qs);
    forall k | |pa| <= k < |ps|
      ensures At(t, ps[k]) == At(t.kids[i], qs[k - |pa|])
      ensures Mul(top, Along(t, ps[k])) == Mul(m, Along(t.kids[i], qs[k - |pa|]))
      ensures (a + b)[k] == b[k - |pa|]
    {
      var q := qs[k - |pa|];
      assert ps[k] == [i] + q;
      assert ([i] + q)[1..] == q;
      MulAssoc(top, OwnMatrix(t.data), Along(t.kids[i], q));
    }
  }

  /** A leaf's draw binds its own texture when it names one the renderer knows, and the default
      texture otherwise. */
  lemma TextureFallback(textures: map<string, nat>, defaultTexture: nat, name: string)
    ensures name != "" && name in textures ==>
              TextureFor(textures, defaultTexture, name) == textures[name]
    ensures name == "" || name !in textures ==>
              TextureFor(textures, defaultTexture, name) == defaultTexture
  {
  }

  /** The renderer. `modelview` is the shared matrix stack, top last; `draws` records what the
      leaf visits send. The object and texture tables are copies taken at construction, so a
      later change to the caller's tables is not seen. */
  class GLScenegraphRenderer {
    var modelview: seq<Mat>
    var draws: seq<Draw>
    const objects: map<string, MeshData>
    const textures: map<string, nat>
    const defaultTexture: nat

    constructor (mv: seq<Mat>, os: map<string, MeshData>, textureMap: map<string, nat>,
                 defaultTex: nat)
      ensures modelview == mv && draws == []
      ensures objects == os && textures == textureMap && defaultTexture == defaultTex
    {
      modelview := mv;
      draws := [];
      objects := os;
      textures := textureMap;
      defaultTexture := defaultTex;
    }

    /** `accept` on `t`: the visit method of its kind. */
    method Accept(t: Tree)
      requires |modelview| >= 1 && Drawable(t, objects)
      modifies this
      ensures modelview == old(modelview)
      ensures draws == old(draws) + Draws(t, modelview[|modelview| - 1], textures, defaultTexture)
      decreases t, 1
    {
      if t.data.Group? {
        VisitGroupNode(t);
      } else if t.data.Leaf? {
        VisitLeafNode(t);
      } else {
        VisitTransformNode(t);
      }
    }

    method VisitGroupNode(t: Tree)
      requires t.data.Group? && |modelview| >= 1 && Drawable(t, objects)
      modifies this
      ensures modelview == old(modelview)
      ensures draws == old(draws) + Draws(t, modelview[|modelview| - 1], textures, defaultTexture)
      decreases t, 0
    {
      var top := modelview[|modelview| - 1];
      modelview := modelview + [top];
      modelview := modelview[|modelview| - 1 := Mul(top, t.data.anim)];
      var children := t.kids;
      var i := 0;
      while i < |children|
        invariant i <= |children|
        invariant modelview == old(modelview) + [Mul(top, t.data.anim)]
        invariant draws == old(draws) +
                           ForestDraws(children[..i], Mul(top, t.data.anim), textures,
                                       defaultTexture)
      {
        assert children[..i + 1][..i] == children[..i];
        AppendAssoc(old(draws), ForestDraws(children[..i], Mul(top, t.data.anim), textures, defaultTexture),
                    Draws(children[i], Mul(top, t.data.anim), textures, defaultTexture));
        Accept(children[i]);
        i := i + 1;
      }
      assert children[..i] == children;
      modelview := modelview[..|modelview| - 1];
    }

    method VisitLeafNode(t: Tree)
      requires t.data.Leaf? && |modelview| >= 1 && t.data.instanceOf in objects
      modifies this
      ensures modelview == old(modelview)
      ensures draws == old(draws) + Draws(t, modelview[|modelview| - 1], textures, defaultTexture)
      decreases t, 0
    {
      var currentMV := modelview[|modelview| - 1];
      var mat := t.data.material;
      var texName := t.data.texture;
      var texture := defaultTexture;
      if texName != "" && texName in textures {
        texture := textures[texName];
      }
      draws := draws + [Draw(currentMV, mat.ambient, mat.diffuse, mat.specular, mat.shininess,
                             texture, t.data.instanceOf)];
    }

    /** Scale, translate and rotate nodes all come here. */
    method VisitTransformNode(t: Tree)
      requires t.data.Transform? && |modelview| >= 1 && Drawable(t, objects)
      modifies this
      ensures modelview == old(modelview)
      ensures draws == old(draws) + Draws(t, modelview[|modelview| - 1], textures, defaultTexture)
      decreases t, 0
    {
      var top := modelview[|modelview| - 1];
      modelview := modelview + [top];
      modelview := modelview[|modelview| - 1 := Mul(top, TransformOf(t.data.op))];
      if |t.kids| > 0 {
        Accept(t.kids[0]);
      }
      modelview := modelview[..|modelview| - 1];
    }
  }
}
