/** The view's light collection and its camera angles. Before drawing, the view walks the graph
    from the root and gathers every node's lights, moved into view coordinates by the transform
    accumulated on the way down. Only transform nodes extend that transform; a group's
    animation transform is not applied. */
module View {
  import opened Wrappers
  import opened Linear
  import opened Attributes
  import opened Nodes

  /** Light `l` moved by `m`: its position by the whole matrix, its spot direction by the
      upper-left 3x3 block. Colours and the spot angle are kept. */
  function Moved(m: Mat, l: Light): (r: Light)
    ensures r.ambient == l.ambient && r.diffuse == l.diffuse && r.specular == l.specular
    ensures r.spotAngle == l.spotAngle
    ensures r.position.local == l.position.local && r.spotDirection.local == l.spotDirection.local
  {
    l.(position := ApplyToPoint(m, l.position), spotDirection := ApplyLinear(m, l.spotDirection))
  }

  function MovedAll(m: Mat, ls: seq<Light>): (r: seq<Light>)
    ensures |r| == |ls| && forall j :: 0 <= j < |ls| ==> r[j] == Moved(m, ls[j])
  {
    seq(|ls|, j requires 0 <= j < |ls| => Moved(m, ls[j]))
  }

  /** The matrix a child contributes on the way down: its own transform if it is a transform
      node, nothing otherwise. */
  function Own(kid: Tree): Mat {
    if kid.data.Transform? then TransformOf(kid.data.op) else Identity
  }

  /** The lights `collectLights` appends for `t` under `m`, in the order it appends them. */
  function LightsOf(t: Tree, m: Mat): seq<Light>
    decreases t
  {
    MovedAll(m, t.data.lights) + (if IsParent(t.data) then LightsForest(t.kids, m) else [])
  }

  function LightsForest(ts: seq<Tree>, m: Mat): seq<Light>
    decreases ts
  {
    if ts == [] then []
    else LightsForest(ts[..|ts| - 1], m) + LightsOf(ts[|ts| - 1], Mul(m, Own(ts[|ts| - 1])))
  }

  /** `collectLights(node, transform, lights)`: `lights` comes back with the subtree's lights
      appended and its earlier entries untouched. */
  method CollectLights(t: Tree, transform: Mat, lights: seq<Light>) returns (result: seq<Light>)
    ensures result == lights + LightsOf(t, transform)
    decreases t
  {
    result := lights;
    for j := 0 to |t.data.lights|
      invariant result == lights + MovedAll(transform, t.data.lights[..j])
    {
      var tl := t.data.lights[j];
      tl := tl.(position := ApplyToPoint(transform, tl.position));
      tl := tl.(spotDirection := ApplyLinear(transform, tl.spotDirection));
      assert MovedAll(transform, t.data.lights[..j + 1]) ==
             MovedAll(transform, t.data.lights[..j]) + [tl];
      AppendAssoc(lights, MovedAll(transform, t.data.lights[..j]), [tl]);
      result := result + [tl];
    }
    assert t.data.lights[..|t.data.lights|] == t.data.lights;
    if IsParent(t.data) {
      var children := t.kids;
      for i := 0 to |children|
        invariant result == lights + MovedAll(transform, t.data.lights) +
                            LightsForest(children[..i], transform)
      {
        var childTransform := transform;
        if children[i].data.Transform? {
          childTransform := Mul(transform, TransformOf(children[i].data.op));
        }
        assert childTransform == Mul(transform, Own(children[i]));
        LightsForestSnoc(children, i + 1, transform);
        AppendAssoc(lights + MovedAll(transform, t.data.lights),
                    LightsForest(children[..i], transform), LightsOf(children[i], childTransform));
        result := CollectLights(children[i], childTransform, result);
      }
      assert children[..|children|] == children;
      AppendAssoc(lights, MovedAll(transform, t.data.lights), LightsForest(children, transform));
    }
  }

  // ---------------------------------------------------------------------------------------
  // Which lights, in which order, under which matrix

  /** The routes to the nodes `collectLights` reaches, in the order it reaches them: the node,
      then, for a parent, each child's subtree in child order. */
  function Reached(t: Tree): seq<Path>
    decreases t, 1
  {
    [[]] + (if IsParent(t.data) then ReachedForest(t.kids, |t.kids|) else [])
  }

  function ReachedForest(ts: seq<Tree>, n: nat): seq<Path>
    requires n <= |ts|
    decreases ts, 0, n
  {
    if n == 0 then [] else ReachedForest(ts, n - 1) + Under(n - 1, Reached(ts[n - 1]))
  }

  function Under(i: nat, ps: seq<Path>): (r: seq<Path>)
    ensures |r| == |ps| && forall k :: 0 <= k < |ps| ==> r[k] == [i] + ps[k]
  {
    seq(|ps|, k requires 0 <= k < |ps| => [i] + ps[k])
  }

  /** The product, from the top down, of the transforms of the transform nodes on `p` below
      `t`, the end of `p` included. */
  function Chain(t: Tree, p: Path): Mat
    decreases |p|
  {
    if p == [] || p[0] >= |t.kids| then Identity
    else Mul(Own(t.kids[p[0]]), Chain(t.kids[p[0]], p[1..]))
  }

  /** The lights of the nodes at `ps`, each node's lights moved by `m` times its chain. */
  function LightsAlong(t: Tree, m: Mat, ps: seq<Path>): seq<Light>
    decreases |ps|
  {
    if ps == [] then []
    else
      var p := ps[|ps| - 1];
      LightsAlong(t, m, ps[..|ps| - 1]) +
      (if At(t, p).Some? then MovedAll(Mul(m, Chain(t, p)), At(t, p).value.data.lights) else [])
  }

  lemma {:induction false} LightsAlongAppend(t: Tree, m: Mat, a: seq<Path>, b: seq<Path>)
    ensures LightsAlong(t, m, a + b) == LightsAlong(t, m, a) + LightsAlong(t, m, b)
    decreases |b|
  {
    if b == [] {
      assert a + b == a;
    } else {
      var n := |b| - 1;
      LightsAlongAppend(t, m, a, b[..n]);
      assert (a + b)[..|a + b| - 1] == a + b[..n];
      assert (a + b)[|a + b| - 1] == b[n];
      var last := if At(t, b[n]).Some? then MovedAll(Mul(m, Chain(t, b[n])), At(t, b[n]).value.data.lights) else [];
      calc {
        LightsAlong(t, m, a + b);
        LightsAlong(t, m, a + b[..n]) + last;
        (LightsAlong(t, m, a) + LightsAlong(t, m, b[..n])) + last;
        { AppendAssoc(LightsAlong(t, m, a), LightsAlong(t, m, b[..n]), last); }
        LightsAlong(t, m, a) + (LightsAlong(t, m, b[..n]) + last);
        LightsAlong(t, m, a) + LightsAlong(t, m, b);
      }
    }
  }

  /** Looking through child `i` is looking from that child with its own transform applied. */
  lemma {:induction false} LightsAlongUnder(t: Tree, m: Mat, i: nat, ps: seq<Path>)
    requires i < |t.kids|
    ensures LightsAlong(t, m, Under(i, ps)) ==
            LightsAlong(t.kids[i], Mul(m, Own(t.kids[i])), ps)
    decreases |ps|
  {
    if ps != [] {
      var n := |ps| - 1;
      var u, kid := Under(i, ps), t.kids[i];
      var m' := Mul(m, Own(kid));
      LightsAlongUnder(t, m, i, ps[..n]);
      assert u[..n] == Under(i, ps[..n]);
      var p := u[n];
      assert p[0] == i && p[1..] == ps[n];
      assert At(t, p) == At(kid, ps[n]);
      assert Chain(t, p) == Mul(Own(kid), Chain(kid, ps[n]));
      MulAssoc(m, Own(kid), Chain(kid, ps[n]));
      calc {
        LightsAlong(t, m, u);
        LightsAlong(t, m, u[..n]) +
        (if At(t, p).Some? then MovedAll(Mul(m, Chain(t, p)), At(t, p).value.data.lights) else []);
        LightsAlong(kid, m', ps[..n]) +
        (if At(kid, ps[n]).Some?
         then MovedAll(Mul(m', Chain(kid, ps[n])), At(kid, ps[n]).value.data.lights) else []);
        LightsAlong(kid, m', ps);
      }
    }
  }

  lemma UnderReaches(t: Tree, i: nat, a: seq<Path>, ps: seq<Path>)
    requires i < |t.kids|
    requires forall k :: 0 <= k < |a| ==> At(t, a[k]).Some?
    requires forall k :: 0 <= k < |ps| ==> At(t.kids[i], ps[k]).Some?
    ensures forall k :: 0 <= k < |a + Under(i, ps)| ==> At(t, (a + Under(i, ps))[k]).Some?
  {
    var b := Under(i, ps);
    forall k | |a| <= k < |a| + |b|
      ensures At(t, (a + b)[k]).Some?
    {
      assert (a + b)[k] == [i] + ps[k - |a|];
      assert ([i] + ps[k - |a|])[1..] == ps[k - |a|];
    }
  }

  /** Every route `Reached` lists leads to a node. */
  lemma {:induction false} ReachedExist(t: Tree)
    ensures forall k :: 0 <= k < |Reached(t)| ==> At(t, Reached(t)[k]).Some?
    decreases t, 1
  {
    if IsParent(t.data) {
      ReachedForestExist(t, |t.kids|);
    }
  }

  lemma {:induction false} ReachedForestExist(t: Tree, n: nat)
    requires n <= |t.kids|
    ensures forall k :: 0 <= k < |ReachedForest(t.kids, n)| ==>
              At(t, ReachedForest(t.kids, n)[k]).Some?
    decreases t, 0, n
  {
    if n > 0 {
      ReachedForestExist(t, n - 1);
      ReachedExist(t.kids[n - 1]);
      UnderReaches(t, n - 1, ReachedForest(t.kids, n - 1), Reached(t.kids[n - 1]));
    }
  }

  /** `collectLights` appends the lights of every node it reaches, node by node in reach
      order, each node's own lights in their order, and each moved by the starting transform
      times the transforms of the transform nodes on the way down to it. */
  lemma {:induction false} LightsInReachOrder(t: Tree, m: Mat)
    ensures LightsOf(t, m) == LightsAlong(t, m, Reached(t))
    decreases t, 1
  {
    var root: seq<Path> := [[]];
    assert LightsAlong(t, m, root) == MovedAll(m, t.data.lights) by {
      assert root[..0] == [];
      assert Mul(m, Chain(t, [])) == m;
    }
    if IsParent(t.data) {
      ForestInReachOrder(t, m, |t.kids|);
      assert t.kids[..|t.kids|] == t.kids;
      LightsAlongAppend(t, m, root, ReachedForest(t.kids, |t.kids|));
    }
  }

  lemma {:induction false} ForestInReachOrder(t: Tree, m: Mat, n: nat)
    requires n <= |t.kids|
    ensures LightsForest(t.kids[..n], m) == LightsAlong(t, m, ReachedForest(t.kids, n))
    decreases t, 0, n
  {
    if n > 0 {
      ForestInReachOrder(t, m, n - 1);
      LightsInReachOrder(t.kids[n - 1], Mul(m, Own(t.kids[n - 1])));
      ForestReachStep(t, m, n);
    }
  }

  /** One more child: its lights follow those of the children before it. */
  lemma {:induction false} ForestReachStep(t: Tree, m: Mat, n: nat)
    requires 0 < n <= |t.kids|
    requires LightsForest(t.kids[..n - 1], m) == LightsAlong(t, m, ReachedForest(t.kids, n - 1))
    requires LightsOf(t.kids[n - 1], Mul(m, Own(t.kids[n - 1]))) ==
             LightsAlong(t.kids[n - 1], Mul(m, Own(t.kids[n - 1])), Reached(t.kids[n - 1]))
    ensures LightsForest(t.kids[..n], m) == LightsAlong(t, m, ReachedForest(t.kids, n))
  {
    var kid := t.kids[n - 1];
    LightsForestSnoc(t.kids, n, m);
    LightsAlongUnder(t, m, n - 1, Reached(kid));
    LightsAlongAppend(t, m, ReachedForest(t.kids, n - 1), Under(n - 1, Reached(kid)));
  }

  lemma LightsForestSnoc(ts: seq<Tree>, n: nat, m: Mat)
    requires 0 < n <= |ts|
    ensures LightsForest(ts[..n], m) ==
            LightsForest(ts[..n - 1], m) + LightsOf(ts[n - 1], Mul(m, Own(ts[n - 1])))
  {
    assert ts[..n][..n - 1] == ts[..n - 1];
  }

  /** The number of lights on the nodes `collectLights` reaches from `t`. */
  function LightTotal(t: Tree): nat
    decreases t
  {
    |t.data.lights| + (if IsParent(t.data) then LightTotalForest(t.kids) else 0)
  }

  function LightTotalForest(ts: seq<Tree>): nat
    decreases ts
  {
    if ts == [] then 0 else LightTotalForest(ts[..|ts| - 1]) + LightTotal(ts[|ts| - 1])
  }

  /** The list grows by exactly the number of lights in the subtree, whatever the transform. */
  lemma {:induction false} LightsCount(t: Tree, m: Mat)
    ensures |LightsOf(t, m)| == LightTotal(t)
    decreases t, 1
  {
    if IsParent(t.data) {
      ForestLightsCount(t.kids, m);
    }
  }

  lemma {:induction false} ForestLightsCount(ts: seq<Tree>, m: Mat)
    ensures |LightsForest(ts, m)| == LightTotalForest(ts)
    decreases ts, 0
  {
    if ts != [] {
      ForestLightsCount(ts[..|ts| - 1], m);
      LightsCount(ts[|ts| - 1], Mul(m, Own(ts[|ts| - 1])));
    }
  }

  /** On a tree whose leaves have no children, the nodes reached are exactly the nodes of the
      tree in pre-order: a node's lights come before any descendant's, and siblings' in child
      order. */
  lemma {:induction false} ReachedIsPreOrder(t: Tree)
    requires Wellformed(t)
    ensures |Reached(t)| == |PreOrder(t)|
    ensures forall k :: 0 <= k < |Reached(t)| ==> At(t, Reached(t)[k]) == Some(PreOrder(t)[k])
    decreases t, 1
  {
    if IsParent(t.data) {
      ForestIsPreOrder(t, |t.kids|);
      assert t.kids[..|t.kids|] == t.kids;
    } else {
      assert t.kids == [];
      assert ForestPreOrder(t.kids) == [];
    }
  }

  lemma {:induction false} ForestIsPreOrder(t: Tree, n: nat)
    requires Wellformed(t) && n <= |t.kids|
    ensures |ReachedForest(t.kids, n)| == |ForestPreOrder(t.kids[..n])|
    ensures forall k :: 0 <= k < |ReachedForest(t.kids, n)| ==>
              At(t, ReachedForest(t.kids, n)[k]) == Some(ForestPreOrder(t.kids[..n])[k])
    decreases t, 0, n
  {
    if n > 0 {
      var kid := t.kids[n - 1];
      ForestIsPreOrder(t, n - 1);
      ReachedIsPreOrder(kid);
      assert t.kids[..n][..n - 1] == t.kids[..n - 1];
      var a, b := ReachedForest(t.kids, n - 1), Under(n - 1, Reached(kid));
      var pa, pb := ForestPreOrder(t.kids[..n - 1]), PreOrder(kid);
      forall k | |a| <= k < |a| + |b|
        ensures At(t, (a + b)[k]) == Some((pa + pb)[k])
      {
        assert (a + b)[k] == [n - 1] + Reached(kid)[k - |a|];
        assert ([n - 1] + Reached(kid)[k - |a|])[1..] == Reached(kid)[k - |a|];
      }
    }
  }

  // ---------------------------------------------------------------------------------------
  // Camera

  const InitialPitch: real := 20.0
  const InitialYaw: real := -135.0
  const ResetPitch: real := -35.264
  const ResetYaw: real := -135.0

  /** The camera angles in degrees, which the view keeps as file-level variables. */
  class Camera {
    var pitch: real
    var yaw: real

    constructor ()
      ensures pitch == InitialPitch && yaw == InitialYaw
    {
      pitch := 20.0;
      yaw := -135.0;
    }

    /** `rotateCamera(pitch, yaw)`: both angles move by the given amounts. */
    method RotateCamera(dPitch: real, dYaw: real)
      modifies this
      ensures pitch == old(pitch) + dPitch && yaw == old(yaw) + dYaw
    {
      pitch := pitch + dPitch;
      yaw := yaw + dYaw;
    }

    /** `resetCamera()`: back to the isometric pitch, which is not the pitch the view starts
        with. */
    method ResetCamera()
      modifies this
      ensures pitch == ResetPitch && yaw == ResetYaw
      ensures pitch != InitialPitch
    {
      pitch := -35.264;
      yaw := -135.0;
    }
  }
}
