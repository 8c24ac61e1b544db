/** The scene node model: the five node variants, the heap of allocated nodes that the importer
    mutates through pointers, and the value tree that a node pointer unfolds to.

    A pointer is an index into the heap. Parent nodes (groups and transforms) hold their
    children as pointers, so a node added to two parents is shared, exactly as in the source;
    `Unfolds(nodes, id, t)` holds when `t` is the tree reached from `id`. A cyclic graph has no
    such tree, and the traversals below are stated only for graphs that unfold. */
module Nodes {
  import opened Wrappers
  import opened Linear
  import opened Attributes

  type NodeId = nat

  /** The matrix-generating parameters of the three transform variants. */
  datatype TransformOp =
    | Scale(sx: real, sy: real, sz: real)
    | Translate(tx: real, ty: real, tz: real)
    | Rotate(radians: real, ax: real, ay: real, az: real)

  /** `getTransform()` of a transform node: the one factor its parameters generate. */
  function TransformOf(op: TransformOp): Mat {
    match op
    case Scale(x, y, z) => [ScaleBy(x, y, z)]
    case Translate(x, y, z) => [TranslateBy(x, y, z)]
    case Rotate(a, x, y, z) => [RotateBy(a, x, y, z)]
  }

  /** One allocated node. Every node carries a name and a list of lights; groups and transforms
      (the parent nodes) carry an animation transform and child pointers; a leaf names a mesh
      instance and carries a material and a texture name. */
  datatype NodeData =
    | Group(name: string, lights: seq<Light>, anim: Mat, children: seq<NodeId>)
    | Transform(name: string, lights: seq<Light>, anim: Mat, op: TransformOp,
                children: seq<NodeId>)
    | Leaf(name: string, lights: seq<Light>, instanceOf: string, material: Material,
           texture: string)

  predicate IsParent(d: NodeData) { d.Group? || d.Transform? }

  function ChildIds(d: NodeData): seq<NodeId> {
    if d.Leaf? then [] else d.children
  }

  function WithChildren(d: NodeData, cs: seq<NodeId>): NodeData {
    match d
    case Group(n, l, a, _) => Group(n, l, a, cs)
    case Transform(n, l, a, op, _) => Transform(n, l, a, op, cs)
    case Leaf(_, _, _, _, _) => d
  }

  function WithLights(d: NodeData, ls: seq<Light>): NodeData {
    match d
    case Group(n, _, a, cs) => Group(n, ls, a, cs)
    case Transform(n, _, a, op, cs) => Transform(n, ls, a, op, cs)
    case Leaf(n, _, i, m, tx) => Leaf(n, ls, i, m, tx)
  }

  /** The node a clone starts from, before its children are re-attached: a leaf keeps its
      instance, material and name but not its texture or lights; a parent keeps its name and
      transform parameters and starts with the identity animation transform. */
  function CopyOf(d: NodeData): NodeData {
    match d
    case Group(n, _, _, _) => Group(n, [], Identity, [])
    case Transform(n, _, _, op, _) => Transform(n, [], Identity, op, [])
    case Leaf(n, _, i, m, _) => Leaf(n, [], i, m, "")
  }

  /** Every child pointer of every node points at an allocated node. */
  predicate Closed(g: seq<NodeData>) {
    forall i, k :: 0 <= i < |g| && 0 <= k < |ChildIds(g[i])| ==> ChildIds(g[i])[k] < |g|
  }

  // ---------------------------------------------------------------------------------------
  // Value trees

  /** A node together with the trees of its children, in child order. */
  datatype Tree = Tree(id: NodeId, data: NodeData, kids: seq<Tree>)

  /** `t` is what pointer `id` leads to in `g`. */
  predicate Unfolds(g: seq<NodeData>, id: NodeId, t: Tree)
    decreases t
  {
    && id < |g|
    && t.id == id
    && t.data == g[id]
    && |t.kids| == |ChildIds(g[id])|
    && forall i :: 0 <= i < |t.kids| ==> Unfolds(g, ChildIds(g[id])[i], t.kids[i])
  }

  /** The pointers of a tree in pre-order: the node, then each child's subtree in order. */
  function Ids(t: Tree): seq<NodeId>
    decreases t
  {
    [t.id] + ForestIds(t.kids)
  }

  function ForestIds(ts: seq<Tree>): seq<NodeId>
    decreases ts
  {
    if ts == [] then [] else ForestIds(ts[..|ts| - 1]) + Ids(ts[|ts| - 1])
  }

  /** The nodes of a tree in pre-order. */
  function PreOrder(t: Tree): seq<Tree>
    decreases t
  {
    [t] + ForestPreOrder(t.kids)
  }

  function ForestPreOrder(ts: seq<Tree>): seq<Tree>
    decreases ts
  {
    if ts == [] then [] else ForestPreOrder(ts[..|ts| - 1]) + PreOrder(ts[|ts| - 1])
  }

  function KidIds(ts: seq<Tree>): seq<NodeId> {
    seq(|ts|, i requires 0 <= i < |ts| => ts[i].id)
  }

  /** The integers `lo`, `lo + 1`, ..., `hi - 1`. */
  function Range(lo: nat, hi: nat): seq<nat>
    decreases hi - lo
  {
    if hi <= lo then [] else [lo] + Range(lo + 1, hi)
  }

  /** A route from a node to one of its descendants, as child indices. */
  type Path = seq<nat>

  function At(t: Tree, p: Path): Option<Tree>
    decreases |p|
  {
    if p == [] then Some(t)
    else if p[0] < |t.kids| then At(t.kids[p[0]], p[1..])
    else None
  }

  // ---------------------------------------------------------------------------------------
  // getNode

  /** The first node of `ts` with the given name, as a pointer, or null. */
  function FirstNamed(ts: seq<Tree>, name: string): (r: Option<NodeId>)
    ensures r.Some? ==> exists k :: 0 <= k < |ts| && ts[k].data.name == name && ts[k].id == r.value
                                    && forall j :: 0 <= j < k ==> ts[j].data.name != name
    ensures r.None? <==> forall k :: 0 <= k < |ts| ==> ts[k].data.name != name
  {
    if ts == [] then None
    else if ts[0].data.name == name then Some(ts[0].id)
    else
      var r := FirstNamed(ts[1..], name);
      assert forall k :: 1 <= k < |ts| ==> ts[k] == ts[1..][k - 1];
      r
  }

  /** What `getNode(name)` returns: the node itself when its own name matches, otherwise, for a
      parent, the first non-null result over its children in index order. */
  function Find(t: Tree, name: string): Option<NodeId>
    decreases t
  {
    if t.data.name == name then Some(t.id)
    else if t.data.Leaf? then None
    else FindIn(t.kids, name)
  }

  function FindIn(ts: seq<Tree>, name: string): Option<NodeId>
    decreases ts
  {
    if ts == [] then None
    else
      var r := FindIn(ts[..|ts| - 1], name);
      if r.Some? then r else Find(ts[|ts| - 1], name)
  }

  lemma {:induction false} FirstNamedAppend(a: seq<Tree>, b: seq<Tree>, name: string)
    ensures FirstNamed(a + b, name) ==
            (if FirstNamed(a, name).Some? then FirstNamed(a, name) else FirstNamed(b, name))
    decreases |a|
  {
    if a != [] {
      assert (a + b)[1..] == a[1..] + b;
      FirstNamedAppend(a[1..], b, name);
    } else {
      assert a + b == b;
    }
  }

  /** getNode is a depth-first search: it returns the first node in pre-order whose name
      matches, or null when no node of the tree has that name. */
  lemma {:induction false} FindIsFirstInPreOrder(t: Tree, name: string)
    requires Wellformed(t)
    ensures Find(t, name) == FirstNamed(PreOrder(t), name)
    decreases t
  {
    if t.data.name != name {
      FirstNamedAppend([t], ForestPreOrder(t.kids), name);
      assert [t][1..] == [];
      ForestFindIsFirst(t.kids, name);
    }
  }

  lemma {:induction false} ForestFindIsFirst(ts: seq<Tree>, name: string)
    requires forall i :: 0 <= i < |ts| ==> Wellformed(ts[i])
    ensures FindIn(ts, name) == FirstNamed(ForestPreOrder(ts), name)
    decreases ts
  {
    if ts != [] {
      var init, last := ts[..|ts| - 1], ts[|ts| - 1];
      ForestFindIsFirst(init, name);
      FindIsFirstInPreOrder(last, name);
      FirstNamedAppend(ForestPreOrder(init), PreOrder(last), name);
    }
  }

  /** A tree whose leaves have no children, as every unfolded tree is. */
  predicate Wellformed(t: Tree)
    decreases t
  {
    (t.data.Leaf? ==> t.kids == []) && forall i :: 0 <= i < |t.kids| ==> Wellformed(t.kids[i])
  }

  lemma {:induction false} UnfoldedIsWellformed(g: seq<NodeData>, id: NodeId, t: Tree)
    requires Unfolds(g, id, t)
    ensures Wellformed(t)
    decreases t
  {
    forall i | 0 <= i < |t.kids| {
      UnfoldedIsWellformed(g, ChildIds(g[id])[i], t.kids[i]);
    }
  }

  // ---------------------------------------------------------------------------------------
  // clone

  /** `c` is a deep clone of `t`: every node is the copy of the corresponding original node
      with the clone's own children attached, and the shape is the same. */
  predicate IsCloneOf(c: Tree, t: Tree)
    decreases t
  {
    && c.data == WithChildren(CopyOf(t.data), KidIds(c.kids))
    && |c.kids| == |t.kids|
    && forall i :: 0 <= i < |t.kids| ==> IsCloneOf(c.kids[i], t.kids[i])
  }

  /** A node's pointers all lie in the heap it unfolds in. */
  lemma {:induction false} UnfoldsBelow(g: seq<NodeData>, id: NodeId, t: Tree)
    requires Unfolds(g, id, t)
    ensures forall x :: x in Ids(t) ==> x < |g|
    decreases t
  {
    forall i | 0 <= i < |t.kids| {
      UnfoldsBelow(g, ChildIds(g[id])[i], t.kids[i]);
    }
    ForestIdsBelow(g, t.kids, |g|);
  }

  lemma {:induction false} ForestIdsBelow(g: seq<NodeData>, ts: seq<Tree>, n: nat)
    requires forall i :: 0 <= i < |ts| ==> forall x :: x in Ids(ts[i]) ==> x < n
    ensures forall x :: x in ForestIds(ts) ==> x < n
    decreases ts
  {
    if ts != [] {
      ForestIdsBelow(g, ts[..|ts| - 1], n);
    }
  }

  lemma {:induction false} ForestIdsMember(ts: seq<Tree>, i: nat, x: NodeId)
    requires i < |ts| && x in Ids(ts[i])
    ensures x in ForestIds(ts)
    decreases ts
  {
    if i < |ts| - 1 {
      ForestIdsMember(ts[..|ts| - 1], i, x);
    }
  }

  /** Unfolding only reads the nodes of the tree: a heap that keeps them keeps the tree. */
  lemma {:induction false} UnfoldsFrame(g: seq<NodeData>, g': seq<NodeData>, id: NodeId, t: Tree)
    requires Unfolds(g, id, t)
    requires |g| <= |g'|
    requires forall x :: x in Ids(t) ==> x < |g| && g'[x] == g[x]
    ensures Unfolds(g', id, t)
    decreases t
  {
    forall i | 0 <= i < |t.kids|
      ensures Unfolds(g', ChildIds(g[id])[i], t.kids[i])
    {
      forall x | x in Ids(t.kids[i]) ensures x < |g| && g'[x] == g[x] {
        ForestIdsMember(t.kids, i, x);
        assert x in Ids(t);
      }
      UnfoldsFrame(g, g', ChildIds(g[id])[i], t.kids[i]);
    }
  }

  lemma {:induction false} RangeSplit(lo: nat, mid: nat, hi: nat)
    requires lo <= mid <= hi
    ensures Range(lo, mid) + Range(mid, hi) == Range(lo, hi)
    decreases mid - lo
  {
    if lo < mid {
      RangeSplit(lo + 1, mid, hi);
    }
  }

  lemma {:induction false} RangeMembers(lo: nat, hi: nat)
    ensures forall x :: x in Range(lo, hi) <==> lo <= x < hi
    decreases hi - lo
  {
    if lo < hi {
      RangeMembers(lo + 1, hi);
    }
  }

  // ---------------------------------------------------------------------------------------
  // destruction

  /** The pointers `delete` frees when it destroys the node `t`: each child in index order,
      each of them destroying its own children first, then the node itself. */
  function DeletionOrder(t: Tree): seq<NodeId>
    decreases t
  {
    ForestDeletionOrder(t.kids) + [t.id]
  }

  function ForestDeletionOrder(ts: seq<Tree>): seq<NodeId>
    decreases ts
  {
    if ts == [] then [] else ForestDeletionOrder(ts[..|ts| - 1]) + DeletionOrder(ts[|ts| - 1])
  }

  /** Destroying a node frees every node it owns, each as often as it occurs in the unfolded
      tree: a subtree shared by two parents is freed twice. */
  lemma {:induction false} DeletionFreesOwned(t: Tree)
    ensures multiset(DeletionOrder(t)) == multiset(Ids(t))
    decreases t
  {
    ForestDeletionFreesOwned(t.kids);
  }

  lemma {:induction false} ForestDeletionFreesOwned(ts: seq<Tree>)
    ensures multiset(ForestDeletionOrder(ts)) == multiset(ForestIds(ts))
    decreases ts
  {
    if ts != [] {
      ForestDeletionFreesOwned(ts[..|ts| - 1]);
      DeletionFreesOwned(ts[|ts| - 1]);
    }
  }

  // ---------------------------------------------------------------------------------------
  // The heap of allocated nodes

  class NodeHeap {
    var nodes: seq<NodeData>

    ghost predicate Valid()
      reads this
    {
      Closed(nodes)
    }

    constructor ()
      ensures Valid() && nodes == []
    {
      nodes := [];
    }

    /** `new GroupNode(name)`: a parent with no children, no lights and the identity as its
        animation transform. */
    method NewGroup(name: string) returns (id: NodeId)
      requires Valid()
      modifies this
      ensures Valid()
      ensures id == |old(nodes)| && nodes == old(nodes) + [Group(name, [], Identity, [])]
    {
      id := |nodes|;
      nodes := nodes + [Group(name, [], Identity, [])];
    }

    /** `new ScaleTransform(...)`, `new TranslateTransform(...)`, `new RotateTransform(...)`. */
    method NewTransform(op: TransformOp, name: string) returns (id: NodeId)
      requires Valid()
      modifies this
      ensures Valid()
      ensures id == |old(nodes)| && nodes == old(nodes) + [Transform(name, [], Identity, op, [])]
    {
      id := |nodes|;
      nodes := nodes + [Transform(name, [], Identity, op, [])];
    }

    /** `LeafNode(instanceOf, name, graph)`: default material, empty texture name. */
    method NewLeaf(instanceOf: string, name: string) returns (id: NodeId)
      requires Valid()
      modifies this
      ensures Valid()
      ensures id == |old(nodes)|
      ensures nodes == old(nodes) + [Leaf(name, [], instanceOf, DefaultMaterial, "")]
    {
      id := |nodes|;
      nodes := nodes + [Leaf(name, [], instanceOf, DefaultMaterial, "")];
    }

    /** `LeafNode(instanceOf, material, name, graph)`: empty texture name. */
    method NewLeafWithMaterial(instanceOf: string, material: Material, name: string)
      returns (id: NodeId)
      requires Valid()
      modifies this
      ensures Valid()
      ensures id == |old(nodes)|
      ensures nodes == old(nodes) + [Leaf(name, [], instanceOf, material, "")]
    {
      id := |nodes|;
      nodes := nodes + [Leaf(name, [], instanceOf, material, "")];
    }

    /** `addChild`: appends the child pointer to the parent's children. */
    method AddChild(parent: NodeId, child: NodeId)
      requires Valid() && parent < |nodes| && child < |nodes| && IsParent(nodes[parent])
      modifies this
      ensures Valid()
      ensures nodes == old(nodes)[parent := WithChildren(old(nodes)[parent],
                                                         old(nodes)[parent].children + [child])]
    {
      nodes := nodes[parent := WithChildren(nodes[parent], nodes[parent].children + [child])];
    }

    /** `addLight`: appends a light to any node. */
    method AddLight(id: NodeId, l: Light)
      requires Valid() && id < |nodes|
      modifies this
      ensures Valid()
      ensures nodes == old(nodes)[id := WithLights(old(nodes)[id], old(nodes)[id].lights + [l])]
    {
      nodes := nodes[id := WithLights(nodes[id], nodes[id].lights + [l])];
    }

    /** `getChildren()`: the child pointers, as a value that later changes to the node do not
        reach. */
    method GetChildren(id: NodeId) returns (cs: seq<NodeId>)
      requires Valid() && id < |nodes| && IsParent(nodes[id])
      ensures cs == nodes[id].children
      ensures forall k :: 0 <= k < |cs| ==> cs[k] < |nodes|
    {
      cs := nodes[id].children;
      assert cs == ChildIds(nodes[id]);
    }

    /** `setAnimTransform(m)`: only that node's animation transform changes. */
    method SetAnimTransform(id: NodeId, m: Mat)
      requires Valid() && id < |nodes| && IsParent(nodes[id])
      modifies this
      ensures Valid() && |nodes| == |old(nodes)|
      ensures IsParent(nodes[id]) && nodes[id] == old(nodes)[id].(anim := m)
      ensures AnimTransform(id) == m
      ensures forall x :: 0 <= x < |nodes| && x != id ==> nodes[x] == old(nodes)[x]
    {
      nodes := nodes[id := nodes[id].(anim := m)];
    }

    /** `getAnimTransform()`. */
    function AnimTransform(id: NodeId): (m: Mat)
      reads this
      requires id < |nodes| && IsParent(nodes[id])
      ensures m == nodes[id].anim
    {
      nodes[id].anim
    }

    /** `setMaterial(m)` on a leaf. */
    method SetMaterial(id: NodeId, m: Material)
      requires Valid() && id < |nodes| && nodes[id].Leaf?
      modifies this
      ensures Valid() && |nodes| == |old(nodes)|
      ensures nodes[id] == old(nodes)[id].(material := m) && MaterialOf(id) == m
      ensures forall x :: 0 <= x < |nodes| && x != id ==> nodes[x] == old(nodes)[x]
    {
      nodes := nodes[id := nodes[id].(material := m)];
    }

    function MaterialOf(id: NodeId): (m: Material)
      reads this
      requires id < |nodes| && nodes[id].Leaf?
      ensures m == nodes[id].material
    {
      nodes[id].material
    }

    /** `setTexture(name)` on a leaf. */
    method SetTexture(id: NodeId, tex: string)
      requires Valid() && id < |nodes| && nodes[id].Leaf?
      modifies this
      ensures Valid() && |nodes| == |old(nodes)|
      ensures nodes[id] == old(nodes)[id].(texture := tex) && TextureOf(id) == tex
      ensures forall x :: 0 <= x < |nodes| && x != id ==> nodes[x] == old(nodes)[x]
    {
      nodes := nodes[id := nodes[id].(texture := tex)];
    }

    function TextureOf(id: NodeId): (tex: string)
      reads this
      requires id < |nodes| && nodes[id].Leaf?
      ensures tex == nodes[id].texture
    {
      nodes[id].texture
    }

    function InstanceOf(id: NodeId): (mesh: string)
      reads this
      requires id < |nodes| && nodes[id].Leaf?
      ensures mesh == nodes[id].instanceOf
    {
      nodes[id].instanceOf
    }

    /** `getNode(name)`: the node itself when its name matches, otherwise the first non-null
        result over the children in index order, otherwise null. */
    method GetNode(id: NodeId, name: string, ghost t: Tree) returns (r: Option<NodeId>)
      requires Unfolds(nodes, id, t)
      ensures r == Find(t, name)
      ensures r.Some? ==> r.value in Ids(t)
      decreases t
    {
      if nodes[id].name == name {
        return Some(id);
      }
      if nodes[id].Leaf? {
        return None;
      }
      var children := nodes[id].children;
      var i := 0;
      r := None;
      while i < |children| && r == None
        invariant 0 <= i <= |children|
        invariant r == FindIn(t.kids[..i], name)
        invariant r.Some? ==> r.value in ForestIds(t.kids[..i])
        invariant r.Some? ==> i > 0
      {
        FindInSnoc(t.kids, i, name);
        r := GetNode(children[i], name, t.kids[i]);
        i := i + 1;
      }
      if r.Some? {
        ForestIdsPrefix(t.kids, i, r.value);
      }
      FindInPrefixStops(t.kids, i, name);
      assert t.kids[..|t.kids|] == t.kids;
    }

    /** `clone()`: a deep copy of the subtree appended to the heap; see `CloneF`. */
    method Clone(id: NodeId, ghost t: Tree) returns (c: NodeId)
      requires Valid() && Unfolds(nodes, id, t)
      modifies this
      ensures Valid()
      ensures c == |old(nodes)| && nodes == CloneF(old(nodes), t)
      decreases t, 1
    {
      ghost var g0 := nodes;
      CloneKeepsClosed(g0, id, t);
      UnfoldedIsWellformed(g0, id, t);
      var d := nodes[id];
      if d.Leaf? {
        c := NewLeafWithMaterial(d.instanceOf, d.material, d.name);
        return;
      }
      if d.Group? {
        c := NewGroup(d.name);
      } else {
        c := NewTransform(d.op, d.name);
      }
      CloneChildren(c, d.children, t, g0);
    }

    /** The loop of `clone` over the children of the original, attaching a clone of each to
        the new parent `c` in child order. */
    method CloneChildren(c: NodeId, children: seq<NodeId>, ghost t: Tree, ghost g0: seq<NodeData>)
      requires Closed(g0) && Unfolds(g0, t.id, t) && Wellformed(t) && IsParent(t.data)
      requires children == ChildIds(t.data) && c == |g0|
      requires Valid() && nodes == g0 + [CopyOf(t.data)]
      modifies this
      ensures Valid() && nodes == CloneKidsF(old(nodes), c, t.kids)
      decreases t, 0
    {
      ghost var base := nodes;
      var i := 0;
      ghost var done: seq<Tree> := [];
      while i < |children|
        invariant 0 <= i <= |children| == |t.kids| && done == t.kids[..i]
        invariant Valid() && nodes == CloneKidsF(base, c, done)
      {
        CloneChild(c, children[i], t.kids[i], g0, base, done);
        TakeSnoc(t.kids, i);
        done := done + [t.kids[i]];
        i := i + 1;
      }
      assert done == t.kids;
    }

    /** One round of the loop in `clone()`: clones the child `child` (the tree `tk`) and adds
        the clone to the copy `c`, whose earlier children are the clones of `done`. */
    method CloneChild(c: NodeId, child: NodeId, ghost tk: Tree, ghost g0: seq<NodeData>,
                      ghost base: seq<NodeData>, ghost done: seq<Tree>)
      requires Closed(g0) && Unfolds(g0, child, tk) && Wellformed(tk)
      requires c == |g0| && |base| == c + 1 && base[..c] == g0
      requires IsParent(base[c]) && ChildIds(base[c]) == []
      requires forall j :: 0 <= j < |done| ==> Wellformed(done[j])
      requires Valid() && nodes == CloneKidsF(base, c, done)
      modifies this
      ensures Valid() && nodes == CloneKidsF(base, c, done + [tk])
      decreases tk, 2
    {
      CloneKidsKeepParent(base, c, done);
      assert base[..c] == g0;
      PrefixKeepsUnfolds(g0, nodes, child, tk);
      var k := Clone(child, tk);
      AddChild(c, k);
      CloneKidsFSnoc(base, c, done, tk);
    }

    /** The destructor: deletes each child in index order, each child destroying its own
        children first; the result lists the nodes freed, in order. */
    method Destroy(id: NodeId, ghost t: Tree) returns (freed: seq<NodeId>)
      requires Unfolds(nodes, id, t)
      ensures freed == DeletionOrder(t)
      decreases t
    {
      freed := [];
      if IsParent(nodes[id]) {
        var children := nodes[id].children;
        var i := 0;
        while i < |children|
          invariant 0 <= i <= |children|
          invariant freed == ForestDeletionOrder(t.kids[..i])
        {
          var sub := Destroy(children[i], t.kids[i]);
          assert t.kids[..i + 1][..i] == t.kids[..i];
          freed := freed + sub;
          i := i + 1;
        }
        assert t.kids[..|t.kids|] == t.kids;
      }
      freed := freed + [id];
    }
  }

  /** The heap after `clone()` of the tree `t`: the copy of its root is allocated first, at
      index `|g|`, then each child's clone in index order, each added to the copy as soon as it
      is complete. */
  function CloneF(g: seq<NodeData>, t: Tree): (r: seq<NodeData>)
    ensures |g| < |r| && r[..|g|] == g
    decreases t, 1
  {
    var r := CloneKidsF(g + [CopyOf(t.data)], |g|, t.kids);
    assert r[..|g|] == (g + [CopyOf(t.data)])[..|g|];
    r
  }

  function CloneKidsF(g: seq<NodeData>, c: nat, ts: seq<Tree>): (r: seq<NodeData>)
    requires c < |g|
    ensures |g| <= |r| && r[..c] == g[..c]
    decreases ts, 0
  {
    if ts == [] then g
    else
      var g1 := CloneKidsF(g, c, ts[..|ts| - 1]);
      var g2 := CloneF(g1, ts[|ts| - 1]);
      assert g2[..c] == g2[..|g1|][..c];
      g2[c := WithChildren(g2[c], ChildIds(g2[c]) + [|g1|])]
  }

  /** The tree that `CloneF(g, t)` builds, numbered from `n == |g|` in pre-order. */
  function CloneTree(n: nat, t: Tree): Tree
    decreases t, 1
  {
    var kids := CloneForest(n + 1, t.kids);
    Tree(n, WithChildren(CopyOf(t.data), KidIds(kids)), kids)
  }

  function CloneForest(n: nat, ts: seq<Tree>): seq<Tree>
    decreases ts, 0
  {
    if ts == [] then []
    else
      var init := CloneForest(n, ts[..|ts| - 1]);
      init + [CloneTree(n + |ForestIds(init)|, ts[|ts| - 1])]
  }

  lemma {:induction false} CloneKeepsClosed(g: seq<NodeData>, id: NodeId, t: Tree)
    requires Closed(g) && Unfolds(g, id, t)
    ensures Closed(CloneF(g, t))
  {
    CloneClosed(g, t);
  }

  lemma {:induction false} CloneKidsKeepParent(g: seq<NodeData>, c: nat, ts: seq<Tree>)
    requires c + 1 == |g| && Closed(g) && ChildIds(g[c]) == [] && IsParent(g[c])
    requires forall i :: 0 <= i < |ts| ==> Wellformed(ts[i])
    ensures Closed(CloneKidsF(g, c, ts)) && IsParent(CloneKidsF(g, c, ts)[c])
  {
    CloneKidsClosed(g, c, ts);
    CloneKidsFacts(g, c, ts);
  }

  lemma {:induction false} CloneKidsFSnoc(g: seq<NodeData>, c: nat, ts: seq<Tree>, t: Tree)
    requires c < |g|
    ensures CloneKidsF(g, c, ts + [t]) ==
            var g2 := CloneF(CloneKidsF(g, c, ts), t);
            g2[c := WithChildren(g2[c], ChildIds(g2[c]) + [|CloneKidsF(g, c, ts)|])]
  {
    assert (ts + [t])[..|ts|] == ts;
  }

  lemma SplitLast<T>(s: seq<T>)
    requires s != []
    ensures s == s[..|s| - 1] + [s[|s| - 1]]
  {
  }

  lemma AppendAssoc<T>(a: seq<T>, b: seq<T>, c: seq<T>)
    ensures (a + b) + c == a + (b + c)
  {
  }

  lemma TakeSnoc<T>(s: seq<T>, i: nat)
    requires i < |s|
    ensures s[..i + 1] == s[..i] + [s[i]]
  {
  }

  /** A tree keeps unfolding when nodes are appended to the heap. */
  lemma {:induction false} PrefixKeepsUnfolds(g: seq<NodeData>, g': seq<NodeData>, id: NodeId, t: Tree)
    requires Unfolds(g, id, t) && |g| <= |g'| && g'[..|g|] == g
    ensures Unfolds(g', id, t)
  {
    UnfoldsBelow(g, id, t);
    forall x | x in Ids(t) ensures x < |g| && g'[x] == g[x] {
      assert g'[x] == g'[..|g|][x];
    }
    UnfoldsFrame(g, g', id, t);
  }

  lemma {:induction false} RangeLength(lo: nat, hi: nat)
    requires lo <= hi
    ensures |Range(lo, hi)| == hi - lo
    decreases hi - lo
  {
    if lo < hi {
      RangeLength(lo + 1, hi);
    }
  }

  /** `clone()` leaves the original nodes as they were and yields a tree of the same shape made
      only of nodes allocated by this clone, so the clone shares no node with the original. */
  lemma {:induction false} CloneIsFresh(g: seq<NodeData>, id: NodeId, t: Tree)
    requires Closed(g) && Unfolds(g, id, t)
    ensures CloneF(g, t)[..|g|] == g && Closed(CloneF(g, t))
    ensures Unfolds(CloneF(g, t), |g|, CloneTree(|g|, t)) && IsCloneOf(CloneTree(|g|, t), t)
    ensures forall x :: x in Ids(CloneTree(|g|, t)) ==> |g| <= x && x !in Ids(t)
  {
    UnfoldedIsWellformed(g, id, t);
    UnfoldsBelow(g, id, t);
    CloneFacts(g, t);
    CloneClosed(g, t);
    RangeMembers(|g|, |CloneF(g, t)|);
  }

  lemma {:induction false} CloneFacts(g: seq<NodeData>, t: Tree)
    requires Wellformed(t)
    ensures Unfolds(CloneF(g, t), |g|, CloneTree(|g|, t))
    ensures IsCloneOf(CloneTree(|g|, t), t)
    ensures Ids(CloneTree(|g|, t)) == Range(|g|, |CloneF(g, t)|)
    decreases t, 1
  {
    var g' := g + [CopyOf(t.data)];
    CloneKidsFacts(g', |g|, t.kids);
    var r := CloneF(g, t);
    var kids := CloneForest(|g| + 1, t.kids);
    var ct := CloneTree(|g|, t);
    assert ct.data == r[|g|] == WithChildren(CopyOf(t.data), KidIds(kids));
    if t.data.Leaf? {
      assert kids == [];
      assert KidIds(kids) == [];
    }
    UnfoldsFromParts(r, ct);
    assert Ids(ct) == [|g|] + Range(|g| + 1, |r|);
  }

  /** Cloning keeps every pointer of the heap allocated. */
  lemma {:induction false} CloneClosed(g: seq<NodeData>, t: Tree)
    requires Closed(g)
    ensures Closed(CloneF(g, t))
    decreases t, 1
  {
    ClosedSnoc(g, CopyOf(t.data));
    CloneKidsClosed(g + [CopyOf(t.data)], |g|, t.kids);
  }

  lemma {:induction false} CloneKidsClosed(g: seq<NodeData>, c: nat, ts: seq<Tree>)
    requires Closed(g) && c < |g|
    ensures Closed(CloneKidsF(g, c, ts))
    decreases ts, 0
  {
    if ts != [] {
      var g1 := CloneKidsF(g, c, ts[..|ts| - 1]);
      CloneKidsClosed(g, c, ts[..|ts| - 1]);
      CloneClosed(g1, ts[|ts| - 1]);
      ClosedAttach(CloneF(g1, ts[|ts| - 1]), c, |g1|);
    }
  }

  lemma {:induction false} ClosedSnoc(g: seq<NodeData>, d: NodeData)
    requires Closed(g) && ChildIds(d) == []
    ensures Closed(g + [d])
  {
    forall i, k | 0 <= i < |g| + 1 && 0 <= k < |ChildIds((g + [d])[i])|
      ensures ChildIds((g + [d])[i])[k] < |g| + 1
    {
      if i < |g| {
        assert (g + [d])[i] == g[i];
      }
    }
  }

  /** Appending an allocated child to node `c` keeps every pointer allocated. */
  lemma {:induction false} ClosedAttach(g: seq<NodeData>, c: nat, k: NodeId)
    requires Closed(g) && c < |g| && k < |g|
    ensures Closed(g[c := WithChildren(g[c], ChildIds(g[c]) + [k])])
  {
    var r := g[c := WithChildren(g[c], ChildIds(g[c]) + [k])];
    forall i, j | 0 <= i < |r| && 0 <= j < |ChildIds(r[i])| ensures ChildIds(r[i])[j] < |r| {
      if i != c {
        assert r[i] == g[i];
      }
    }
  }

  lemma {:induction false} UnfoldsFromParts(g: seq<NodeData>, t: Tree)
    requires t.id < |g| && g[t.id] == t.data && ChildIds(t.data) == KidIds(t.kids)
    requires AllUnfold(g, t.kids)
    ensures Unfolds(g, t.id, t)
  {
  }

  lemma {:induction false} CloneKidsFacts(g: seq<NodeData>, c: nat, ts: seq<Tree>)
    requires c + 1 == |g| && ChildIds(g[c]) == []
    requires forall i :: 0 <= i < |ts| ==> Wellformed(ts[i])
    ensures CloneKidsF(g, c, ts)[c] == WithChildren(g[c], KidIds(CloneForest(|g|, ts)))
    ensures |CloneForest(|g|, ts)| == |ts|
    ensures AllUnfold(CloneKidsF(g, c, ts), CloneForest(|g|, ts))
    ensures AllClones(CloneForest(|g|, ts), ts)
    ensures ForestIds(CloneForest(|g|, ts)) == Range(|g|, |CloneKidsF(g, c, ts)|)
    decreases ts, 0
  {
    if ts == [] {
      assert KidIds([]) == [];
      assert WithChildren(g[c], []) == g[c];
    } else {
      var init, last := ts[..|ts| - 1], ts[|ts| - 1];
      CloneKidsFacts(g, c, init);
      var g1 := CloneKidsF(g, c, init);
      RangeLength(|g|, |g1|);
      CloneFacts(g1, last);
      StepShape(g, c, ts);
      SplitLast(ts);
      var g2 := CloneF(g1, last);
      CloneKidsStep(g, c, g1, g2, CloneKidsF(g, c, ts), CloneForest(|g|, init),
                    CloneTree(|g1|, last), init, last);
    }
  }

  lemma {:induction false} CloneForestSnoc(n: nat, init: seq<Tree>, last: Tree, id: nat)
    requires id == n + |ForestIds(CloneForest(n, init))|
    ensures CloneForest(n, init + [last]) == CloneForest(n, init) + [CloneTree(id, last)]
  {
    assert (init + [last])[..|init|] == init;
  }

  lemma {:induction false} WithChildrenAppend(d: NodeData, xs: seq<NodeId>, k: NodeId)
    ensures WithChildren(WithChildren(d, xs), ChildIds(WithChildren(d, xs)) + [k])
            == WithChildren(d, xs + [k])
  {
  }

  /** The step of `CloneKidsFacts`, stated over the heaps and trees involved: `g1` is the heap
      before the next child is cloned, `g2` after it, `r` after the clone is attached to `c`. */
  lemma {:induction false} CloneKidsStep(g: seq<NodeData>, c: nat, g1: seq<NodeData>,
                                         g2: seq<NodeData>, r: seq<NodeData>, ik: seq<Tree>,
                                         kt: Tree, init: seq<Tree>, last: Tree)
    requires c + 1 == |g| <= |g1| < |g2| == |r| && g2[..|g1|] == g1
    requires forall x :: 0 <= x < |g2| && x != c ==> r[x] == g2[x]
    requires AllUnfold(g1, ik) && AllClones(ik, init) && |ik| == |init|
    requires ForestIds(ik) == Range(|g|, |g1|)
    requires Unfolds(g2, |g1|, kt) && IsCloneOf(kt, last) && Ids(kt) == Range(|g1|, |g2|)
    ensures AllUnfold(r, ik + [kt]) && ForestIds(ik + [kt]) == Range(|g|, |r|)
    ensures AllClones(ik + [kt], init + [last])
  {
    AttachKeepsTrees(g1, g2, r, c, ik, |g1|, kt);
    assert forall j :: 0 <= j < |init| ==> init[j] == (init + [last])[j];
    AllClonesSnoc(ik, init + [last], kt);
  }

  /** How one more child extends the heap and the tree of a clone under construction. */
  lemma {:induction false} StepShape(g: seq<NodeData>, c: nat, ts: seq<Tree>)
    requires c + 1 == |g| && ts != []
    requires var g1 := CloneKidsF(g, c, ts[..|ts| - 1]);
             var ik := CloneForest(|g|, ts[..|ts| - 1]);
             g1[c] == WithChildren(g[c], KidIds(ik)) && |ForestIds(ik)| == |g1| - |g|
    ensures var init, last := ts[..|ts| - 1], ts[|ts| - 1];
            var g1 := CloneKidsF(g, c, init);
            var ik := CloneForest(|g|, init);
            var g2 := CloneF(g1, last);
            var kt := CloneTree(|g1|, last);
            && CloneForest(|g|, ts) == ik + [kt]
            && CloneKidsF(g, c, ts) == g2[c := WithChildren(g2[c], ChildIds(g2[c]) + [|g1|])]
            && (forall x :: 0 <= x < |g2| && x != c ==> CloneKidsF(g, c, ts)[x] == g2[x])
            && CloneKidsF(g, c, ts)[c] == WithChildren(g[c], KidIds(ik + [kt]))
  {
    var init, last := ts[..|ts| - 1], ts[|ts| - 1];
    var g1 := CloneKidsF(g, c, init);
    var ik := CloneForest(|g|, init);
    var k := |g1|;
    var kt := CloneTree(k, last);
    SplitLast(ts);
    CloneForestSnoc(|g|, init, last, k);
    var g2 := CloneF(g1, last);
    assert g2[c] == g2[..|g1|][c];
    KidIdsSnoc(ik, kt);
    WithChildrenAppend(g[c], KidIds(ik), k);
  }

  /** Attaching a freshly cloned subtree to the clone's root `c` keeps every subtree cloned so
      far, and the new one, unfolding; together they own the pointers after `c`. */
  lemma {:induction false} AttachKeepsTrees(before: seq<NodeData>, mid: seq<NodeData>,
                                            after: seq<NodeData>, c: NodeId, kids: seq<Tree>,
                                            k: NodeId, kt: Tree)
    requires c < |before| <= |mid| == |after| && mid[..|before|] == before
    requires forall x :: 0 <= x < |mid| && x != c ==> after[x] == mid[x]
    requires AllUnfold(before, kids)
    requires ForestIds(kids) == Range(c + 1, |before|)
    requires k == |before| && Unfolds(mid, k, kt) && Ids(kt) == Range(|before|, |mid|)
    ensures AllUnfold(after, kids + [kt])
    ensures ForestIds(kids + [kt]) == Range(c + 1, |after|)
  {
    forall j | 0 <= j < |kids| + 1 ensures Unfolds(after, (kids + [kt])[j].id, (kids + [kt])[j]) {
      if j < |kids| {
        EarlierKidKept(before, mid, after, c, kids, j);
      } else {
        NewKidKept(before, mid, after, c, k, kt);
      }
    }
    ForestIdsSnoc(kids, kt);
    RangeSplit(c + 1, |before|, |mid|);
  }

  lemma {:induction false} NewKidKept(before: seq<NodeData>, mid: seq<NodeData>,
                                      after: seq<NodeData>, c: NodeId, k: NodeId, kt: Tree)
    requires c < |before| <= |mid| == |after|
    requires forall x :: 0 <= x < |mid| && x != c ==> after[x] == mid[x]
    requires k == |before| && Unfolds(mid, k, kt) && Ids(kt) == Range(|before|, |mid|)
    ensures Unfolds(after, k, kt)
  {
    RangeMembers(k, |mid|);
    UnfoldsFrame(mid, after, k, kt);
  }

  lemma {:induction false} ForestIdsSnoc(ts: seq<Tree>, t: Tree)
    ensures ForestIds(ts + [t]) == ForestIds(ts) + Ids(t)
  {
    assert (ts + [t])[..|ts|] == ts;
  }

  /** Every tree of `ks` unfolds from its own root pointer. */
  predicate AllUnfold(g: seq<NodeData>, ks: seq<Tree>) {
    forall j :: 0 <= j < |ks| ==> Unfolds(g, ks[j].id, ks[j])
  }

  /** Each tree of `cs` is a clone of the tree at the same index of `ts`. */
  predicate AllClones(cs: seq<Tree>, ts: seq<Tree>) {
    |cs| <= |ts| && forall j :: 0 <= j < |cs| ==> IsCloneOf(cs[j], ts[j])
  }

  lemma {:induction false} KidIdsSnoc(ts: seq<Tree>, t: Tree)
    ensures KidIds(ts + [t]) == KidIds(ts) + [t.id]
  {
  }

  lemma {:induction false} AllClonesSnoc(cs: seq<Tree>, ts: seq<Tree>, c: Tree)
    requires |cs| < |ts| && forall j :: 0 <= j < |cs| ==> IsCloneOf(cs[j], ts[j])
    requires IsCloneOf(c, ts[|cs|])
    ensures AllClones(cs + [c], ts)
  {
    assert forall j :: 0 <= j < |cs| ==> (cs + [c])[j] == cs[j];
  }

  lemma {:induction false} EarlierKidKept(before: seq<NodeData>, mid: seq<NodeData>,
                                          after: seq<NodeData>, c: NodeId, kids: seq<Tree>,
                                          j: nat)
    requires c < |before| <= |mid| == |after| && mid[..|before|] == before
    requires forall x :: 0 <= x < |mid| && x != c ==> after[x] == mid[x]
    requires j < |kids| && AllUnfold(before, kids)
    requires ForestIds(kids) == Range(c + 1, |before|)
    ensures Unfolds(after, kids[j].id, kids[j])
  {
    RangeMembers(c + 1, |before|);
    forall x | x in Ids(kids[j]) ensures x < |before| && after[x] == before[x] {
      ForestIdsMember(kids, j, x);
      assert mid[x] == mid[..|before|][x];
    }
    UnfoldsFrame(before, after, kids[j].id, kids[j]);
  }

  lemma {:induction false} ForestIdsPrefix(ts: seq<Tree>, i: nat, x: NodeId)
    requires i <= |ts| && x in ForestIds(ts[..i])
    ensures x in ForestIds(ts)
    decreases |ts| - i
  {
    if i < |ts| {
      assert ts[..i + 1][..i] == ts[..i];
      assert x in ForestIds(ts[..i + 1]);
      ForestIdsPrefix(ts, i + 1, x);
    } else {
      assert ts[..i] == ts;
    }
  }

  lemma FindInSnoc(ts: seq<Tree>, i: nat, name: string)
    requires i < |ts|
    ensures FindIn(ts[..i + 1], name) ==
            if FindIn(ts[..i], name).Some? then FindIn(ts[..i], name) else Find(ts[i], name)
    ensures ForestIds(ts[..i + 1]) == ForestIds(ts[..i]) + Ids(ts[i])
  {
    assert ts[..i + 1][..i] == ts[..i];
  }

  /** Once a prefix of the children has produced a result, the later children do not change
      it; and a search that ran through all children has searched the whole list. */
  lemma {:induction false} FindInPrefixStops(ts: seq<Tree>, i: nat, name: string)
    requires i <= |ts|
    requires FindIn(ts[..i], name).Some? || i == |ts|
    ensures FindIn(ts, name) == FindIn(ts[..i], name)
    decreases |ts| - i
  {
    if i < |ts| {
      assert ts[..i + 1][..i] == ts[..i];
      FindInPrefixStops(ts, i + 1, name);
    } else {
      assert ts[..i] == ts;
    }
  }
}
