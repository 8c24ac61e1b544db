/** The animation pass. Its visitor stores the elapsed time and otherwise only walks the graph:
    a group hands the visitor to each child in order, and leaves and every kind of transform
    do nothing, so nothing below a transform is reached. No node is changed, so the pass is
    described by the nodes whose visit method runs. */
module Animation {
  import opened Wrappers
  import opened Nodes

  /** The visitor: only the time since the last update, kept for transforms that would use
      it. */
  datatype AnimationVisitor = AnimationVisitor(deltaTime: real)

  /** The nodes whose visit method runs when `t` accepts the visitor, in the order they run. */
  function Visited(v: AnimationVisitor, t: Tree): (r: seq<NodeId>)
    ensures r != [] && r[0] == t.id
    ensures !t.data.Group? ==> r == [t.id]
    decreases t
  {
    if t.data.Group? then [t.id] + VisitedForest(v, t.kids) else [t.id]
  }

  /** The children of a group, each handed the visitor once, in child order. */
  function VisitedForest(v: AnimationVisitor, ts: seq<Tree>): seq<NodeId>
    decreases ts
  {
    if ts == [] then [] else VisitedForest(v, ts[..|ts| - 1]) + Visited(v, ts[|ts| - 1])
  }

  /** Every step of `p` leaves a group: the route reaches its node through groups only. */
  predicate ThroughGroups(t: Tree, p: Path)
    decreases |p|
  {
    p == [] || (t.data.Group? && p[0] < |t.kids| && ThroughGroups(t.kids[p[0]], p[1..]))
  }

  lemma {:induction false} VisitedForestSplit(v: AnimationVisitor, ts: seq<Tree>, i: nat)
    requires i < |ts|
    ensures VisitedForest(v, ts) ==
            VisitedForest(v, ts[..i]) + Visited(v, ts[i]) + VisitedForest(v, ts[i + 1..])
    decreases |ts|
  {
    var n := |ts| - 1;
    if i == n {
      assert ts[..i] == ts[..n];
      assert ts[i + 1..] == [];
    } else {
      VisitedForestSplit(v, ts[..n], i);
      assert ts[..n][..i] == ts[..i];
      assert ts[..n][i] == ts[i];
      assert ts[i + 1..][..|ts[i + 1..]| - 1] == ts[..n][i + 1..];
      assert ts[i + 1..][|ts[i + 1..]| - 1] == ts[n];
    }
  }

  /** Every node reached from `t` through groups only has its visit method run. */
  lemma {:induction false} VisitedComplete(v: AnimationVisitor, t: Tree, p: Path)
    requires ThroughGroups(t, p)
    ensures At(t, p).Some? && At(t, p).value.id in Visited(v, t)
    decreases |p|
  {
    if p != [] {
      var i := p[0];
      VisitedComplete(v, t.kids[i], p[1..]);
      VisitedForestSplit(v, t.kids, i);
    }
  }

  lemma {:induction false} VisitedForestWitness(v: AnimationVisitor, ts: seq<Tree>, x: NodeId)
    returns (i: nat)
    requires x in VisitedForest(v, ts)
    ensures i < |ts| && x in Visited(v, ts[i])
    decreases ts
  {
    if x in Visited(v, ts[|ts| - 1]) {
      i := |ts| - 1;
    } else {
      i := VisitedForestWitness(v, ts[..|ts| - 1], x);
    }
  }

  /** Conversely, every node whose visit method runs is reached through groups only: a node
      below a transform or a leaf is never visited. */
  lemma {:induction false} VisitedSound(v: AnimationVisitor, t: Tree, x: NodeId)
    returns (p: Path)
    requires x in Visited(v, t)
    ensures ThroughGroups(t, p) && At(t, p).Some? && At(t, p).value.id == x
    decreases t
  {
    if x == t.id {
      p := [];
    } else {
      var i := VisitedForestWitness(v, t.kids, x);
      var q := VisitedSound(v, t.kids[i], x);
      p := [i] + q;
      assert p[1..] == q;
    }
  }

  /** A group's own visit comes first, then the visits of its children, each child once and in
      child order: split at any child `i`. */
  lemma {:induction false} GroupVisitsChildrenInOrder(v: AnimationVisitor, t: Tree, i: nat)
    requires t.data.Group? && i < |t.kids|
    ensures Visited(v, t) ==
            [t.id] + VisitedForest(v, t.kids[..i]) + Visited(v, t.kids[i]) +
            VisitedForest(v, t.kids[i + 1..])
  {
    VisitedForestSplit(v, t.kids, i);
  }
}
