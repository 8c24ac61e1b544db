/** Deciding whether a node pointer unfolds to a tree. Recursive operations on a node (clone,
    the visitors) terminate exactly when no path from the node comes back to a node already
    on it; `Unfold` finds the tree in that case and reports `None` otherwise. */
module Unfolding {
  import opened Wrappers
  import opened Nodes

  /** The number of nodes of a tree. */
  function Size(t: Tree): nat
    decreases t
  {
    1 + ForestSize(t.kids)
  }

  function ForestSize(ts: seq<Tree>): nat
    decreases ts
  {
    if ts == [] then 0 else ForestSize(ts[..|ts| - 1]) + Size(ts[|ts| - 1])
  }

  lemma {:induction false} KidSmaller(ts: seq<Tree>, i: nat)
    requires i < |ts|
    ensures Size(ts[i]) <= ForestSize(ts)
    decreases ts
  {
    if i < |ts| - 1 {
      KidSmaller(ts[..|ts| - 1], i);
    }
  }

  /** A set of pointers below `n` has at most `n` members. */
  lemma {:induction false} BoundedCard(s: set<NodeId>, n: nat)
    requires forall x :: x in s ==> x < n
    ensures |s| <= n
    decreases n
  {
    if n > 0 {
      BoundedCard(s - {n - 1}, n - 1);
    }
  }

  predicate Below(s: set<NodeId>, n: nat) {
    forall x :: x in s ==> x < n
  }

  /** The tree `id` unfolds to, following child pointers depth first; `visiting` holds the
      nodes on the path from the start down to `id`, and meeting one of them again gives
      `None`. */
  function TreeOf(g: seq<NodeData>, id: NodeId, visiting: set<NodeId>): (r: Option<Tree>)
    requires Closed(g) && id < |g| && Below(visiting, |g|)
    ensures r.Some? ==> Unfolds(g, id, r.value)
    decreases |g| - |visiting|, 0
  {
    if id in visiting then None
    else
      BoundedCard(visiting + {id}, |g|);
      match KidsOf(g, ChildIds(g[id]), visiting + {id})
      case None => None
      case Some(ks) => Some(Tree(id, g[id], ks))
  }

  function KidsOf(g: seq<NodeData>, ids: seq<NodeId>, visiting: set<NodeId>)
    : (r: Option<seq<Tree>>)
    requires Closed(g) && Below(visiting, |g|) && forall k :: 0 <= k < |ids| ==> ids[k] < |g|
    ensures r.Some? ==> |r.value| == |ids|
    ensures r.Some? ==> forall k :: 0 <= k < |ids| ==> Unfolds(g, ids[k], r.value[k])
    decreases |g| - |visiting|, 1, |ids|
  {
    if ids == [] then Some([])
    else
      match KidsOf(g, ids[..|ids| - 1], visiting)
      case None => None
      case Some(init) =>
        match TreeOf(g, ids[|ids| - 1], visiting)
        case None => None
        case Some(last) => Some(init + [last])
  }

  /** The tree a pointer unfolds to, when it unfolds at all. */
  function Unfold(g: seq<NodeData>, id: NodeId): (r: Option<Tree>)
    requires Closed(g) && id < |g|
    ensures r.Some? ==> Unfolds(g, id, r.value)
  {
    TreeOf(g, id, {})
  }

  /** A pointer unfolds to at most one tree. */
  lemma {:induction false} UnfoldsUnique(g: seq<NodeData>, id: NodeId, t1: Tree, t2: Tree)
    requires Unfolds(g, id, t1) && Unfolds(g, id, t2)
    ensures t1 == t2
    decreases t1
  {
    forall i | 0 <= i < |t1.kids| ensures t1.kids[i] == t2.kids[i] {
      UnfoldsUnique(g, ChildIds(g[id])[i], t1.kids[i], t2.kids[i]);
    }
  }

  lemma {:induction false} ForestIdsWitness(ts: seq<Tree>, x: NodeId) returns (i: nat)
    requires x in ForestIds(ts)
    ensures i < |ts| && x in Ids(ts[i])
    decreases ts
  {
    if x in Ids(ts[|ts| - 1]) {
      i := |ts| - 1;
    } else {
      i := ForestIdsWitness(ts[..|ts| - 1], x);
    }
  }

  /** Every pointer of an unfolded tree unfolds to one of its subtrees. */
  lemma {:induction false} SubtreeAt(g: seq<NodeData>, id: NodeId, t: Tree, x: NodeId)
    returns (s: Tree)
    requires Unfolds(g, id, t) && x in Ids(t)
    ensures Unfolds(g, x, s) && Size(s) <= Size(t)
    decreases t
  {
    if x == id {
      s := t;
    } else {
      var i := ForestIdsWitness(t.kids, x);
      s := SubtreeAt(g, ChildIds(g[id])[i], t.kids[i], x);
      KidSmaller(t.kids, i);
    }
  }

  /** A node that unfolds is not among its own descendants. */
  lemma NotOwnDescendant(g: seq<NodeData>, id: NodeId, t: Tree)
    requires Unfolds(g, id, t)
    ensures id !in ForestIds(t.kids)
  {
    if id in ForestIds(t.kids) {
      var i := ForestIdsWitness(t.kids, id);
      var s := SubtreeAt(g, ChildIds(g[id])[i], t.kids[i], id);
      KidSmaller(t.kids, i);
      UnfoldsUnique(g, id, s, t);
      assert false;
    }
  }

  lemma {:induction false} TreeOfComplete(g: seq<NodeData>, id: NodeId, t: Tree,
                                          visiting: set<NodeId>)
    requires Closed(g) && Below(visiting, |g|) && Unfolds(g, id, t)
    requires forall x :: x in Ids(t) ==> x !in visiting
    ensures TreeOf(g, id, visiting) == Some(t)
    decreases t
  {
    assert id in Ids(t);
    BoundedCard(visiting + {id}, |g|);
    var ids := ChildIds(g[id]);
    forall i | 0 <= i < |t.kids|
      ensures forall x :: x in Ids(t.kids[i]) ==> x !in visiting + {id}
    {
      NotOwnDescendant(g, id, t);
      forall x | x in Ids(t.kids[i]) ensures x !in visiting + {id} {
        ForestIdsMember(t.kids, i, x);
        assert x in Ids(t);
      }
    }
    KidsOfComplete(g, ids, t.kids, visiting + {id});
  }

  lemma {:induction false} KidsOfComplete(g: seq<NodeData>, ids: seq<NodeId>, ts: seq<Tree>,
                                          visiting: set<NodeId>)
    requires Closed(g) && Below(visiting, |g|) && |ts| == |ids|
    requires forall k :: 0 <= k < |ids| ==> ids[k] < |g| && Unfolds(g, ids[k], ts[k])
    requires forall k :: 0 <= k < |ids| ==> forall x :: x in Ids(ts[k]) ==> x !in visiting
    ensures KidsOf(g, ids, visiting) == Some(ts)
    decreases ts
  {
    if ids != [] {
      var n := |ids| - 1;
      KidsOfComplete(g, ids[..n], ts[..n], visiting);
      TreeOfComplete(g, ids[n], ts[n], visiting);
      assert ts == ts[..n] + [ts[n]];
    }
  }

  /** `Unfold` finds the tree whenever there is one; with the soundness stated on `Unfold`
      itself, `None` means exactly that recursion from the node would not terminate. */
  lemma UnfoldComplete(g: seq<NodeData>, id: NodeId, t: Tree)
    requires Closed(g) && Unfolds(g, id, t)
    ensures Unfold(g, id) == Some(t)
  {
    TreeOfComplete(g, id, t, {});
  }
}
