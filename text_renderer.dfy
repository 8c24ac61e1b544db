/** The text renderer: an indented outline of the scene graph, one line per node it visits.

    The depth a visit method receives is the depth its node's `accept` was called with plus
    one (the leaf's `accept` is shown; the group's and transform's are taken to do the same).
    A group prints itself and then all of its children; a transform prints itself and then only
    its first child, with the transform pushed on the modelview stack meanwhile. */
module TextRenderer {
  import opened Wrappers
  import opened Linear
  import opened Nodes

  /** `n` copies of four spaces. */
  function Indent(n: nat): (r: string)
    ensures |r| == 4 * n && forall k :: 0 <= k < |r| ==> r[k] == ' '
  {
    if n == 0 then "" else Indent(n - 1) + "    "
  }

  /** The number of indentation steps a node printed at `depth` gets. */
  function Levels(depth: int): nat {
    if depth - 1 > 0 then depth - 1 else 0
  }

  /** The line `printNodeHelper` writes. */
  function Line(name: string, depth: int): string {
    Indent(Levels(depth)) + "- " + name + "\n"
  }

  /** The text the visit method of `t` writes when it receives `depth`. */
  function Text(t: Tree, depth: int): string
    decreases t
  {
    if t.data.Leaf? then Line(t.data.name, depth)
    else if t.data.Group? then Line(t.data.name, depth) + TextForest(t.kids, depth)
    else Line(t.data.name, depth) + (if t.kids == [] then "" else Text(t.kids[0], depth + 1))
  }

  /** The children of a node visited at `depth`, each accepting the visitor at `depth`, so each
      child's visit method receives `depth + 1`. */
  function TextForest(ts: seq<Tree>, depth: int): string
    decreases ts
  {
    if ts == [] then "" else TextForest(ts[..|ts| - 1], depth) + Text(ts[|ts| - 1], depth + 1)
  }

  /** The nodes the renderer prints, in the order it prints them, each with the depth its
      visit method receives. */
  function Listing(t: Tree, depth: int): seq<(string, int)>
    decreases t
  {
    [(t.data.name, depth)] +
    if t.data.Leaf? then []
    else if t.data.Group? then ListingForest(t.kids, depth + 1)
    else if t.kids == [] then []
    else Listing(t.kids[0], depth + 1)
  }

  function ListingForest(ts: seq<Tree>, depth: int): seq<(string, int)>
    decreases ts
  {
    if ts == [] then [] else ListingForest(ts[..|ts| - 1], depth) + Listing(ts[|ts| - 1], depth)
  }

  /** The lines of a listing, in order. */
  function Lines(entries: seq<(string, int)>): string {
    if entries == [] then ""
    else Lines(entries[..|entries| - 1]) + Line(entries[|entries| - 1].0, entries[|entries| - 1].1)
  }

  lemma {:induction false} LinesAppend(a: seq<(string, int)>, b: seq<(string, int)>)
    ensures Lines(a + b) == Lines(a) + Lines(b)
    decreases |b|
  {
    if b == [] {
      assert a + b == a;
    } else {
      var n := |b| - 1;
      var last := Line(b[n].0, b[n].1);
      assert (a + b)[..|a + b| - 1] == a + b[..n];
      assert (a + b)[|a + b| - 1] == b[n];
      calc {
        Lines(a + b);
        Lines(a + b[..n]) + last;
        { LinesAppend(a, b[..n]); }
        (Lines(a) + Lines(b[..n])) + last;
        Lines(a) + (Lines(b[..n]) + last);
        Lines(a) + Lines(b);
      }
    }
  }

  /** The outline is exactly one line per listed node, in the listed order: a group's line,
      then its children's lines; a transform's line, then its first child's lines only. */
  lemma {:induction false} TextIsListing(t: Tree, depth: int)
    ensures Text(t, depth) == Lines(Listing(t, depth))
    decreases t
  {
    var own := [(t.data.name, depth)];
    assert Lines(own) == Line(t.data.name, depth) by {
      assert own[..0] == [];
    }
    if t.data.Group? {
      ForestIsListing(t.kids, depth);
      LinesAppend(own, ListingForest(t.kids, depth + 1));
    } else if t.data.Transform? && t.kids != [] {
      TextIsListing(t.kids[0], depth + 1);
      LinesAppend(own, Listing(t.kids[0], depth + 1));
    } else {
      assert Listing(t, depth) == own;
    }
  }

  lemma {:induction false} ForestIsListing(ts: seq<Tree>, depth: int)
    ensures TextForest(ts, depth) == Lines(ListingForest(ts, depth + 1))
    decreases ts
  {
    if ts != [] {
      var n := |ts| - 1;
      ForestIsListing(ts[..n], depth);
      TextIsListing(ts[n], depth + 1);
      LinesAppend(ListingForest(ts[..n], depth + 1), Listing(ts[n], depth + 1));
    }
  }

  /** Each listed node sits one level below the node that lists it: a child's visit method
      receives its parent's depth plus one, so no entry is shallower than the root's. */
  lemma {:induction false} ListingDepths(t: Tree, depth: int)
    ensures Listing(t, depth)[0] == (t.data.name, depth)
    ensures forall k :: 1 <= k < |Listing(t, depth)| ==> Listing(t, depth)[k].1 > depth
    decreases t
  {
    var l := Listing(t, depth);
    if t.data.Group? {
      var rest := ListingForest(t.kids, depth + 1);
      assert l == [(t.data.name, depth)] + rest;
      ForestDepths(t.kids, depth + 1);
      assert forall k :: 1 <= k < |l| ==> l[k] == rest[k - 1];
    } else if t.data.Transform? && t.kids != [] {
      var rest := Listing(t.kids[0], depth + 1);
      assert l == [(t.data.name, depth)] + rest;
      ListingDepths(t.kids[0], depth + 1);
      assert forall k :: 1 <= k < |l| ==> l[k] == rest[k - 1];
    } else {
      assert l == [(t.data.name, depth)];
    }
  }

  lemma {:induction false} ForestDepths(ts: seq<Tree>, depth: int)
    ensures forall k :: 0 <= k < |ListingForest(ts, depth)| ==> ListingForest(ts, depth)[k].1 >= depth
    decreases ts
  {
    if ts != [] {
      var n := |ts| - 1;
      ForestDepths(ts[..n], depth);
      ListingDepths(ts[n], depth);
      var a, b := ListingForest(ts[..n], depth), Listing(ts[n], depth);
      assert forall k :: |a| <= k < |a| + |b| ==> (a + b)[k] == b[k - |a|];
    }
  }

  /** The number of leading spaces of `s`. */
  function LeadingSpaces(s: string): nat {
    if s != [] && s[0] == ' ' then 1 + LeadingSpaces(s[1..]) else 0
  }

  lemma {:induction false} LeadingSpacesOfIndent(n: nat, rest: string)
    requires rest == [] || rest[0] != ' '
    ensures LeadingSpaces(Indent(n) + rest) == 4 * n
    decreases n
  {
    if n > 0 {
      var s := Indent(n) + rest;
      assert Indent(n) == "    " + Indent(n - 1) by { IndentShift(n); }
      LeadingSpacesOfIndent(n - 1, rest);
      assert s[1..][1..][1..][1..] == Indent(n - 1) + rest;
      assert LeadingSpaces(s[1..][1..][1..]) == 1 + 4 * (n - 1);
      assert LeadingSpaces(s[1..]) == 3 + 4 * (n - 1);
    } else {
      assert Indent(n) + rest == rest;
    }
  }

  lemma {:induction false} IndentShift(n: nat)
    requires n > 0
    ensures Indent(n) == "    " + Indent(n - 1)
    decreases n
  {
    if n > 1 {
      IndentShift(n - 1);
    }
  }

  /** The indentation of a printed line gives back the depth it was printed at, for every
      depth above one: a reader of the outline can recover the tree's shape. */
  lemma LineIndentation(name: string, depth: int)
    ensures LeadingSpaces(Line(name, depth)) == 4 * Levels(depth)
  {
    assert Line(name, depth) == Indent(Levels(depth)) + ("- " + name + "\n");
    LeadingSpacesOfIndent(Levels(depth), "- " + name + "\n");
  }

  /** The renderer; `modelview` is the shared matrix stack, top last, and `out` what it has
      written to the console. */
  class TextScenegraphRenderer {
    var modelview: seq<Mat>
    var out: string

    constructor (mv: seq<Mat>)
      ensures modelview == mv && out == ""
    {
      modelview := mv;
      out := "";
    }

    /** `printNodeHelper`: `depth - 1` indentation steps, when positive, then the name. */
    method PrintNodeHelper(nodeName: string, nodeDepth: int)
      modifies this
      ensures out == old(out) + Line(nodeName, nodeDepth)
      ensures modelview == old(modelview)
    {
      var i := nodeDepth - 1;
      while i > 0
        invariant i <= nodeDepth - 1 && (i < 0 ==> i == nodeDepth - 1)
        invariant out == old(out) + Indent(Levels(nodeDepth) - (if i > 0 then i else 0))
        invariant modelview == old(modelview)
        decreases i
      {
        out := out + "    ";
        i := i - 1;
      }
      out := out + "- " + nodeName + "\n";
    }

    /** `accept(visitor, depth)` on the node `t`: its visit method receives `depth + 1`. */
    method Accept(t: Tree, depth: int)
      requires |modelview| >= 1
      modifies this
      ensures out == old(out) + Text(t, depth + 1)
      ensures modelview == old(modelview)
      decreases t, 1
    {
      if t.data.Group? {
        VisitGroupNode(t, depth + 1);
      } else if t.data.Leaf? {
        VisitLeafNode(t, depth + 1);
      } else {
        VisitTransformNode(t, depth + 1);
      }
    }

    method VisitGroupNode(t: Tree, depth: int)
      requires t.data.Group? && |modelview| >= 1
      modifies this
      ensures out == old(out) + Text(t, depth)
      ensures modelview == old(modelview)
      decreases t, 0
    {
      PrintNodeHelper(t.data.name, depth);
      var i := 0;
      while i < |t.kids|
        invariant i <= |t.kids|
        invariant out == old(out) + Line(t.data.name, depth) + TextForest(t.kids[..i], depth)
        invariant modelview == old(modelview)
      {
        assert t.kids[..i + 1][..i] == t.kids[..i];
        assert old(out) + Line(t.data.name, depth) + TextForest(t.kids[..i], depth)
                 + Text(t.kids[i], depth + 1)
            == old(out) + Line(t.data.name, depth)
                 + (TextForest(t.kids[..i], depth) + Text(t.kids[i], depth + 1));
        Accept(t.kids[i], depth);
        i := i + 1;
      }
      assert t.kids[..i] == t.kids;
    }

    method VisitLeafNode(t: Tree, depth: int)
      requires t.data.Leaf?
      modifies this
      ensures out == old(out) + Text(t, depth)
      ensures modelview == old(modelview)
      decreases t, 0
    {
      PrintNodeHelper(t.data.name, depth);
    }

    /** Scale, translate and rotate nodes all come here: the transform is pushed for the first
      child only, and the stack is popped back to what it was. */
    method VisitTransformNode(t: Tree, depth: int)
      requires t.data.Transform? && |modelview| >= 1
      modifies this
      ensures out == old(out) + Text(t, depth)
      ensures modelview == old(modelview)
      decreases t, 0
    {
      PrintNodeHelper(t.data.name, depth);
      var top := modelview[|modelview| - 1];
      modelview := modelview + [Mul(top, TransformOf(t.data.op))];
      if |t.kids| > 0 {
        Accept(t.kids[0], depth);
      }
      modelview := modelview[..|modelview| - 1];
    }
  }
}
