/** Properties of scene-description parsing, stated over the handlers of `ImportSpec`. */
module ImportFacts {
  import opened Wrappers
  import opened Linear
  import opened Attributes
  import opened Nodes
  import opened Scanner
  import opened Unfolding
  import opened ImportSpec

  /** `s` allocated exactly one node, named `name`, with no children and no lights, bound `v`
      to it, and left the other tables, the root and the old nodes alone. */
  predicate AllocatesOne(st: State, s: Step, v: string, name: string) {
    var n := |st.heap|;
    && s.err.None?
    && |s.st.heap| == n + 1 && s.st.heap[..n] == st.heap
    && s.st.heap[n].name == name && ChildIds(s.st.heap[n]) == [] && s.st.heap[n].lights == []
    && s.st.nodes == st.nodes[v := Some(n)]
    && s.st.(heap := st.heap, nodes := st.nodes) == st
  }

  /** `group`, `leaf`, `scale`, `rotate` and `translate` each allocate one node of their own
      kind, named by their second word and bound to their first; the nodes that can have
      children start with an identity animation transform. */
  lemma CreatingCommands(st: State, text: string, c: Cursor,
                         v: string, c1: Cursor, name: string, c2: Cursor)
    requires Wf(st) && NextWord(text, c) == (v, c1) && NextWord(text, c1) == (name, c2)
    ensures AllocatesOne(st, GroupStep(st, text, c), v, name)
    ensures AllocatesOne(st, LeafStep(st, text, c), v, name)
    ensures AllocatesOne(st, ScaleStep(st, text, c), v, name)
    ensures AllocatesOne(st, RotateStep(st, text, c), v, name)
    ensures AllocatesOne(st, TranslateStep(st, text, c), v, name)
    ensures var n := |st.heap|;
            && GroupStep(st, text, c).st.heap[n].Group?
            && GroupStep(st, text, c).st.heap[n].anim == Identity
            && LeafStep(st, text, c).st.heap[n].Leaf?
            && ScaleStep(st, text, c).st.heap[n].Transform?
            && ScaleStep(st, text, c).st.heap[n].anim == Identity
            && RotateStep(st, text, c).st.heap[n].Transform?
            && RotateStep(st, text, c).st.heap[n].anim == Identity
            && TranslateStep(st, text, c).st.heap[n].Transform?
            && TranslateStep(st, text, c).st.heap[n].anim == Identity
  {
    AppendOne(st, GroupStep(st, text, c));
    AppendOne(st, LeafStep(st, text, c));
    AppendOne(st, ScaleStep(st, text, c));
    AppendOne(st, RotateStep(st, text, c));
    AppendOne(st, TranslateStep(st, text, c));
  }

  lemma AppendOne(st: State, s: Step)
    requires |s.st.heap| == |st.heap| + 1 && s.st.heap[..|st.heap|] == st.heap
    ensures s.st.heap == st.heap + [s.st.heap[|st.heap|]]
  {
  }

  /** The transform commands store the numbers they read: a scale's three factors, a
      translation's three offsets, and a rotation's angle converted from degrees to radians
      together with its axis. */
  lemma TransformCommandsStoreOperands(st: State, text: string, c: Cursor)
    requires Wf(st)
    ensures var (_, c1) := NextWord(text, c);
            var (_, c2) := NextWord(text, c1);
            var (x, c3) := NextReal(text, c2);
            var (y, c4) := NextReal(text, c3);
            var (z, c5) := NextReal(text, c4);
            var (w, c6) := NextReal(text, c5);
            var n := |st.heap|;
            && ScaleStep(st, text, c).st.heap[n].op == Nodes.Scale(x, y, z)
            && TranslateStep(st, text, c).st.heap[n].op == Translate(x, y, z)
            && RotateStep(st, text, c).st.heap[n].op == Rotate(Radians(x), y, z, w)
            && ScaleStep(st, text, c).cur == TranslateStep(st, text, c).cur == c5
            && RotateStep(st, text, c).cur == c6
  {
  }

  /** `leaf` always consumes the word after the name; it reads an instance name only when that
      word is `instanceof`, and otherwise the leaf has no instance. */
  lemma LeafInstance(st: State, text: string, c: Cursor)
    requires Wf(st)
    ensures var (_, c1) := NextWord(text, c);
            var (_, c2) := NextWord(text, c1);
            var (w, c3) := NextWord(text, c2);
            var r := LeafStep(st, text, c);
            var leaf := r.st.heap[|st.heap|];
            && leaf.Leaf? && leaf.material == DefaultMaterial && leaf.texture == ""
            && (w == "instanceof" ==> (leaf.instanceOf, r.cur) == NextWord(text, c3))
            && (w != "instanceof" ==> leaf.instanceOf == "" && r.cur == c3)
  {
  }

  /** Only binds variables to null: the heap, the root and every other table are those of
      `st`, and every variable bound in `st` keeps its binding. */
  predicate OnlyNulls(st: State, s: Step) {
    && s.err.None?
    && s.st.(nodes := st.nodes) == st
    && (forall k :: k in st.nodes ==> k in s.st.nodes && s.st.nodes[k] == st.nodes[k])
    && (forall k :: k in s.st.nodes && k !in st.nodes ==> s.st.nodes[k] == None)
  }

  /** The commands that act on an existing node do nothing when the variable they act on was
      never bound, beyond binding it to null where the source subscripts the table; they still
      consume both of their words. */
  lemma UnboundIsIgnored(st: State, text: string, c: Cursor,
                         w1: string, c1: Cursor, w2: string, c2: Cursor)
    requires Wf(st) && NextWord(text, c) == (w1, c1) && NextWord(text, c1) == (w2, c2)
    ensures w2 !in st.nodes ==> CopyStep(st, text, c) == Step(st, c2, None)
    ensures w1 !in st.nodes || w2 !in st.nodes ==>
              OnlyNulls(st, AddChildStep(st, text, c)) && AddChildStep(st, text, c).cur == c2
    ensures w1 !in st.nodes ==>
              OnlyNulls(st, AssignMaterialStep(st, text, c)) &&
              AssignMaterialStep(st, text, c).cur == c2
    ensures w1 !in st.nodes ==> AssignLightStep(st, text, c) == Step(st, c2, None)
    ensures w1 !in st.nodes ==>
              OnlyNulls(st, AssignTextureStep(st, text, c)) &&
              AssignTextureStep(st, text, c).cur == c2
  {
  }

  /** `copy` of a node that unfolds to a tree binds the new variable to a fresh clone of that
      tree: the clone's nodes are all new, the old nodes are untouched, and every other binding
      stays. */
  lemma CopyMakesClone(st: State, text: string, c: Cursor, t: Tree,
                       nodename: string, c1: Cursor, copyof: string, c2: Cursor)
    requires Wf(st) && NextWord(text, c) == (nodename, c1) && NextWord(text, c1) == (copyof, c2)
    requires copyof in st.nodes && st.nodes[copyof].Some?
    requires Unfolds(st.heap, st.nodes[copyof].value, t)
    ensures var r := CopyStep(st, text, c);
            var n := |st.heap|;
            && r.err.None? && r.st.heap[..n] == st.heap
            && r.st.nodes == st.nodes[nodename := Some(n)]
            && Unfolds(r.st.heap, n, CloneTree(n, t)) && IsCloneOf(CloneTree(n, t), t)
            && (forall x :: x in Ids(CloneTree(n, t)) ==> n <= x && x !in Ids(t))
  {
    UnfoldComplete(st.heap, st.nodes[copyof].value, t);
    CloneIsFresh(st.heap, st.nodes[copyof].value, t);
  }

  /** Some tree unfolds from `id`. */
  ghost predicate HasTree(g: seq<NodeData>, id: NodeId) {
    exists t :: Unfolds(g, id, t)
  }

  /** `copy` fails exactly when the node copied has no tree: some path from it comes back to a
      node already on the path, and the source's recursive clone would not return. */
  lemma CopyDivergesOnCycle(st: State, text: string, c: Cursor,
                            nodename: string, c1: Cursor, copyof: string, c2: Cursor)
    requires Wf(st) && NextWord(text, c) == (nodename, c1) && NextWord(text, c1) == (copyof, c2)
    ensures CopyStep(st, text, c).err.Some? <==>
              copyof in st.nodes && st.nodes[copyof].Some? && !HasTree(st.heap, st.nodes[copyof].value)
  {
    if copyof in st.nodes && st.nodes[copyof].Some? {
      var id := st.nodes[copyof].value;
      if HasTree(st.heap, id) {
        var t :| Unfolds(st.heap, id, t);
        UnfoldComplete(st.heap, id, t);
      }
    }
  }

  /** `assign-root` of a variable that was never bound leaves the importer without a root. */
  lemma AssignRootOfUnbound(st: State, text: string, c: Cursor)
    requires Wf(st) && NextWord(text, c).0 !in st.nodes
    ensures SetRootStep(st, text, c).st.root == Assigned(None)
    ensures SetRootStep(st, text, c).st.nodes[NextWord(text, c).0].None?
  {
  }

  /** A word that is no command ends the run with that word as the error, and the tables stay
      as the commands before it left them. */
  lemma UnrecognizedStops(fs: Files, st: State, text: string, c: Cursor, depth: nat)
    requires Wf(st)
    requires var (w, c1) := NextWord(text, c); !c1.failed && !IsCommand(w)
    ensures Run(fs, st, text, c, depth) == Outcome(st, Some(Unrecognized(NextWord(text, c).0)))
  {
  }

  /** A description with nothing in it but comments and white space runs no command. */
  lemma NoCommands(fs: Files, st: State, input: string, depth: nat)
    requires Wf(st)
    requires forall k :: 0 <= k < |Stripped(input)| ==> IsSpace(Stripped(input)[k])
    ensures Run(fs, st, Stripped(input), Start, depth) == Outcome(st, None)
  {
    var text := Stripped(input);
    assert SkipSpace(text, 0) >= |text|;
    assert NextWord(text, Start).1.failed;
  }

  /** A description with nothing in it but comments and white space (an empty stream, as a
      scene file that cannot be opened gives) has no root, and an importer whose root starts
      null reports exactly that. */
  lemma NothingToParse(fs: Files, input: string, depth: nat)
    requires forall k :: 0 <= k < |Stripped(input)| ==> IsSpace(Stripped(input)[k])
    ensures Parse(fs, input, depth) == Err(NoRoot)
  {
    NoCommands(fs, Empty, input, depth);
  }

  /** Findings: the importer as written never initialises its root, so the same description
      makes `parse` test a pointer that was never assigned. */
  lemma NothingToParseAsWritten(fs: Files, input: string, depth: nat)
    requires forall k :: 0 <= k < |Stripped(input)| ==> IsSpace(Stripped(input)[k])
    ensures ParseAsWritten(fs, input, depth) == Err(IndeterminateRead)
  {
    NoCommands(fs, EmptyAsWritten, input, depth);
  }


  /** A successful `import` parses the other file with the same tables, so its root replaces
      the importer's root, and binds the variable to that root. */
  lemma ImportSharesRoot(fs: Files, st: State, text: string, c: Cursor, depth: nat)
    requires Wf(st)
    requires var (_, c1) := NextWord(text, c);
             var (path, _) := NextWord(text, c1);
             path in fs.scenes && depth > 0
    ensures var (nodename, c1) := NextWord(text, c);
            var (path, _) := NextWord(text, c1);
            var o := ParseFile(fs, st, fs.scenes[path], depth - 1);
            var r := ImportStep(fs, st, text, c, depth);
            o.err.None? ==> r.err.None? && r.st.root == o.st.root && HasRoot(r.st) &&
                            r.st.nodes[nodename] == r.st.root.ptr
  {
  }

  /** Findings: `copy` as written dereferences a variable that is bound to null. Binding a
      variable to null takes nothing more than naming it, unbound, in `assign-root`,
      `add-child`, `assign-material` or `assign-texture`; a later `copy` of it then passes the
      lookup. The corrected handler skips it like an unbound one. */
  lemma CopyOfNullVariable(st: State, text: string, c: Cursor)
    requires Wf(st)
    requires var (_, c1) := NextWord(text, c);
             var (copyof, _) := NextWord(text, c1);
             copyof in st.nodes && st.nodes[copyof].None?
    ensures CopyStepAsWritten(st, text, c).err == Some(NullDereference)
    ensures var r := CopyStep(st, text, c); r.err.None? && r.st == st
  {
  }

  /** Input that ends inside a block: a light block stops there and stores the default light
      under its name, while a material block never sees `end-material` and does not return. */
  lemma BlockAtEndOfInput(st: State, text: string, c: Cursor)
    requires var (_, c1) := NextWord(text, c); NextWord(text, c1).1.failed
    ensures MaterialStep(st, text, c).err == Some(Diverges) && MaterialStep(st, text, c).st == st
    ensures var (v, _) := NextWord(text, c);
            LightStep(st, text, c).err.None? &&
            LightStep(st, text, c).st == st.(lights := st.lights[v := DefaultLight])
  {
  }

  // ---------------------------------------------------------------------------------------
  // The effect of each command that acts on tables or existing nodes

  /** `v` is bound to a node, and that node is a leaf. */
  predicate LeafVar(st: State, v: string)
    requires Wf(st)
  {
    v in st.nodes && st.nodes[v].Some? && st.heap[st.nodes[v].value].Leaf?
  }

  /** `v` is bound to a node that can have children. */
  predicate ParentVar(st: State, v: string)
    requires Wf(st)
  {
    v in st.nodes && st.nodes[v].Some? && IsParent(st.heap[st.nodes[v].value])
  }

  /** `instance <name> <path>` records the path under the name, and the mesh read from the
      file only when the file opens; every other table is left alone. */
  lemma InstanceRecordsMesh(fs: Files, st: State, text: string, c: Cursor,
                            name: string, c1: Cursor, path: string, c2: Cursor)
    requires NextWord(text, c) == (name, c1) && NextWord(text, c1) == (path, c2)
    ensures var r := InstanceStep(fs, st, text, c);
            && r.err.None? && r.cur == c2
            && r.st.meshPaths == st.meshPaths[name := path]
            && (path in fs.objs ==> r.st.meshes == st.meshes[name := fs.objs[path]])
            && (path !in fs.objs ==> r.st.meshes == st.meshes)
            && r.st.(meshPaths := st.meshPaths, meshes := st.meshes) == st
  {
  }

  /** `image <name> <path>` records the texture file under its name and nothing else. */
  lemma ImageRecordsPath(st: State, text: string, c: Cursor,
                         name: string, c1: Cursor, path: string, c2: Cursor)
    requires NextWord(text, c) == (name, c1) && NextWord(text, c1) == (path, c2)
    ensures var r := ImageStep(st, text, c);
            && r.err.None? && r.cur == c2
            && r.st.texturePaths == st.texturePaths[name := path]
            && path in r.st.texturePaths.Values
            && r.st.(texturePaths := st.texturePaths) == st
  {
    var r := ImageStep(st, text, c);
    assert r.st.texturePaths[name] == path;
  }

  /** `assign-texture <var> <texture>` names the texture of the leaf the variable is bound to
      and changes no other node; a variable bound to null or to a group or transform changes
      nothing. The variable is bound afterwards, to null when it was not. */
  lemma AssignTextureSetsLeaf(st: State, text: string, c: Cursor,
                              v: string, c1: Cursor, tex: string, c2: Cursor)
    requires Wf(st) && NextWord(text, c) == (v, c1) && NextWord(text, c1) == (tex, c2)
    ensures var r := AssignTextureStep(st, text, c);
            && r.err.None? && r.cur == c2
            && r.st.nodes == Subscript(st.nodes, v)
            && r.st.(nodes := st.nodes, heap := st.heap) == st
            && (LeafVar(st, v) ==>
                  var id := st.nodes[v].value;
                  r.st.heap == st.heap[id := st.heap[id].(texture := tex)])
            && (!LeafVar(st, v) ==> r.st.heap == st.heap)
  {
  }

  /** `assign-material <var> <material>` gives the leaf the variable is bound to the material
      stored under that name and changes no other node; an unknown material, or a variable
      bound to null or to a group or transform, changes nothing. The variable is bound
      afterwards, to null when it was not. */
  lemma AssignMaterialSetsLeaf(st: State, text: string, c: Cursor,
                               v: string, c1: Cursor, m: string, c2: Cursor)
    requires Wf(st) && NextWord(text, c) == (v, c1) && NextWord(text, c1) == (m, c2)
    ensures var r := AssignMaterialStep(st, text, c);
            && r.err.None? && r.cur == c2
            && r.st.nodes == Subscript(st.nodes, v)
            && r.st.(nodes := st.nodes, heap := st.heap) == st
            && (LeafVar(st, v) && m in st.materials ==>
                  var id := st.nodes[v].value;
                  r.st.heap == st.heap[id := st.heap[id].(material := st.materials[m])])
            && (!LeafVar(st, v) || m !in st.materials ==> r.st.heap == st.heap)
  {
  }

  /** `assign-light <var> <light>` appends the light stored under that name to the lights of
      the node the variable is bound to, whatever its kind, and changes no other node; an
      unknown light or variable, or a variable bound to null, changes nothing at all. */
  lemma AssignLightAppends(st: State, text: string, c: Cursor,
                           v: string, c1: Cursor, l: string, c2: Cursor)
    requires Wf(st) && NextWord(text, c) == (v, c1) && NextWord(text, c1) == (l, c2)
    ensures var r := AssignLightStep(st, text, c);
            && r.err.None? && r.cur == c2
            && r.st.(heap := st.heap) == st
            && (v in st.nodes && st.nodes[v].Some? && l in st.lights ==>
                  var id := st.nodes[v].value;
                  r.st.heap == st.heap[id := WithLights(st.heap[id], st.heap[id].lights + [st.lights[l]])])
            && (!(v in st.nodes && st.nodes[v].Some? && l in st.lights) ==> r.st.heap == st.heap)
  {
  }

  /** `add-child <child> <parent>` appends the child's node to the children of the group or
      transform the parent variable is bound to, and changes no other node and no binding.
      A parent that is null, a leaf or unbound, or a child that is null or unbound, changes
      no node; the parent variable is then bound, to null when it was not. */
  lemma AddChildAppends(st: State, text: string, c: Cursor,
                        child: string, c1: Cursor, parent: string, c2: Cursor)
    requires Wf(st) && NextWord(text, c) == (child, c1) && NextWord(text, c1) == (parent, c2)
    ensures var r := AddChildStep(st, text, c);
            && r.err.None? && r.cur == c2
            && r.st.(nodes := st.nodes, heap := st.heap) == st
            && (ParentVar(st, parent) && child in st.nodes && st.nodes[child].Some? ==>
                  var p := st.nodes[parent].value;
                  && r.st.nodes == st.nodes
                  && r.st.heap == st.heap[p := WithChildren(st.heap[p],
                                                            st.heap[p].children + [st.nodes[child].value])])
            && (!(ParentVar(st, parent) && child in st.nodes && st.nodes[child].Some?) ==>
                  r.st.heap == st.heap && r.st.nodes == Subscript(st.nodes, parent))
  {
    if ParentVar(st, parent) && child in st.nodes && st.nodes[child].Some? {
      AddChildAttached(st, text, c, child, c1, parent, c2);
    } else {
      AddChildSkipped(st, text, c, child, c1, parent, c2);
    }
  }

  lemma AddChildAttached(st: State, text: string, c: Cursor,
                         child: string, c1: Cursor, parent: string, c2: Cursor)
    requires Wf(st) && NextWord(text, c) == (child, c1) && NextWord(text, c1) == (parent, c2)
    requires ParentVar(st, parent) && child in st.nodes && st.nodes[child].Some?
    ensures var p := st.nodes[parent].value;
            AddChildStep(st, text, c)
            == Step(st.(heap := st.heap[p := WithChildren(st.heap[p],
                                                          st.heap[p].children + [st.nodes[child].value])]),
                    c2, None)
  {
    assert Subscript(st.nodes, parent) == st.nodes;
  }

  lemma AddChildSkipped(st: State, text: string, c: Cursor,
                        child: string, c1: Cursor, parent: string, c2: Cursor)
    requires Wf(st) && NextWord(text, c) == (child, c1) && NextWord(text, c1) == (parent, c2)
    requires !(ParentVar(st, parent) && child in st.nodes && st.nodes[child].Some?)
    ensures AddChildStep(st, text, c) == Step(st.(nodes := Subscript(st.nodes, parent)), c2, None)
  {
    var nodes := Subscript(st.nodes, parent);
    var childId := if child in nodes then nodes[child] else None;
    assert nodes[parent] == (if parent in st.nodes then st.nodes[parent] else None);
    assert !(nodes[parent].Some? && IsParent(st.heap[nodes[parent].value]) && childId.Some?);
  }

  /** `assign-root <var>` of a bound variable makes the node it is bound to the root (null
      when it is bound to null) and changes nothing else. */
  lemma AssignRootOfBound(st: State, text: string, c: Cursor, v: string, c1: Cursor)
    requires Wf(st) && NextWord(text, c) == (v, c1) && v in st.nodes
    ensures SetRootStep(st, text, c) == Step(st.(root := Assigned(st.nodes[v])), c1, None)
  {
  }

  // ---------------------------------------------------------------------------------------
  // Material and light blocks

  /** A material block that reaches `end-material` stores one material under its name and
      leaves every other material alone. */
  lemma MaterialStoredUnderName(st: State, text: string, c: Cursor, name: string, c1: Cursor)
    requires NextWord(text, c) == (name, c1)
    ensures var r := MaterialStep(st, text, c);
            r.err.None? ==>
              && r.st.materials.Keys == st.materials.Keys + {name}
              && forall k :: k in st.materials && k != name ==> r.st.materials[k] == st.materials[k]
  {
  }

  /** `material <name> end-material` stores the default material. */
  lemma EmptyMaterialBlock(st: State, text: string, c: Cursor, name: string, c1: Cursor, c2: Cursor)
    requires NextWord(text, c) == (name, c1) && NextWord(text, c1) == ("end-material", c2)
    ensures MaterialStep(st, text, c) == Step(st.(materials := st.materials[name := DefaultMaterial]), c2, None)
  {
  }

  /** Each keyword of a material block reads its three numbers (a colour) or its one number and
      stores them in its own field, and no other; any other word changes nothing and reads
      nothing. */
  lemma MaterialFieldSetsOne(text: string, c: Cursor, command: string, m: Material)
    ensures var (m1, c1) := MaterialField(text, c, command, m);
            var (v, cv) := Read3(text, c);
            var (x, cx) := NextReal(text, c);
            && (command == "ambient" ==> m1 == m.(ambient := v) && c1 == cv)
            && (command == "diffuse" ==> m1 == m.(diffuse := v) && c1 == cv)
            && (command == "specular" ==> m1 == m.(specular := v) && c1 == cv)
            && (command == "emission" ==> m1 == m.(emission := v) && c1 == cv)
            && (command == "shininess" ==> m1 == m.(shininess := x) && c1 == cx)
            && (command == "absorption" ==> m1 == m.(absorption := x) && c1 == cx)
            && (command == "reflection" ==> m1 == m.(reflection := x) && c1 == cx)
            && (command == "transparency" ==> m1 == m.(transparency := x) && c1 == cx)
            && (command == "refractive-index" ==> m1 == m.(refractiveIndex := x) && c1 == cx)
            && (command !in MaterialKeywords ==> (m1, c1) == (m, c))
  {
  }

  const MaterialKeywords: set<string> :=
    {"ambient", "diffuse", "specular", "emission", "shininess", "absorption", "reflection",
     "transparency", "refractive-index"}

  /** A later line with the same keyword overwrites an earlier one: the earlier value is lost. */
  lemma MaterialLaterSettingWins(text: string, c: Cursor, c': Cursor, command: string, m: Material)
    ensures MaterialField(text, c', command, MaterialField(text, c, command, m).0)
            == MaterialField(text, c', command, m)
  {
  }

  /** A light block always stores one light under its name and leaves every other light
      alone. */
  lemma LightStoredUnderName(st: State, text: string, c: Cursor, name: string, c1: Cursor)
    requires NextWord(text, c) == (name, c1)
    ensures var r := LightStep(st, text, c);
            && r.st.lights.Keys == st.lights.Keys + {name}
            && forall k :: k in st.lights && k != name ==> r.st.lights[k] == st.lights[k]
  {
  }

  /** Each keyword of a light block reads its three numbers, or the angle, and stores them in
      its own field and no other; any other word changes nothing and reads nothing. A position
      is the point (x, y, z, 1) and a spot direction the direction (x, y, z). */
  lemma LightFieldSetsOne(text: string, c: Cursor, command: string, l: Light)
    ensures var (l1, c1) := LightField(text, c, command, l);
            var (v, cv) := Read3(text, c);
            var (x, cx) := NextReal(text, c);
            && (command == "ambient" ==> l1 == l.(ambient := v) && c1 == cv)
            && (command == "diffuse" ==> l1 == l.(diffuse := v) && c1 == cv)
            && (command == "specular" ==> l1 == l.(specular := v) && c1 == cv)
            && (command == "position" ==>
                  l1 == l.(position := HPoint(Identity, Vec4(v.x, v.y, v.z, 1.0))) && c1 == cv)
            && (command == "spot-direction" ==>
                  l1 == l.(spotDirection := LinDir([], v)) && c1 == cv)
            && (command == "spot-angle" ==> l1 == l.(spotAngle := x) && c1 == cx)
            && (command !in LightKeywords ==> (l1, c1) == (l, c))
  {
  }

  const LightKeywords: set<string> :=
    {"ambient", "diffuse", "specular", "position", "spot-direction", "spot-angle"}

  /** A later line with the same keyword overwrites an earlier one in a light block too. */
  lemma LightLaterSettingWins(text: string, c: Cursor, c': Cursor, command: string, l: Light)
    ensures LightField(text, c', command, LightField(text, c, command, l).0)
            == LightField(text, c', command, l)
  {
  }
}
