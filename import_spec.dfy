/** What parsing a scene description does, as functions over the importer's tables.

    The importer keeps a table of node variables, materials, meshes, mesh paths, texture paths
    and lights, a root pointer, and the heap of allocated nodes. A run reads one command word
    at a time and hands the stream to that command's handler; it ends when no command word is
    left, or with a fatal error. The handlers here are the specification that the importer
    class in `importer.dfy` is proved against. */
module ImportSpec {
  import opened Wrappers
  import opened Linear
  import opened Attributes
  import opened Nodes
  import opened Meshes
  import opened Scanner
  import opened Unfolding

  /** The fatal outcomes of a parse. `Diverges` stands for a handler that never returns (a
      material block whose input runs out, a copy of a node that reaches itself) and
      `ImportTooDeep` for imports nested deeper than the bound the model is given. */
  datatype ParseError =
    | Unrecognized(command: string)
    | NoRoot
    | Diverges
    | ImportTooDeep
    | NullDereference
    | IndeterminateRead

  /** The files the importer can open: scene descriptions by path, and the mesh the OBJ reader
      makes of each mesh file. */
  datatype Files = Files(scenes: map<string, string>, objs: map<string, MeshData>)

  /** The importer's root pointer: never assigned, or assigned a node or null. */
  datatype RootRef = Uninitialised | Assigned(ptr: Option<NodeId>)

  datatype State = State(
    heap: seq<NodeData>,
    nodes: map<string, Option<NodeId>>,
    materials: map<string, Material>,
    meshes: map<string, MeshData>,
    meshPaths: map<string, string>,
    root: RootRef,
    texturePaths: map<string, string>,
    lights: map<string, Light>)

  /** A freshly constructed importer with its root initialised to null. */
  const Empty: State := State([], map[], map[], map[], map[], Assigned(None), map[], map[])

  /** A freshly constructed importer as the source builds it: the constructor does not
      initialise the root pointer. */
  const EmptyAsWritten: State := Empty.(root := Uninitialised)

  /** The root is assigned a node. */
  predicate HasRoot(st: State) {
    st.root.Assigned? && st.root.ptr.Some?
  }

  /** Every pointer the importer holds points at an allocated node. */
  predicate Wf(st: State) {
    && Closed(st.heap)
    && (forall v :: v in st.nodes && st.nodes[v].Some? ==> st.nodes[v].value < |st.heap|)
    && (HasRoot(st) ==> st.root.ptr.value < |st.heap|)
  }

  predicate SameKind(a: NodeData, b: NodeData) {
    && a.name == b.name
    && (a.Group? ==> b.Group?)
    && (a.Transform? ==> b.Transform? && b.op == a.op)
    && (a.Leaf? ==> b.Leaf? && b.instanceOf == a.instanceOf)
  }

  /** The heap only grows, and every node keeps its variant, name, transform and instance. */
  predicate Evolves(h: seq<NodeData>, h': seq<NodeData>) {
    |h| <= |h'| && forall i :: 0 <= i < |h| ==> SameKind(h[i], h'[i])
  }

  lemma EvolvesTrans(h1: seq<NodeData>, h2: seq<NodeData>, h3: seq<NodeData>)
    requires Evolves(h1, h2) && Evolves(h2, h3)
    ensures Evolves(h1, h3)
  {
    forall i | 0 <= i < |h1| ensures SameKind(h1[i], h3[i]) {
      assert SameKind(h2[i], h3[i]);
    }
  }

  /** The result of one handler: the tables after it, where reading continues, and whether it
      ended the parse. */
  datatype Step = Step(st: State, cur: Cursor, err: Option<ParseError>)

  datatype Outcome = Outcome(st: State, err: Option<ParseError>)

  /** `nodes[v]` on the variable table: a variable not yet bound is first bound to null. */
  function Subscript(nodes: map<string, Option<NodeId>>, v: string)
    : (r: map<string, Option<NodeId>>)
    ensures v in r && r.Keys == nodes.Keys + {v}
    ensures forall k :: k in nodes ==> r[k] == nodes[k]
    ensures v !in nodes ==> r[v] == None
  {
    if v in nodes then nodes else nodes[v := None]
  }

  /** Allocates `d` and binds `v` to it, replacing any earlier binding of `v`. */
  function Bind(st: State, v: string, d: NodeData): (r: State)
    requires Wf(st) && ChildIds(d) == []
    ensures Wf(r) && Evolves(st.heap, r.heap) && |r.heap| == |st.heap| + 1
    ensures v in r.nodes && r.nodes[v] == Some(|st.heap|) && r.heap[|st.heap|] == d
  {
    ClosedSnoc(st.heap, d);
    SnocEvolves(st.heap, d);
    st.(heap := st.heap + [d], nodes := st.nodes[v := Some(|st.heap|)])
  }

  lemma SnocEvolves(h: seq<NodeData>, d: NodeData)
    ensures Evolves(h, h + [d])
  {
    forall i | 0 <= i < |h| ensures (h + [d])[i] == h[i] {
    }
  }

  /** Three numbers in a row. */
  function Read3(text: string, c: Cursor): (r: (Vec3, Cursor))
    ensures Left(text, r.1) <= Left(text, c)
  {
    var (x, c1) := NextReal(text, c);
    var (y, c2) := NextReal(text, c1);
    var (z, c3) := NextReal(text, c2);
    (Vec3(x, y, z), c3)
  }

  // ---------------------------------------------------------------------------------------
  // The handlers

  /** `instance <name> <path>`: records the path; the mesh only when the file opens. */
  function InstanceStep(fs: Files, st: State, text: string, c: Cursor): (r: Step)
    ensures r.st.heap == st.heap && r.st.nodes == st.nodes && r.st.root == st.root
    ensures r.err.None? && Left(text, r.cur) <= Left(text, c)
  {
    var (name, c1) := NextWord(text, c);
    var (path, c2) := NextWord(text, c1);
    var st1 := st.(meshPaths := st.meshPaths[name := path]);
    Step(if path in fs.objs then st1.(meshes := st1.meshes[name := fs.objs[path]]) else st1,
         c2, None)
  }

  /** `group <var> <name>`. */
  function GroupStep(st: State, text: string, c: Cursor): (r: Step)
    requires Wf(st)
    ensures Wf(r.st) && Evolves(st.heap, r.st.heap)
    ensures r.err.None? && Left(text, r.cur) <= Left(text, c)
  {
    var (v, c1) := NextWord(text, c);
    var (name, c2) := NextWord(text, c1);
    Step(Bind(st, v, Group(name, [], Identity, [])), c2, None)
  }

  /** `leaf <var> <name> instanceof <instance>`: the word after the name is always read, and the
      instance only when that word is `instanceof`. */
  function LeafStep(st: State, text: string, c: Cursor): (r: Step)
    requires Wf(st)
    ensures Wf(r.st) && Evolves(st.heap, r.st.heap)
    ensures r.err.None? && Left(text, r.cur) <= Left(text, c)
  {
    var (v, c1) := NextWord(text, c);
    var (name, c2) := NextWord(text, c1);
    var (command, c3) := NextWord(text, c2);
    var (instanceOf, c4) := if command == "instanceof" then NextWord(text, c3) else ("", c3);
    Step(Bind(st, v, Leaf(name, [], instanceOf, DefaultMaterial, "")), c4, None)
  }

  /** `scale <var> <name> <sx> <sy> <sz>`. */
  function ScaleStep(st: State, text: string, c: Cursor): (r: Step)
    requires Wf(st)
    ensures Wf(r.st) && Evolves(st.heap, r.st.heap)
    ensures r.err.None? && Left(text, r.cur) <= Left(text, c)
  {
    var (v, c1) := NextWord(text, c);
    var (name, c2) := NextWord(text, c1);
    var (s, c3) := Read3(text, c2);
    Step(Bind(st, v, Transform(name, [], Identity, Nodes.Scale(s.x, s.y, s.z), [])), c3, None)
  }

  /** `translate <var> <name> <tx> <ty> <tz>`. */
  function TranslateStep(st: State, text: string, c: Cursor): (r: Step)
    requires Wf(st)
    ensures Wf(r.st) && Evolves(st.heap, r.st.heap)
    ensures r.err.None? && Left(text, r.cur) <= Left(text, c)
  {
    var (v, c1) := NextWord(text, c);
    var (name, c2) := NextWord(text, c1);
    var (t, c3) := Read3(text, c2);
    Step(Bind(st, v, Transform(name, [], Identity, Translate(t.x, t.y, t.z), [])), c3, None)
  }

  /** `rotate <var> <name> <degrees> <ax> <ay> <az>`: the node keeps the angle in radians. */
  function RotateStep(st: State, text: string, c: Cursor): (r: Step)
    requires Wf(st)
    ensures Wf(r.st) && Evolves(st.heap, r.st.heap)
    ensures r.err.None? && Left(text, r.cur) <= Left(text, c)
  {
    var (v, c1) := NextWord(text, c);
    var (name, c2) := NextWord(text, c1);
    var (degrees, c3) := NextReal(text, c2);
    var (a, c4) := Read3(text, c3);
    Step(Bind(st, v, Transform(name, [], Identity,
                               Rotate(Radians(degrees), a.x, a.y, a.z), [])), c4, None)
  }

  /** `image <name> <path>`. */
  function ImageStep(st: State, text: string, c: Cursor): (r: Step)
    ensures r.st == st.(texturePaths := r.st.texturePaths)
    ensures r.err.None? && Left(text, r.cur) <= Left(text, c)
  {
    var (texName, c1) := NextWord(text, c);
    var (texPath, c2) := NextWord(text, c1);
    Step(st.(texturePaths := st.texturePaths[texName := texPath]), c2, None)
  }

  /** `assign-texture <var> <texture>`: only a leaf takes a texture name. */
  function AssignTextureStep(st: State, text: string, c: Cursor): (r: Step)
    requires Wf(st)
    ensures Wf(r.st) && Evolves(st.heap, r.st.heap)
    ensures r.err.None? && Left(text, r.cur) <= Left(text, c)
  {
    var (nodeName, c1) := NextWord(text, c);
    var (texName, c2) := NextWord(text, c1);
    var nodes := Subscript(st.nodes, nodeName);
    var entry := nodes[nodeName];
    var heap := if entry.Some? && st.heap[entry.value].Leaf?
                then st.heap[entry.value := st.heap[entry.value].(texture := texName)]
                else st.heap;
    Step(st.(nodes := nodes, heap := heap), c2, None)
  }

  /** One line of a material block; an unknown keyword changes nothing and reads nothing. */
  function MaterialField(text: string, c: Cursor, command: string, m: Material)
    : (r: (Material, Cursor))
    ensures Left(text, r.1) <= Left(text, c)
  {
    if command == "ambient" then var (v, c1) := Read3(text, c); (m.(ambient := v), c1)
    else if command == "diffuse" then var (v, c1) := Read3(text, c); (m.(diffuse := v), c1)
    else if command == "specular" then var (v, c1) := Read3(text, c); (m.(specular := v), c1)
    else if command == "emission" then var (v, c1) := Read3(text, c); (m.(emission := v), c1)
    else if command == "shininess" then
      var (x, c1) := NextReal(text, c); (m.(shininess := x), c1)
    else if command == "absorption" then
      var (x, c1) := NextReal(text, c); (m.(absorption := x), c1)
    else if command == "reflection" then
      var (x, c1) := NextReal(text, c); (m.(reflection := x), c1)
    else if command == "transparency" then
      var (x, c1) := NextReal(text, c); (m.(transparency := x), c1)
    else if command == "refractive-index" then
      var (x, c1) := NextReal(text, c); (m.(refractiveIndex := x), c1)
    else (m, c)
  }

  /** The material loop from the point where `command` has just been read: it stops at
      `end-material`. Once the stream has failed, `command` can no longer change and the
      source's loop never ends: `None`. */
  function MaterialLoop(text: string, command: string, c: Cursor, m: Material)
    : (r: Option<(Material, Cursor)>)
    ensures r.Some? ==> Left(text, r.value.1) <= Left(text, c)
    decreases Left(text, c)
  {
    if command == "end-material" then Some((m, c))
    else if c.failed then None
    else
      var (m1, c1) := MaterialField(text, c, command, m);
      var (next, c2) := NextWord(text, c1);
      MaterialLoop(text, next, c2, m1)
  }

  /** `material <name> ... end-material`. */
  function MaterialStep(st: State, text: string, c: Cursor): (r: Step)
    ensures r.st == st.(materials := r.st.materials)
    ensures r.err.Some? ==> r.err == Some(Diverges)
    ensures Left(text, r.cur) <= Left(text, c)
  {
    var (name, c1) := NextWord(text, c);
    var (command, c2) := NextWord(text, c1);
    match MaterialLoop(text, command, c2, DefaultMaterial)
    case None => Step(st, c2, Some(Diverges))
    case Some((m, c3)) => Step(st.(materials := st.materials[name := m]), c3, None)
  }

  /** One line of a light block; an unknown keyword changes nothing and reads nothing. */
  function LightField(text: string, c: Cursor, command: string, l: Light): (r: (Light, Cursor))
    ensures Left(text, r.1) <= Left(text, c)
  {
    if command == "ambient" then var (v, c1) := Read3(text, c); (l.(ambient := v), c1)
    else if command == "diffuse" then var (v, c1) := Read3(text, c); (l.(diffuse := v), c1)
    else if command == "specular" then var (v, c1) := Read3(text, c); (l.(specular := v), c1)
    else if command == "position" then
      var (v, c1) := Read3(text, c); (l.(position := PointAt(v.x, v.y, v.z)), c1)
    else if command == "spot-direction" then
      var (v, c1) := Read3(text, c); (l.(spotDirection := LinDir([], v)), c1)
    else if command == "spot-angle" then
      var (x, c1) := NextReal(text, c); (l.(spotAngle := x), c1)
    else (l, c)
  }

  /** The lines of a light block, up to `end-light` or the end of the input. */
  function LightBlock(text: string, c: Cursor, l: Light): (r: (Light, Cursor))
    ensures Left(text, r.1) <= Left(text, c)
    decreases Left(text, c)
  {
    var (command, c1) := NextWord(text, c);
    if c1.failed || command == "end-light" then (l, c1)
    else
      var (l1, c2) := LightField(text, c1, command, l);
      LightBlock(text, c2, l1)
  }

  /** `light <name> ... end-light`. */
  function LightStep(st: State, text: string, c: Cursor): (r: Step)
    ensures r.st == st.(lights := r.st.lights)
    ensures r.err.None? && Left(text, r.cur) <= Left(text, c)
  {
    var (v, c1) := NextWord(text, c);
    var (l, c2) := LightBlock(text, c1, DefaultLight);
    Step(st.(lights := st.lights[v := l]), c2, None)
  }

  /** `copy <var> <of>` with the null check the source omits: a variable bound to null is
      skipped like an unbound one. A node that reaches itself cannot be cloned. */
  function CopyStep(st: State, text: string, c: Cursor): (r: Step)
    requires Wf(st)
    ensures Wf(r.st) && Evolves(st.heap, r.st.heap)
    ensures r.err.Some? ==> r.err == Some(Diverges)
    ensures Left(text, r.cur) <= Left(text, c)
  {
    var (nodename, c1) := NextWord(text, c);
    var (copyof, c2) := NextWord(text, c1);
    if copyof !in st.nodes || st.nodes[copyof].None? then Step(st, c2, None)
    else
      var id := st.nodes[copyof].value;
      match Unfold(st.heap, id)
      case None => Step(st, c2, Some(Diverges))
      case Some(t) =>
        CopyKeepsWf(st, id, t, nodename);
        Step(st.(heap := CloneF(st.heap, t), nodes := st.nodes[nodename := Some(|st.heap|)]),
             c2, None)
  }

  /** Cloning a tree the heap holds and binding `v` to the clone keeps every pointer
      allocated and changes no existing node. */
  lemma CopyKeepsWf(st: State, id: NodeId, t: Tree, v: string)
    requires Wf(st) && Unfolds(st.heap, id, t)
    ensures var st' := st.(heap := CloneF(st.heap, t), nodes := st.nodes[v := Some(|st.heap|)]);
            Wf(st') && Evolves(st.heap, st'.heap)
  {
    CloneKeepsClosed(st.heap, id, t);
    var h' := CloneF(st.heap, t);
    forall i | 0 <= i < |st.heap| ensures h'[i] == st.heap[i] {
      assert h'[i] == h'[..|st.heap|][i];
    }
  }

  /** `copy <var> <of>` as the source writes it: a variable bound to null passes the lookup
      and is then dereferenced. */
  function CopyStepAsWritten(st: State, text: string, c: Cursor): (r: Step)
    requires Wf(st)
    ensures r.err == Some(NullDereference) ==> r.st == st
    ensures r.err != Some(NullDereference) ==> r == CopyStep(st, text, c)
    ensures Left(text, r.cur) <= Left(text, c)
  {
    var (nodename, c1) := NextWord(text, c);
    var (copyof, c2) := NextWord(text, c1);
    if copyof in st.nodes && st.nodes[copyof].None? then Step(st, c2, Some(NullDereference))
    else CopyStep(st, text, c)
  }

  /** `assign-light <var> <light>`: both must exist; any node takes lights. */
  function AssignLightStep(st: State, text: string, c: Cursor): (r: Step)
    requires Wf(st)
    ensures Wf(r.st) && Evolves(st.heap, r.st.heap)
    ensures r.err.None? && Left(text, r.cur) <= Left(text, c)
  {
    var (nodeName, c1) := NextWord(text, c);
    var (lightName, c2) := NextWord(text, c1);
    if nodeName in st.nodes && lightName in st.lights && st.nodes[nodeName].Some? then
      var id := st.nodes[nodeName].value;
      Step(st.(heap := st.heap[id := WithLights(st.heap[id],
                                                st.heap[id].lights + [st.lights[lightName]])]),
           c2, None)
    else Step(st, c2, None)
  }

  /** `assign-material <var> <material>`: only a leaf takes a material, and only a known one. */
  function AssignMaterialStep(st: State, text: string, c: Cursor): (r: Step)
    requires Wf(st)
    ensures Wf(r.st) && Evolves(st.heap, r.st.heap)
    ensures r.err.None? && Left(text, r.cur) <= Left(text, c)
  {
    var (nodename, c1) := NextWord(text, c);
    var (matname, c2) := NextWord(text, c1);
    var nodes := Subscript(st.nodes, nodename);
    var entry := nodes[nodename];
    var heap := if entry.Some? && st.heap[entry.value].Leaf? && matname in st.materials
                then st.heap[entry.value := st.heap[entry.value].(material := st.materials[matname])]
                else st.heap;
    Step(st.(nodes := nodes, heap := heap), c2, None)
  }

  /** `add-child <child> <parent>`: the child pointer is appended to a group's or transform's
      children. */
  function AddChildStep(st: State, text: string, c: Cursor): (r: Step)
    requires Wf(st)
    ensures Wf(r.st) && Evolves(st.heap, r.st.heap)
    ensures r.err.None? && Left(text, r.cur) <= Left(text, c)
  {
    var (childname, c1) := NextWord(text, c);
    var (parentname, c2) := NextWord(text, c1);
    var nodes := Subscript(st.nodes, parentname);
    var parent := nodes[parentname];
    var child := if childname in nodes then nodes[childname] else None;
    if parent.Some? && IsParent(st.heap[parent.value]) && child.Some? then
      var p := parent.value;
      var heap := st.heap[p := WithChildren(st.heap[p], st.heap[p].children + [child.value])];
      assert ChildIds(st.heap[p]) == st.heap[p].children;
      ClosedAttach(st.heap, p, child.value);
      Step(st.(nodes := nodes, heap := heap), c2, None)
    else Step(st.(nodes := nodes), c2, None)
  }

  /** `assign-root <var>`: an unbound variable is bound to null and the root becomes null. */
  function SetRootStep(st: State, text: string, c: Cursor): (r: Step)
    requires Wf(st)
    ensures Wf(r.st) && r.st.heap == st.heap
    ensures r.err.None? && Left(text, r.cur) <= Left(text, c)
  {
    var (rootname, c1) := NextWord(text, c);
    var nodes := Subscript(st.nodes, rootname);
    Step(st.(nodes := nodes, root := Assigned(nodes[rootname])), c1, None)
  }

  // ---------------------------------------------------------------------------------------
  // Runs

  predicate IsCommand(w: string) {
    || w == "instance" || w == "group" || w == "leaf" || w == "material" || w == "scale"
    || w == "rotate" || w == "translate" || w == "copy" || w == "import"
    || w == "assign-material" || w == "add-child" || w == "assign-root" || w == "light"
    || w == "assign-light" || w == "image" || w == "assign-texture"
  }

  /** `import <var> <path>`: when the file opens, the same importer parses it, so its bindings,
      tables and root land in the shared state; then the variable is bound to the root. */
  function ImportStep(fs: Files, st: State, text: string, c: Cursor, depth: nat): (r: Step)
    requires Wf(st)
    ensures Wf(r.st) && Evolves(st.heap, r.st.heap)
    ensures Left(text, r.cur) <= Left(text, c)
    decreases depth, Left(text, c), 1
  {
    var (nodename, c1) := NextWord(text, c);
    var (path, c2) := NextWord(text, c1);
    if path !in fs.scenes then Step(st, c2, None)
    else if depth == 0 then Step(st, c2, Some(ImportTooDeep))
    else
      var o := ParseFile(fs, st, fs.scenes[path], depth - 1);
      if o.err.Some? then Step(o.st, c2, o.err)
      else Step(o.st.(nodes := o.st.nodes[nodename := o.st.root.ptr]), c2, None)
  }

  /** The handler a command word selects; any other word is fatal. */
  function Command(fs: Files, st: State, text: string, command: string, c: Cursor, depth: nat)
    : (r: Step)
    requires Wf(st)
    ensures Wf(r.st) && Evolves(st.heap, r.st.heap)
    ensures Left(text, r.cur) <= Left(text, c)
    ensures !IsCommand(command) ==> r == Step(st, c, Some(Unrecognized(command)))
    ensures r.err.Some? && IsCommand(command) && command != "import" ==>
              (command == "material" || command == "copy") && r.err == Some(Diverges)
    decreases depth, Left(text, c), 2
  {
    if command == "instance" then InstanceStep(fs, st, text, c)
    else if command == "group" then GroupStep(st, text, c)
    else if command == "leaf" then LeafStep(st, text, c)
    else if command == "material" then MaterialStep(st, text, c)
    else if command == "scale" then ScaleStep(st, text, c)
    else if command == "rotate" then RotateStep(st, text, c)
    else if command == "translate" then TranslateStep(st, text, c)
    else if command == "copy" then CopyStep(st, text, c)
    else if command == "import" then ImportStep(fs, st, text, c, depth)
    else if command == "assign-material" then AssignMaterialStep(st, text, c)
    else if command == "add-child" then AddChildStep(st, text, c)
    else if command == "assign-root" then SetRootStep(st, text, c)
    else if command == "light" then LightStep(st, text, c)
    else if command == "assign-light" then AssignLightStep(st, text, c)
    else if command == "image" then ImageStep(st, text, c)
    else if command == "assign-texture" then AssignTextureStep(st, text, c)
    else Step(st, c, Some(Unrecognized(command)))
  }

  /** The command loop over comment-free text: read a word, run its handler, repeat until no
      word is left or a handler fails. */
  function Run(fs: Files, st: State, text: string, c: Cursor, depth: nat): (o: Outcome)
    requires Wf(st)
    ensures Wf(o.st) && Evolves(st.heap, o.st.heap)
    decreases depth, Left(text, c), 3
  {
    var (command, c1) := NextWord(text, c);
    if c1.failed then Outcome(st, None)
    else
      var s := Command(fs, st, text, command, c1, depth);
      if s.err.Some? then Outcome(s.st, s.err)
      else
        var o := Run(fs, s.st, text, s.cur, depth);
        EvolvesTrans(st.heap, s.st.heap, o.st.heap);
        o
  }

  /** `parse`: strip comments, run the commands, and insist on a root at the end. */
  function ParseFile(fs: Files, st: State, input: string, depth: nat): (o: Outcome)
    requires Wf(st)
    ensures Wf(o.st) && Evolves(st.heap, o.st.heap)
    ensures o.err.None? ==> HasRoot(o.st)
    decreases depth, |Stripped(input)| + 2, 0
  {
    var o := Run(fs, st, Stripped(input), Start, depth);
    if o.err.Some? then o
    else match o.st.root
      case Uninitialised => Outcome(o.st, Some(IndeterminateRead))
      case Assigned(None) => Outcome(o.st, Some(NoRoot))
      case Assigned(Some(_)) => o
  }

  /** What `parse` hands back: the root, with the heap it points into, and the mesh tables. */
  datatype Scenegraph = Scenegraph(
    heap: seq<NodeData>, root: NodeId,
    meshes: map<string, MeshData>, meshPaths: map<string, string>)

  function ResultOf(o: Outcome): (r: Result<Scenegraph, ParseError>)
    requires o.err.None? ==> HasRoot(o.st)
    ensures r.Ok? <==> o.err.None?
  {
    if o.err.Some? then Err(o.err.value)
    else Ok(Scenegraph(o.st.heap, o.st.root.ptr.value, o.st.meshes, o.st.meshPaths))
  }

  /** A fresh importer parsing one scene description. */
  function Parse(fs: Files, input: string, depth: nat): (r: Result<Scenegraph, ParseError>)
    ensures r.Ok? ==> Closed(r.value.heap) && r.value.root < |r.value.heap|
  {
    ResultOf(ParseFile(fs, Empty, input, depth))
  }

  /** A fresh importer as the source constructs it, root uninitialised, parsing one scene
      description. */
  function ParseAsWritten(fs: Files, input: string, depth: nat): (r: Result<Scenegraph, ParseError>)
    ensures r.Ok? ==> Closed(r.value.heap) && r.value.root < |r.value.heap|
  {
    ResultOf(ParseFile(fs, EmptyAsWritten, input, depth))
  }
}
