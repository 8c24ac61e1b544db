/** The scene-description importer as an object whose tables its handlers update in place,
    each handler proved to do what the matching function of `ImportSpec` says. */
module Importer {
  import opened Wrappers
  import opened Linear
  import opened Attributes
  import opened Nodes
  import opened Meshes
  import opened Scanner
  import opened Unfolding
  import opened ImportSpec

  class ScenegraphImporter {
    /** The files that open, fixed for the importer's lifetime. */
    const files: Files
    /** Where `new` puts the nodes the importer creates. */
    const heap: NodeHeap
    var nodes: map<string, Option<NodeId>>
    var materials: map<string, Material>
    var meshes: map<string, MeshData>
    var meshPaths: map<string, string>
    var root: RootRef
    var texturePaths: map<string, string>
    var lightTable: map<string, Light>

    function Snapshot(): State
      reads this, heap
    {
      State(heap.nodes, nodes, materials, meshes, meshPaths, root, texturePaths, lightTable)
    }

    ghost predicate Valid()
      reads this, heap
    {
      Wf(Snapshot())
    }

    constructor (files: Files)
      ensures this.files == files && fresh(heap)
      ensures Valid() && Snapshot() == Empty
    {
      this.files := files;
      heap := new NodeHeap();
      nodes := map[];
      materials := map[];
      meshes := map[];
      meshPaths := map[];
      root := Assigned(None);
      texturePaths := map[];
      lightTable := map[];
    }

    /** The constructor as the source writes it: every table starts empty, but the root
        pointer is not initialised. */
    constructor AsWritten(files: Files)
      ensures this.files == files && fresh(heap)
      ensures Valid() && Snapshot() == EmptyAsWritten
    {
      this.files := files;
      heap := new NodeHeap();
      nodes := map[];
      materials := map[];
      meshes := map[];
      meshPaths := map[];
      root := Uninitialised;
      texturePaths := map[];
      lightTable := map[];
    }

    /** `parse`: strips the comments, runs the command loop, and hands back the root. */
    method Parse(input: string, depth: nat) returns (r: Result<Scenegraph, ParseError>)
      requires Valid()
      modifies this, heap
      ensures Valid()
      ensures var o := ParseFile(files, old(Snapshot()), input, depth);
              Snapshot() == o.st && r == ResultOf(o)
      decreases depth, 3
    {
      var clean := StripComments(input);
      var err := RunCommands(clean, depth);
      if err.Some? {
        return Err(err.value);
      }
      match root
      case Uninitialised =>
        r := Err(IndeterminateRead);
      case Assigned(None) =>
        r := Err(NoRoot);
      case Assigned(Some(id)) =>
        r := Ok(Scenegraph(heap.nodes, id, meshes, meshPaths));
    }

    /** The `while (input >> command)` loop of `parse`. */
    method RunCommands(text: string, depth: nat) returns (err: Option<ParseError>)
      requires Valid()
      modifies this, heap
      ensures Valid()
      ensures Outcome(Snapshot(), err) == Run(files, old(Snapshot()), text, Start, depth)
      decreases depth, 2
    {
      var cur := Start;
      while true
        invariant Valid()
        invariant Run(files, Snapshot(), text, cur, depth)
                  == Run(files, old(Snapshot()), text, Start, depth)
        decreases Left(text, cur)
      {
        var (command, c1) := NextWord(text, cur);
        if c1.failed {
          return None;
        }
        var c2, e := Dispatch(text, command, c1, depth);
        if e.Some? {
          return e;
        }
        cur := c2;
      }
    }

    method Dispatch(text: string, command: string, c: Cursor, depth: nat)
      returns (cur: Cursor, err: Option<ParseError>)
      requires Valid()
      modifies this, heap
      ensures Valid()
      ensures Step(Snapshot(), cur, err) == Command(files, old(Snapshot()), text, command, c, depth)
      decreases depth, 1
    {
      err := None;
      if command == "instance" {
        cur := ParseInstance(text, c);
      } else if command == "group" {
        cur := ParseGroup(text, c);
      } else if command == "leaf" {
        cur := ParseLeaf(text, c);
      } else if command == "material" {
        cur, err := ParseMaterial(text, c);
      } else if command == "scale" {
        cur := ParseScale(text, c);
      } else if command == "rotate" {
        cur := ParseRotate(text, c);
      } else if command == "translate" {
        cur := ParseTranslate(text, c);
      } else if command == "copy" {
        cur, err := ParseCopy(text, c);
      } else if command == "import" {
        cur, err := ParseImport(text, c, depth);
      } else if command == "assign-material" {
        cur := ParseAssignMaterial(text, c);
      } else if command == "add-child" {
        cur := ParseAddChild(text, c);
      } else if command == "assign-root" {
        cur := ParseSetRoot(text, c);
      } else if command == "light" {
        cur := ParseLight(text, c);
      } else if command == "assign-light" {
        cur := ParseAssignLight(text, c);
      } else if command == "image" {
        cur := ParseImage(text, c);
      } else if command == "assign-texture" {
        cur := ParseAssignTexture(text, c);
      } else {
        cur := c;
        err := Some(Unrecognized(command));
      }
    }

    method ParseInstance(text: string, c: Cursor) returns (cur: Cursor)
      requires Valid()
      modifies this
      ensures Valid()
      ensures Step(Snapshot(), cur, None) == InstanceStep(files, old(Snapshot()), text, c)
    {
      var (name, c1) := NextWord(text, c);
      var (path, c2) := NextWord(text, c1);
      meshPaths := meshPaths[name := path];
      if path in files.objs {
        meshes := meshes[name := files.objs[path]];
      }
      cur := c2;
    }

    method ParseGroup(text: string, c: Cursor) returns (cur: Cursor)
      requires Valid()
      modifies this, heap
      ensures Valid()
      ensures Step(Snapshot(), cur, None) == GroupStep(old(Snapshot()), text, c)
    {
      var (varname, c1) := NextWord(text, c);
      var (name, c2) := NextWord(text, c1);
      ghost var st0 := Snapshot();
      var group := heap.NewGroup(name);
      nodes := nodes[varname := Some(group)];
      assert Snapshot() == Bind(st0, varname, Group(name, [], Identity, []));
      cur := c2;
    }

    method ParseLeaf(text: string, c: Cursor) returns (cur: Cursor)
      requires Valid()
      modifies this, heap
      ensures Valid()
      ensures Step(Snapshot(), cur, None) == LeafStep(old(Snapshot()), text, c)
    {
      var (varname, c1) := NextWord(text, c);
      var (name, c2) := NextWord(text, c1);
      var (command, c3) := NextWord(text, c2);
      var instanceOf := "";
      cur := c3;
      if command == "instanceof" {
        instanceOf, cur := NextWord(text, c3).0, NextWord(text, c3).1;
      }
      ghost var st0 := Snapshot();
      var leaf := heap.NewLeaf(instanceOf, name);
      nodes := nodes[varname := Some(leaf)];
      assert Snapshot() == Bind(st0, varname, Leaf(name, [], instanceOf, DefaultMaterial, ""));
    }

    method ParseScale(text: string, c: Cursor) returns (cur: Cursor)
      requires Valid()
      modifies this, heap
      ensures Valid()
      ensures Step(Snapshot(), cur, None) == ScaleStep(old(Snapshot()), text, c)
    {
      var (varname, c1) := NextWord(text, c);
      var (name, c2) := NextWord(text, c1);
      var (sx, c3) := NextReal(text, c2);
      var (sy, c4) := NextReal(text, c3);
      var (sz, c5) := NextReal(text, c4);
      ghost var st0 := Snapshot();
      var scaleNode := heap.NewTransform(Nodes.Scale(sx, sy, sz), name);
      nodes := nodes[varname := Some(scaleNode)];
      assert Snapshot() == Bind(st0, varname, Transform(name, [], Identity, Nodes.Scale(sx, sy, sz), []));
      cur := c5;
    }

    method ParseTranslate(text: string, c: Cursor) returns (cur: Cursor)
      requires Valid()
      modifies this, heap
      ensures Valid()
      ensures Step(Snapshot(), cur, None) == TranslateStep(old(Snapshot()), text, c)
    {
      var (varname, c1) := NextWord(text, c);
      var (name, c2) := NextWord(text, c1);
      var (tx, c3) := NextReal(text, c2);
      var (ty, c4) := NextReal(text, c3);
      var (tz, c5) := NextReal(text, c4);
      ghost var st0 := Snapshot();
      var translateNode := heap.NewTransform(Translate(tx, ty, tz), name);
      nodes := nodes[varname := Some(translateNode)];
      assert Snapshot() == Bind(st0, varname, Transform(name, [], Identity, Translate(tx, ty, tz), []));
      cur := c5;
    }

    method ParseRotate(text: string, c: Cursor) returns (cur: Cursor)
      requires Valid()
      modifies this, heap
      ensures Valid()
      ensures Step(Snapshot(), cur, None) == RotateStep(old(Snapshot()), text, c)
    {
      var (varname, c1) := NextWord(text, c);
      var (name, c2) := NextWord(text, c1);
      var (angleInDegrees, c3) := NextReal(text, c2);
      var (axis, c6) := Read3(text, c3);
      var radians := Radians(angleInDegrees);
      ghost var st0 := Snapshot();
      var rotateNode := heap.NewTransform(Rotate(radians, axis.x, axis.y, axis.z), name);
      nodes := nodes[varname := Some(rotateNode)];
      assert Snapshot() ==
             Bind(st0, varname, Transform(name, [], Identity, Rotate(radians, axis.x, axis.y, axis.z), []));
      cur := c6;
    }

    method ParseImage(text: string, c: Cursor) returns (cur: Cursor)
      requires Valid()
      modifies this
      ensures Valid()
      ensures Step(Snapshot(), cur, None) == ImageStep(old(Snapshot()), text, c)
    {
      var (texName, c1) := NextWord(text, c);
      var (texPath, c2) := NextWord(text, c1);
      texturePaths := texturePaths[texName := texPath];
      cur := c2;
    }

    method ParseAssignTexture(text: string, c: Cursor) returns (cur: Cursor)
      requires Valid()
      modifies this, heap
      ensures Valid()
      ensures Step(Snapshot(), cur, None) == AssignTextureStep(old(Snapshot()), text, c)
    {
      var (nodeName, c1) := NextWord(text, c);
      var (texName, c2) := NextWord(text, c1);
      nodes := Subscript(nodes, nodeName);
      var leafNode := nodes[nodeName];
      if leafNode.Some? && heap.nodes[leafNode.value].Leaf? {
        heap.SetTexture(leafNode.value, texName);
      }
      cur := c2;
    }

    method ParseMaterial(text: string, c: Cursor) returns (cur: Cursor, err: Option<ParseError>)
      requires Valid()
      modifies this
      ensures Valid()
      ensures Step(Snapshot(), cur, err) == MaterialStep(old(Snapshot()), text, c)
    {
      var mat := DefaultMaterial;
      var (name, c1) := NextWord(text, c);
      var (command, c2) := NextWord(text, c1);
      cur := c2;
      while command != "end-material"
        invariant MaterialLoop(text, command, cur, mat)
                  == MaterialLoop(text, NextWord(text, c1).0, c2, DefaultMaterial)
        invariant unchanged(this)
        decreases Left(text, cur)
      {
        if cur.failed {
          // the stream has failed: `command` never changes again and the loop never ends
          return c2, Some(Diverges);
        }
        var r, g, b;
        var c3 := cur;
        if command == "ambient" {
          r, g, b, c3 := ReadColor(text, cur);
          mat := mat.(ambient := Vec3(r, g, b));
        } else if command == "diffuse" {
          r, g, b, c3 := ReadColor(text, cur);
          mat := mat.(diffuse := Vec3(r, g, b));
        } else if command == "specular" {
          r, g, b, c3 := ReadColor(text, cur);
          mat := mat.(specular := Vec3(r, g, b));
        } else if command == "emission" {
          r, g, b, c3 := ReadColor(text, cur);
          mat := mat.(emission := Vec3(r, g, b));
        } else if command == "shininess" {
          r, c3 := NextReal(text, cur).0, NextReal(text, cur).1;
          mat := mat.(shininess := r);
        } else if command == "absorption" {
          r, c3 := NextReal(text, cur).0, NextReal(text, cur).1;
          mat := mat.(absorption := r);
        } else if command == "reflection" {
          r, c3 := NextReal(text, cur).0, NextReal(text, cur).1;
          mat := mat.(reflection := r);
        } else if command == "transparency" {
          r, c3 := NextReal(text, cur).0, NextReal(text, cur).1;
          mat := mat.(transparency := r);
        } else if command == "refractive-index" {
          r, c3 := NextReal(text, cur).0, NextReal(text, cur).1;
          mat := mat.(refractiveIndex := r);
        }
        command, cur := NextWord(text, c3).0, NextWord(text, c3).1;
      }
      materials := materials[name := mat];
      err := None;
    }

    /** `input >> r >> g >> b`. */
    method ReadColor(text: string, c: Cursor) returns (r: real, g: real, b: real, cur: Cursor)
      ensures (Vec3(r, g, b), cur) == Read3(text, c)
    {
      var c1, c2;
      r, c1 := NextReal(text, c).0, NextReal(text, c).1;
      g, c2 := NextReal(text, c1).0, NextReal(text, c1).1;
      b, cur := NextReal(text, c2).0, NextReal(text, c2).1;
    }

    method ParseLight(text: string, c: Cursor) returns (cur: Cursor)
      requires Valid()
      modifies this
      ensures Valid()
      ensures Step(Snapshot(), cur, None) == LightStep(old(Snapshot()), text, c)
    {
      var (varname, c1) := NextWord(text, c);
      var l := DefaultLight;
      cur := c1;
      while true
        invariant LightBlock(text, cur, l) == LightBlock(text, c1, DefaultLight)
        invariant unchanged(this)
        decreases Left(text, cur)
      {
        var (command, c2) := NextWord(text, cur);
        if c2.failed || command == "end-light" {
          cur := c2;
          break;
        }
        var x, y, z;
        var c3 := c2;
        if command == "ambient" {
          x, y, z, c3 := ReadColor(text, c2);
          l := l.(ambient := Vec3(x, y, z));
        } else if command == "diffuse" {
          x, y, z, c3 := ReadColor(text, c2);
          l := l.(diffuse := Vec3(x, y, z));
        } else if command == "specular" {
          x, y, z, c3 := ReadColor(text, c2);
          l := l.(specular := Vec3(x, y, z));
        } else if command == "position" {
          x, y, z, c3 := ReadColor(text, c2);
          l := l.(position := PointAt(x, y, z));
        } else if command == "spot-direction" {
          x, y, z, c3 := ReadColor(text, c2);
          l := l.(spotDirection := LinDir([], Vec3(x, y, z)));
        } else if command == "spot-angle" {
          x, c3 := NextReal(text, c2).0, NextReal(text, c2).1;
          l := l.(spotAngle := x);
        }
        cur := c3;
      }
      lightTable := lightTable[varname := l];
    }

    method ParseCopy(text: string, c: Cursor) returns (cur: Cursor, err: Option<ParseError>)
      requires Valid()
      modifies this, heap
      ensures Valid()
      ensures Step(Snapshot(), cur, err) == CopyStep(old(Snapshot()), text, c)
    {
      var (nodename, c1) := NextWord(text, c);
      var (copyof, c2) := NextWord(text, c1);
      cur, err := c2, None;
      if copyof in nodes && nodes[copyof].Some? {
        var id := nodes[copyof].value;
        // `clone()` recurses through the children; it returns only when the node unfolds
        var t := Unfold(heap.nodes, id);
        if t.None? {
          err := Some(Diverges);
          return;
        }
        var copy := heap.Clone(id, t.value);
        nodes := nodes[nodename := Some(copy)];
      }
    }

    method ParseImport(text: string, c: Cursor, depth: nat)
      returns (cur: Cursor, err: Option<ParseError>)
      requires Valid()
      modifies this, heap
      ensures Valid()
      ensures Step(Snapshot(), cur, err) == ImportStep(files, old(Snapshot()), text, c, depth)
      decreases depth, 0
    {
      ghost var st0 := Snapshot();
      var (nodename, c1) := NextWord(text, c);
      var (filepath, c2) := NextWord(text, c1);
      cur, err := c2, None;
      if filepath in files.scenes {
        if depth == 0 {
          err := Some(ImportTooDeep);
          return;
        }
        var importedSG := Parse(files.scenes[filepath], depth - 1);
        ghost var o := ParseFile(files, st0, files.scenes[filepath], depth - 1);
        assert Snapshot() == o.st && importedSG == ResultOf(o);
        match importedSG
        case Err(e) =>
          err := Some(e);
        case Ok(sg) =>
          assert o.err.None? && o.st.root == Assigned(Some(sg.root));
          nodes := nodes[nodename := Some(sg.root)];
          assert Snapshot() == o.st.(nodes := o.st.nodes[nodename := o.st.root.ptr]);
      }
    }

    method ParseAssignLight(text: string, c: Cursor) returns (cur: Cursor)
      requires Valid()
      modifies this, heap
      ensures Valid()
      ensures Step(Snapshot(), cur, None) == AssignLightStep(old(Snapshot()), text, c)
    {
      var (nodeName, c1) := NextWord(text, c);
      var (lightName, c2) := NextWord(text, c1);
      if nodeName in nodes && lightName in lightTable && nodes[nodeName].Some? {
        heap.AddLight(nodes[nodeName].value, lightTable[lightName]);
      }
      cur := c2;
    }

    method ParseAssignMaterial(text: string, c: Cursor) returns (cur: Cursor)
      requires Valid()
      modifies this, heap
      ensures Valid()
      ensures Step(Snapshot(), cur, None) == AssignMaterialStep(old(Snapshot()), text, c)
    {
      var (nodename, c1) := NextWord(text, c);
      var (matname, c2) := NextWord(text, c1);
      nodes := Subscript(nodes, nodename);
      var leafNode := nodes[nodename];
      if leafNode.Some? && heap.nodes[leafNode.value].Leaf? && matname in materials {
        heap.SetMaterial(leafNode.value, materials[matname]);
      }
      cur := c2;
    }

    method ParseAddChild(text: string, c: Cursor) returns (cur: Cursor)
      requires Valid()
      modifies this, heap
      ensures Valid()
      ensures Step(Snapshot(), cur, None) == AddChildStep(old(Snapshot()), text, c)
    {
      var (childname, c1) := NextWord(text, c);
      var (parentname, c2) := NextWord(text, c1);
      nodes := Subscript(nodes, parentname);
      var parentNode := nodes[parentname];
      var childNode := None;
      if childname in nodes {
        childNode := nodes[childname];
      }
      if parentNode.Some? && IsParent(heap.nodes[parentNode.value]) && childNode.Some? {
        heap.AddChild(parentNode.value, childNode.value);
      }
      cur := c2;
    }

    method ParseSetRoot(text: string, c: Cursor) returns (cur: Cursor)
      requires Valid()
      modifies this
      ensures Valid()
      ensures Step(Snapshot(), cur, None) == SetRootStep(old(Snapshot()), text, c)
    {
      var (rootname, c1) := NextWord(text, c);
      nodes := Subscript(nodes, rootname);
      root := Assigned(nodes[rootname]);
      cur := c1;
    }
  }
}
