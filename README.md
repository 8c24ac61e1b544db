# Scene graph: a verified model

This project models the core of an OpenGL scene-graph renderer: the scene nodes, the importer
that reads a scene description into a graph of nodes, and the visitors that walk the graph.
The visitors are the animation pass, the indented text outline, the OpenGL draw pass, the
light collection of the view and the ray caster. The small stateful helpers around them are
modelled too: the polygon mesh with its bounding box, the application model, and the command
line.

Modules:

- `Linear` (linear.dfy): vectors over the reals. A matrix is kept symbolic as a word of
  transform factors. `Identity` is the empty word and `Mul` is concatenation. Evaluating a
  word factor by factor maps it to the 4x4 matrix it denotes, and multiplication of real
  matrices is associative, so every equation between words holds between those matrices.
- `Attributes` (attributes.dfy): materials and lights.
- `Nodes` (nodes.dfy): the five node kinds, the `NodeHeap` class, and value trees.
  - Group, leaf, and scale, translate and rotate transforms are the node kinds.
  - `NodeHeap` holds allocated nodes, addressed by pointer (an index into the heap).
  - A value `Tree` is what a pointer unfolds to.
  - Parents hold child pointers, so a node added to two parents is shared, as in the source.
- `Unfolding` (unfolding.dfy): deciding whether a pointer unfolds to a tree at all. In a
  cyclic graph it does not.
- `Scanner` (scanner.dfy): comment stripping and the word and number reads of a C++ input
  stream.
- `ImportSpec` (import_spec.dfy): every command handler of the importer as a function over its
  tables.
- `Importer` (importer.dfy): the importer as a class whose tables the handlers update in
  place. Each handler is proved equal to its `ImportSpec` function.
- `ImportFacts` (import_facts.dfy): properties of parsing stated over `ImportSpec`.
- `Animation`, `TextRenderer`, `GLRenderer`, `View`, `Raycast` (one file each): the visitors.
  Each visitor is a class whose visit methods are proved against a function of the tree they
  visit. Lemmas then relate that function to pre-order, paths and matrices.
- `Rays` (rays.dfy), `Meshes` (meshes.dfy), `AppModel` (model.dfy), `CommandLine`
  (main_args.dfy): the helpers.

Floating-point operations the ray caster needs are parameters of a `Kernel` record:
multiplication and division, square root, normalisation, matrix inversion, and the eye-ray
generator. `ExactArithmetic(k)` says the kernel multiplies and divides exactly; the concrete
lemmas use such a kernel. Output goes into strings: the console text of the text renderer and
of `main`, and the PPM image text. The GL calls of a leaf become a `Draw` record.

## Model

| member | source | states |
|---|---|---|
| Nodes.NodeHeap.constructor | sgraph/ParentSGNode.h:11-12 | An empty heap of nodes. |
| Nodes.NodeHeap.NewGroup | sgraph/ParentSGNode.h:11-12 | Appends one group: no children, no lights, the identity as animation transform. Returns its pointer. Nothing else changes. |
| Nodes.NodeHeap.NewTransform | sgraph/ParentSGNode.h:11-12 | Appends one transform node with the given operation and the identity as animation transform. |
| Nodes.NodeHeap.NewLeaf | sgraph/LeafNode.h:43-48 | Appends a leaf with the given instance name, the default material and an empty texture name. |
| Nodes.NodeHeap.NewLeafWithMaterial | sgraph/LeafNode.h:35-41 | Appends a leaf with the given instance name and material and an empty texture name. |
| Nodes.NodeHeap.AddChild | sgraph/ParentSGNode.h:20 | The child pointer is appended to the parent's children. Every other node is unchanged. |
| Nodes.NodeHeap.AddLight | sgraph/ScenegraphImporter.h:263-265 | The light is appended to the node's lights. Every other node is unchanged. |
| Nodes.NodeHeap.GetChildren | sgraph/ParentSGNode.h:21 | Returns the child list as a value; every pointer in it is allocated. Later changes to the node do not reach it. |
| Nodes.NodeHeap.SetAnimTransform | sgraph/ParentSGNode.h:44-45 | Only that node's animation transform changes; reading it back gives the matrix set. |
| Nodes.NodeHeap.AnimTransform | sgraph/ParentSGNode.h:45 | `getAnimTransform()` returns the group's or transform's animation matrix. |
| Nodes.NodeHeap.SetMaterial | sgraph/LeafNode.h:55-60 | Only that leaf's material changes; reading it back gives the material set. |
| Nodes.NodeHeap.MaterialOf | sgraph/LeafNode.h:60 | `getMaterial()` returns the leaf's material. |
| Nodes.NodeHeap.InstanceOf | sgraph/LeafNode.h:67 | `getInstanceOf()` returns the name of the mesh the leaf draws. |
| Nodes.NodeHeap.SetTexture | sgraph/LeafNode.h:90-91 | Only that leaf's texture name changes; reading it back gives the name set. |
| Nodes.NodeHeap.TextureOf | sgraph/LeafNode.h:91 | `getTexture()` returns the leaf's texture name. |
| Nodes.NodeHeap.GetNode | sgraph/ParentSGNode.h:23-34 | The loop's result is `Find`: the node itself when its name matches; otherwise the first non-null result over the children in index order; otherwise null. A result is a node of the subtree. |
| Nodes.FirstNamed | sgraph/ParentSGNode.h:23-34 | The first tree in a list with the name, and none exactly when no tree has it. |
| Nodes.FindIsFirstInPreOrder | sgraph/ParentSGNode.h:23-34 | That search returns the first node in pre-order with the name, and null exactly when no node has it. |
| Nodes.NodeHeap.Clone | sgraph/ParentSGNode.h:36-42 | The heap after `clone()` is `CloneF`: the copy of the root at the first free pointer, then each child's clone attached in child order. |
| Nodes.CloneIsFresh | sgraph/ParentSGNode.h:36-42 | The old nodes are unchanged. The new pointer unfolds to a tree of the same shape whose every node is a copy of the original's node. All of its nodes are new, so no node is shared with the original. |
| Nodes.NodeHeap.Destroy | sgraph/ParentSGNode.h:14-18 | The destructor frees `DeletionOrder(t)`: each child in index order, each child freeing its own subtree first. |
| Nodes.DeletionFreesOwned | sgraph/ParentSGNode.h:14-18 | That order frees, as a multiset, exactly the pointers of the unfolded tree. |
| Unfolding.Unfold | sgraph/ParentSGNode.h:36-42 | A depth-first unfolding that refuses to re-enter a node on the current path. Every tree it returns is one the pointer unfolds to. |
| Unfolding.UnfoldComplete | sgraph/ParentSGNode.h:36-42 | `Unfold` finds the tree whenever the pointer unfolds to one. |
| Unfolding.UnfoldsUnique | sgraph/ParentSGNode.h:36-42 | A pointer unfolds to at most one tree. |
| Scanner.StripComments | sgraph/ScenegraphImporter.h:296-307 | The method's loops produce `Stripped(input)`: each line cut at its first `#`, then one newline per line. |
| Scanner.StripLine | sgraph/ScenegraphImporter.h:300-303 | A line cut at its first `#`: a prefix of the line without `#`, and shorter only where a `#` follows. |
| Scanner.StrippedHasNoHash | sgraph/ScenegraphImporter.h:300-303 | No `#` survives stripping. |
| Scanner.StrippedEndsLines | sgraph/ScenegraphImporter.h:304 | The stripped text is empty or ends with a newline. |
| Scanner.StrippedKeepsPlainText | sgraph/ScenegraphImporter.h:296-307 | Text without `#` whose lines all end in a newline is left unchanged. |
| Scanner.StrippedIdempotent | sgraph/ScenegraphImporter.h:296-307 | Stripping twice is stripping once. |
| Scanner.NextWord | sgraph/ScenegraphImporter.h:34 | `>> word` skips white space, then takes the longest run of non-white characters that starts there. It fails exactly when only white space is left, and then yields the empty word. |
| Scanner.WordRoundTrip | sgraph/ScenegraphImporter.h:34 | A non-empty word without white space, followed by a blank, reads back exactly. |
| Scanner.NextReal | sgraph/ScenegraphImporter.h:119 | `>> number` consumes input when it succeeds. A failed read yields zero. |
| Scanner.NumberRoundTrip | sgraph/ScenegraphImporter.h:119 | The numeral of a natural number, optionally negated and followed by a blank, reads back as that number. |
| Scanner.DecimalRoundTrip | sgraph/ScenegraphImporter.h:119 | A decimal `[-]digits.digits` with at least one digit, followed by a blank, reads as ±(whole part + fraction digits / 10^(number of fraction digits)), and the read stops right after it. |
| Scanner.Numeral | main.cpp:29 | The decimal numeral of a number: a non-empty string of digits. |
| ImportSpec.Subscript | sgraph/ScenegraphImporter.h:293 | `nodes[v]` binds an unbound `v` to null and keeps every other binding. |
| ImportSpec.Bind | sgraph/ScenegraphImporter.h:100-101 | Allocates one node, binds `v` to it and keeps every pointer allocated. Old nodes keep their kind. |
| ImportSpec.InstanceStep | sgraph/ScenegraphImporter.h:35-44 | `instance` touches neither the node table, the heap nor the root. It never fails and never moves back in the input. |
| ImportFacts.InstanceRecordsMesh | sgraph/ScenegraphImporter.h:35-44 | `instance` stores the path under the name, and the mesh read from the file exactly when the file opens. No other table changes. |
| ImportSpec.GroupStep | sgraph/ScenegraphImporter.h:97-102 | `group` keeps the tables well formed and the old nodes unchanged in kind; it never fails. |
| ImportSpec.LeafStep | sgraph/ScenegraphImporter.h:104-113 | As for `group`, for `leaf`. |
| ImportSpec.ScaleStep | sgraph/ScenegraphImporter.h:115-122 | As for `group`, for `scale`. |
| ImportSpec.TranslateStep | sgraph/ScenegraphImporter.h:124-131 | As for `group`, for `translate`. |
| ImportSpec.RotateStep | sgraph/ScenegraphImporter.h:133-141 | As for `group`, for `rotate`. |
| ImportFacts.CreatingCommands | sgraph/ScenegraphImporter.h:97-141 | Each of these five commands allocates one node of its own kind. The node is named by the second word and bound to the first; a rebinding overwrites. The tables, root and old nodes are otherwise unchanged, and parents start with the identity animation transform. |
| ImportFacts.TransformCommandsStoreOperands | sgraph/ScenegraphImporter.h:115-141 | Scale and translate store the three numbers read. Rotate stores its angle converted from degrees to radians, and its axis. Each consumes exactly its operands. |
| ImportFacts.LeafInstance | sgraph/ScenegraphImporter.h:104-113 | The word after the name is always consumed. The instance is read only after `instanceof` and is empty otherwise. The leaf has the default material and no texture. |
| ImportSpec.ImageStep | sgraph/ScenegraphImporter.h:143-147 | Only the texture-path table changes. |
| ImportFacts.ImageRecordsPath | sgraph/ScenegraphImporter.h:143-147 | `image` stores the file path under the texture name and changes nothing else. |
| ImportSpec.AssignTextureStep | sgraph/ScenegraphImporter.h:149-155 | Keeps the tables well formed and never fails. |
| ImportFacts.AssignTextureSetsLeaf | sgraph/ScenegraphImporter.h:149-155 | A variable bound to a leaf has that leaf's texture name set, and no other node changes. A variable bound to null or to a group or transform changes no node. The variable is bound afterwards, to null if it was not. |
| ImportSpec.MaterialLoop | sgraph/ScenegraphImporter.h:164-195 | A loop that ends has not moved back in the input; no result means the loop never ends. |
| ImportSpec.MaterialStep | sgraph/ScenegraphImporter.h:157-197 | Only the material table changes. The only failure is divergence. |
| ImportSpec.LightBlock | sgraph/ScenegraphImporter.h:227-253 | The light loop always ends, and never moves back in the input. |
| ImportSpec.LightStep | sgraph/ScenegraphImporter.h:222-255 | Only the light table changes, and it never fails. |
| ImportFacts.BlockAtEndOfInput | sgraph/ScenegraphImporter.h:164-195 | When the input ends inside a block, a light block stops and stores the default light. A material block diverges and changes nothing. |
| ImportFacts.MaterialStoredUnderName | sgraph/ScenegraphImporter.h:196 | A material block that ends stores exactly one material, under its name. Every other material is kept. |
| ImportFacts.EmptyMaterialBlock | sgraph/ScenegraphImporter.h:157-197 | `material m end-material` stores the default material under `m`. |
| ImportFacts.MaterialFieldSetsOne | sgraph/ScenegraphImporter.h:165-193 | Each colour keyword stores the three numbers read next in its own field, and each scalar keyword the one number read next. The read stops where those numbers end, and no other field changes. Any other word changes nothing and reads nothing. |
| ImportFacts.MaterialLaterSettingWins | sgraph/ScenegraphImporter.h:165-193 | A second line with the same keyword overwrites the first. |
| ImportFacts.LightStoredUnderName | sgraph/ScenegraphImporter.h:254 | A light block stores exactly one light, under its name. Every other light is kept. |
| ImportFacts.LightFieldSetsOne | sgraph/ScenegraphImporter.h:228-252 | Each keyword stores the three numbers read next, or the one angle, in its own field. A position becomes the point (x, y, z, 1) and a spot direction the direction (x, y, z). The read stops where those numbers end, and no other field changes. Any other word changes nothing and reads nothing. |
| ImportFacts.LightLaterSettingWins | sgraph/ScenegraphImporter.h:228-252 | A second line with the same keyword overwrites the first. |
| ImportSpec.CopyStep | sgraph/ScenegraphImporter.h:199-206 | `copy` keeps the tables well formed; its only failure is divergence. This is the corrected handler (see Findings). |
| ImportSpec.CopyStepAsWritten | sgraph/ScenegraphImporter.h:199-206 | `copy` as the source writes it. It agrees with the corrected handler except where it dereferences null, and that error changes nothing. |
| ImportFacts.CopyOfNullVariable | sgraph/ScenegraphImporter.h:202-203 | Copying a variable bound to null dereferences null as written. The corrected handler skips it and changes nothing. |
| ImportFacts.CopyMakesClone | sgraph/ScenegraphImporter.h:199-206 | Copying a variable whose node unfolds binds the new variable to a fresh deep clone. No other binding changes and the old nodes are untouched. |
| ImportFacts.CopyDivergesOnCycle | sgraph/ScenegraphImporter.h:203 | `copy` fails exactly when the node it copies has no tree: the recursive clone would not return. |
| ImportSpec.AssignLightStep | sgraph/ScenegraphImporter.h:258-267 | Keeps the tables well formed and never fails. |
| ImportFacts.AssignLightAppends | sgraph/ScenegraphImporter.h:258-267 | When the variable is bound to a node and the light is known, that light is appended to the node's lights, whatever its kind, and no other node changes. Otherwise nothing changes at all. |
| ImportSpec.AssignMaterialStep | sgraph/ScenegraphImporter.h:269-276 | Keeps the tables well formed and never fails. |
| ImportFacts.AssignMaterialSetsLeaf | sgraph/ScenegraphImporter.h:269-276 | A variable bound to a leaf, with a known material, gives that leaf the stored material, and no other node changes. An unknown material, or a variable bound to null or to a group or transform, changes no node. The variable is bound afterwards, to null if it was not. |
| ImportSpec.AddChildStep | sgraph/ScenegraphImporter.h:278-288 | Keeps every child pointer allocated and never fails. |
| ImportFacts.AddChildAppends | sgraph/ScenegraphImporter.h:278-288 | When the parent variable is bound to a group or transform and the child variable to a node, the child is appended to the parent's children. No other node or binding changes. Otherwise no node changes, and the parent variable is bound, to null if it was not. |
| ImportFacts.UnboundIsIgnored | sgraph/ScenegraphImporter.h:149-155 | When a named variable is unbound, `copy`, `add-child`, `assign-material`, `assign-light` and `assign-texture` do nothing. Where the source subscripts the table they only bind it to null. They still consume both words. |
| ImportSpec.SetRootStep | sgraph/ScenegraphImporter.h:290-294 | `assign-root` leaves the heap unchanged and never fails. |
| ImportFacts.AssignRootOfUnbound | sgraph/ScenegraphImporter.h:290-294 | `assign-root` of an unbound variable sets the root to null and binds the variable to null. |
| ImportFacts.AssignRootOfBound | sgraph/ScenegraphImporter.h:290-294 | `assign-root` of a bound variable makes its node the root, null if it is bound to null, and changes nothing else. |
| ImportSpec.ImportStep | sgraph/ScenegraphImporter.h:208-219 | `import` keeps the tables well formed and the old nodes unchanged in kind. |
| ImportFacts.ImportSharesRoot | sgraph/ScenegraphImporter.h:208-219 | A successful import parses with the same tables. Its root replaces the importer's root, and the variable is bound to that root. |
| ImportSpec.Command | sgraph/ScenegraphImporter.h:34-80 | A word that is not one of the sixteen commands fails with that word and changes nothing. Of the commands, only `material` and `copy` can fail, by divergence, apart from `import`. |
| ImportFacts.UnrecognizedStops | sgraph/ScenegraphImporter.h:78-80 | An unrecognised word ends the run with that word as the error. |
| ImportSpec.Run | sgraph/ScenegraphImporter.h:34-81 | The command loop keeps the tables well formed; old nodes keep their kind. |
| ImportSpec.ParseFile | sgraph/ScenegraphImporter.h:29-91 | `parse` succeeds only with a root set to a node. |
| ImportSpec.ResultOf | sgraph/ScenegraphImporter.h:82-90 | The result is the scene graph exactly when the run ended without an error. |
| ImportSpec.Parse | sgraph/ScenegraphImporter.h:82-90 | A successful parse returns a root that is allocated, in a heap whose child pointers are all allocated. |
| ImportFacts.NoCommands | sgraph/ScenegraphImporter.h:29-81 | A description holding only comments and white space runs no command and leaves every table as it was. |
| ImportFacts.NothingToParse | sgraph/ScenegraphImporter.h:82-90 | Corrected: with the root initialised to null, a description holding only comments and white space (also the empty stream of a scene file that cannot be opened) fails with no root. |
| ImportFacts.NothingToParseAsWritten | sgraph/ScenegraphImporter.h:27 | As written: the same description makes `parse` test a root pointer that was never assigned. |
| ImportSpec.ParseAsWritten | sgraph/ScenegraphImporter.h:27 | A fresh importer as written, root uninitialised, parsing one description; a success returns an allocated root in a closed heap. |
| Importer.ScenegraphImporter.constructor | sgraph/ScenegraphImporter.h:27 | Corrected: empty tables, a root initialised to null and an empty heap. |
| Importer.ScenegraphImporter.AsWritten | sgraph/ScenegraphImporter.h:27 | As written: empty tables and an empty heap, with the root pointer left uninitialised. |
| Importer.ScenegraphImporter.Parse | sgraph/ScenegraphImporter.h:29-91 | The new tables and the result are exactly those of `ImportSpec.ParseFile` from the old tables. |
| Importer.ScenegraphImporter.RunCommands | sgraph/ScenegraphImporter.h:34-81 | The while loop leaves exactly the state and error of `ImportSpec.Run`. |
| Importer.ScenegraphImporter.Dispatch | sgraph/ScenegraphImporter.h:35-80 | The if-chain does exactly what `ImportSpec.Command` does. |
| Importer.ScenegraphImporter.ParseInstance | sgraph/ScenegraphImporter.h:35-44 | Equals `ImportSpec.InstanceStep` on the tables. |
| Importer.ScenegraphImporter.ParseGroup | sgraph/ScenegraphImporter.h:97-102 | Equals `ImportSpec.GroupStep`. |
| Importer.ScenegraphImporter.ParseLeaf | sgraph/ScenegraphImporter.h:104-113 | Equals `ImportSpec.LeafStep`. |
| Importer.ScenegraphImporter.ParseScale | sgraph/ScenegraphImporter.h:115-122 | Equals `ImportSpec.ScaleStep`. |
| Importer.ScenegraphImporter.ParseTranslate | sgraph/ScenegraphImporter.h:124-131 | Equals `ImportSpec.TranslateStep`. |
| Importer.ScenegraphImporter.ParseRotate | sgraph/ScenegraphImporter.h:133-141 | Equals `ImportSpec.RotateStep`. |
| Importer.ScenegraphImporter.ParseImage | sgraph/ScenegraphImporter.h:143-147 | Equals `ImportSpec.ImageStep`. |
| Importer.ScenegraphImporter.ParseAssignTexture | sgraph/ScenegraphImporter.h:149-155 | Equals `ImportSpec.AssignTextureStep`. |
| Importer.ScenegraphImporter.ParseMaterial | sgraph/ScenegraphImporter.h:157-197 | The while loop equals `ImportSpec.MaterialStep`. |
| Importer.ScenegraphImporter.ReadColor | sgraph/ScenegraphImporter.h:166 | Reads three numbers in a row. |
| Importer.ScenegraphImporter.ParseLight | sgraph/ScenegraphImporter.h:222-255 | The while loop equals `ImportSpec.LightStep`. |
| Importer.ScenegraphImporter.ParseCopy | sgraph/ScenegraphImporter.h:199-206 | Equals `ImportSpec.CopyStep`, the clone made by `NodeHeap.Clone`. |
| Importer.ScenegraphImporter.ParseImport | sgraph/ScenegraphImporter.h:208-219 | Equals `ImportSpec.ImportStep`. The nested parse runs on this same object. |
| Importer.ScenegraphImporter.ParseAssignLight | sgraph/ScenegraphImporter.h:258-267 | Equals `ImportSpec.AssignLightStep`. |
| Importer.ScenegraphImporter.ParseAssignMaterial | sgraph/ScenegraphImporter.h:269-276 | Equals `ImportSpec.AssignMaterialStep`. |
| Importer.ScenegraphImporter.ParseAddChild | sgraph/ScenegraphImporter.h:278-288 | Equals `ImportSpec.AddChildStep`. |
| Importer.ScenegraphImporter.ParseSetRoot | sgraph/ScenegraphImporter.h:290-294 | Equals `ImportSpec.SetRootStep`. |
| Animation.Visited | sgraph/AnimationVisitor.h:35-67 | The visit of a node runs first. A leaf or transform visit runs nothing else. |
| Animation.GroupVisitsChildrenInOrder | sgraph/AnimationVisitor.h:35-39 | A group's visit is followed by its children's, each once and in child order. |
| Animation.VisitedForestSplit | sgraph/AnimationVisitor.h:35-39 | The children's visits split at any child: those before it, its own, those after it. |
| Animation.VisitedComplete | sgraph/AnimationVisitor.h:35-39 | Every node reached from the root through groups only is visited. |
| Animation.VisitedSound | sgraph/AnimationVisitor.h:49-111 | Every visited node is reached through groups only, so nothing below a leaf or a transform is visited. |
| TextRenderer.TextScenegraphRenderer.constructor | sgraph/TextScenegraphRenderer.h:32-37 | Keeps the shared modelview stack; nothing printed yet. |
| TextRenderer.TextScenegraphRenderer.PrintNodeHelper | sgraph/TextScenegraphRenderer.h:39-44 | The counting loop prints `max(depth - 1, 0)` indents of four spaces, then `- name` and a newline. |
| TextRenderer.Indent | sgraph/TextScenegraphRenderer.h:40-42 | `n` indents are exactly `4 * n` spaces. |
| TextRenderer.LineIndentation | sgraph/TextScenegraphRenderer.h:39-44 | A printed line starts with exactly four spaces per level. |
| TextRenderer.TextScenegraphRenderer.Accept | sgraph/LeafNode.h:86-88 | `accept(visitor, depth)` prints `Text(t, depth + 1)`; the stack is unchanged afterwards. |
| TextRenderer.TextScenegraphRenderer.VisitGroupNode | sgraph/TextScenegraphRenderer.h:51-56 | Prints the group's line, then each child's text in order. The stack is unchanged. |
| TextRenderer.TextScenegraphRenderer.VisitLeafNode | sgraph/TextScenegraphRenderer.h:64-66 | Prints exactly one line. |
| TextRenderer.TextScenegraphRenderer.VisitTransformNode | sgraph/TextScenegraphRenderer.h:73-107 | Prints its line, then its first child's text only. The stack is pushed and popped back to what it was. |
| TextRenderer.TextIsListing | sgraph/TextScenegraphRenderer.h:51-81 | The output is one line per listed node, in listing order: a group before all of its children, a transform before its first child only. |
| TextRenderer.ListingDepths | sgraph/LeafNode.h:86-88 | A node is listed at its own depth first, and every entry below it at a greater depth. |
| GLRenderer.GLScenegraphRenderer.constructor | sgraph/GLScenegraphRenderer.h:40-47 | Keeps the stack and copies of the object and texture tables and the default texture; no draw yet. |
| GLRenderer.GLScenegraphRenderer.Accept | sgraph/LeafNode.h:85 | Dispatches to the visit of the node's kind. It appends `Draws(t, top)` and leaves the stack unchanged. |
| GLRenderer.GLScenegraphRenderer.VisitGroupNode | sgraph/GLScenegraphRenderer.h:57-69 | Pushes `top * animTransform`, visits every child in order under it, then pops back to the original stack. |
| GLRenderer.GLScenegraphRenderer.VisitLeafNode | sgraph/GLScenegraphRenderer.h:80-120 | Exactly one draw: the leaf's instance with the current top as modelview, the leaf's material values, and the texture chosen by `TextureFor`. |
| GLRenderer.GLScenegraphRenderer.VisitTransformNode | sgraph/GLScenegraphRenderer.h:130-175 | Pushes `top * getTransform()`, visits the first child only, then pops back. |
| GLRenderer.DrawsFollowPaths | sgraph/GLScenegraphRenderer.h:61 | One draw per reached leaf, in reach order. The modelview at each leaf is the starting top times the matrices of its ancestors, root first. |
| GLRenderer.LeafPathsSound | sgraph/GLScenegraphRenderer.h:57-139 | Every route the draw order lists leads to a leaf through groups and through first children of transforms. |
| GLRenderer.LeafPathsComplete | sgraph/GLScenegraphRenderer.h:57-139 | Every leaf reachable through groups and first children of transforms is in the draw order, so no reached leaf goes undrawn. |
| GLRenderer.TextureFallback | sgraph/GLScenegraphRenderer.h:110-116 | The named texture is bound when the name is non-empty and known. Otherwise the default texture is bound. |
| View.CollectLights | View.cpp:33-62 | The list comes back with the subtree's lights appended (`LightsOf`) and its earlier entries untouched. |
| View.Moved | View.cpp:38-45 | A collected light keeps its colours and spot angle. Only its position and spot direction are moved by the transform. |
| View.MovedAll | View.cpp:37-47 | The node's lights, each moved, in their order. |
| View.LightsInReachOrder | View.cpp:37-60 | The appended lights are those of the nodes in reach order, each node's lights in their order. Each is moved by the start transform times the transforms of the transform nodes on the way down. |
| View.ReachedIsPreOrder | View.cpp:49-60 | The nodes reached are the tree's nodes in pre-order. |
| View.ReachedExist | View.cpp:49-60 | Every reached route leads to a node. |
| View.LightsCount | View.cpp:46 | The list grows by exactly the number of lights in the subtree. |
| View.Camera.constructor | View.cpp:18-19 | Pitch 20, yaw -135. |
| View.Camera.RotateCamera | View.cpp:260-263 | Both angles move by the given amounts. |
| View.Camera.ResetCamera | View.cpp:265-268 | Pitch -35.264 and yaw -135, a pitch different from the initial one. |
| Rays.NewRay | sgraph/Rays.h:16-17 | Keeps the origin and stores the normalised direction. |
| Raycast.RaycastScenegraphRenderer.constructor | sgraph/RaycastScenegraphRenderer.h:29-36 | A buffer of `width * height` zero pixels, a default hit, and the initial ray along -z. |
| Raycast.RaycastScenegraphRenderer.Render | sgraph/RaycastScenegraphRenderer.h:39-70 | Buffer entry `n` is the colour of pixel (`n % w`, `n / w`). The stack is restored and the image text is `PPM` of the buffer. |
| Raycast.PixelIndex | sgraph/RaycastScenegraphRenderer.h:66 | Index `j * w + i` lies inside the buffer and gives back (i, j), so each pixel is written exactly once. |
| Raycast.RaycastScenegraphRenderer.Accept | sgraph/RaycastScenegraphRenderer.h:59 | The hit after the visit is `Closest` of the subtree; stack, ray and root are unchanged. |
| Raycast.RaycastScenegraphRenderer.VisitGroupNode | sgraph/RaycastScenegraphRenderer.h:73-77 | Visits all children under the same matrix, with no push and no animation transform. |
| Raycast.RaycastScenegraphRenderer.VisitLeafNode | sgraph/RaycastScenegraphRenderer.h:80-104 | The hit is replaced by the leaf's exactly when the leaf is hit at `0 < t < current t`. |
| Raycast.RaycastScenegraphRenderer.VisitTransformNode | sgraph/RaycastScenegraphRenderer.h:108-124 | Pushes `top * getTransform()`, visits every child, and pops back. |
| Raycast.ContainsOccurs | sgraph/RaycastScenegraphRenderer.h:90-92 | The `find(...) != npos` test holds exactly when the word occurs somewhere in the instance name. |
| Raycast.LeafHit | sgraph/RaycastScenegraphRenderer.h:86-94 | A name containing "box" is intersected as the unit box. Otherwise a name containing "sphere" is intersected as the unit sphere. Any other leaf is never hit. The ray is first taken into the leaf's coordinates. |
| Raycast.ClosestIgnoresStale | sgraph/RaycastScenegraphRenderer.h:95-103 | Two starting records that differ only in point and normal end the same, or both unchanged. |
| Raycast.ClosestKeepsTexture | sgraph/RaycastScenegraphRenderer.h:95-103 | A search never changes texture coordinates or texture. |
| Raycast.ResetFindsPrimary | sgraph/RaycastScenegraphRenderer.h:55-59 | Resetting only the parameter and the material before each pixel still finds exactly the nearest hit of a fresh search. |
| Raycast.ClosestIsLeast | sgraph/RaycastScenegraphRenderer.h:95-103 | The hit parameter never grows. It ends no larger than any positive parameter of the leaves it meets, and it changes only to one of them. |
| Raycast.PrimaryIsNearest | sgraph/RaycastScenegraphRenderer.h:55-65 | The nearest hit has a material exactly when something was found. Its parameter is positive, one of the leaves' positive parameters, and no larger than any of them. |
| Raycast.IntersectBox | sgraph/RaycastScenegraphRenderer.h:168-208 | The slab loop hits exactly when `BoxHit` does. On a hit it writes its parameter, point and the first face normal within the bias; a miss changes nothing but the parameter. |
| Raycast.FaceNormal | sgraph/RaycastScenegraphRenderer.h:193-206 | The normal is zero exactly when the point is near no face. Otherwise it is one of the six axis directions, tried in the source's order. |
| Raycast.BoxHitInFront | sgraph/RaycastScenegraphRenderer.h:188-190 | A box hit lies at the entry parameter, never behind the origin and never after the exit. |
| Raycast.BoxFromInside | sgraph/RaycastScenegraphRenderer.h:168-190 | A ray starting strictly inside the box hits it at parameter zero. |
| Raycast.IntersectSphere | sgraph/RaycastScenegraphRenderer.h:147-165 | Hits exactly when `SphereHit` does, never behind the origin, and never with a negative discriminant. |
| Raycast.SphereHit | sgraph/RaycastScenegraphRenderer.h:147-165 | A hit lies on the ray at a parameter that is not negative. A negative discriminant never hits. |
| Raycast.LightContribution | sgraph/RaycastScenegraphRenderer.h:221-243 | One round of the light loop adds `LightTerm`: nothing in shadow, else the diffuse and specular terms. |
| Raycast.AmbientOnly | sgraph/RaycastScenegraphRenderer.h:213-244 | A material without diffuse and specular colour shows its ambient colour only. |
| Raycast.RaycastScenegraphRenderer.Shade | sgraph/RaycastScenegraphRenderer.h:211-256 | The colour is `ShadeAsWritten`: the local colour times absorption plus the traced reflection times reflection. When the hit passed is the current nearest hit, the current hit is restored. |
| Raycast.RaycastScenegraphRenderer.TraceRay | sgraph/RaycastScenegraphRenderer.h:264-275 | The colour is `TraceAsWritten`: the background when no bounce is left, otherwise a search of the scene with `currentRay`, shaded when it finds a hit. |
| Raycast.ReflectionRetracesPrimary | sgraph/RaycastScenegraphRenderer.h:264-274 | As written, every reflected ray finds the primary hit again. |
| Raycast.RepeatedAmbient | sgraph/RaycastScenegraphRenderer.h:247-255 | As written, a fully reflective and absorbing ambient-only surface shows its ambient colour once per bounce. |
| Raycast.NoBounceNoReflection | sgraph/RaycastScenegraphRenderer.h:247-252 | With no bounce left, the reflection adds only the background. |
| Raycast.ReflectionOfNothing | sgraph/RaycastScenegraphRenderer.h:246-255 | Corrected, a reflection that hits nothing adds only the background. |
| Raycast.MirrorBoxPixel | sgraph/RaycastScenegraphRenderer.h:264-274 | A reflective unit box seen head-on is drawn at (0.5, 0.5, 0.5) as written and at its ambient (0.1, 0.1, 0.1) corrected. |
| Raycast.MirrorBoxAsWritten | sgraph/RaycastScenegraphRenderer.h:264-274 | As written, shading the mirror box's front hit with five bounces gives (0.5, 0.5, 0.5). |
| Raycast.MirrorBoxFixed | sgraph/RaycastScenegraphRenderer.h:246-255 | Corrected, the same hit shades to its ambient (0.1, 0.1, 0.1). |
| Raycast.RaycastScenegraphRenderer.WritePPM | sgraph/RaycastScenegraphRenderer.h:278-297 | The text is the header `P3`, the size and 255, then each row's pixels as three channels and two spaces, with a newline per row. |
| Raycast.Channel | sgraph/RaycastScenegraphRenderer.h:288-290 | A channel is clamped to [0, 1], scaled to 255 and truncated. It lies in 0..255, is 0 at or below 0, and 255 at or above 1. |
| Raycast.HeaderReadsBack | sgraph/RaycastScenegraphRenderer.h:284 | The image text starts with the magic word `P3`. |
| Meshes.PolygonMesh.constructor | PolygonMesh.h:78 | No vertices and no indices. |
| Meshes.PolygonMesh.SetPrimitiveType | PolygonMesh.h:83-90 | Reading the type back gives the value set; nothing else changes. |
| Meshes.PolygonMesh.PrimitiveType | PolygonMesh.h:88-90 | The type is the one the mesh value records. |
| Meshes.PolygonMesh.SetPrimitiveSize | PolygonMesh.h:93-100 | Reading the size back gives the value set; nothing else changes. |
| Meshes.PolygonMesh.PrimitiveSize | PolygonMesh.h:98-100 | The size is the one the mesh value records. |
| Meshes.PolygonMesh.PrimitiveCount | PolygonMesh.h:103-105 | The number of indices, not of primitives. |
| Meshes.PolygonMesh.VertexCount | PolygonMesh.h:108-110 | The number of vertices. |
| Meshes.PolygonMesh.MinimumBounds | PolygonMesh.h:113-115 | The lower corner of the mesh value's bounding box. |
| Meshes.PolygonMesh.MaximumBounds | PolygonMesh.h:118-120 | The upper corner of the mesh value's bounding box. |
| Meshes.PolygonMesh.GetVertexAttributes | PolygonMesh.h:123-125 | A copy of the vertex records. |
| Meshes.PolygonMesh.GetPrimitives | PolygonMesh.h:128-130 | A copy of the index list. |
| Meshes.PolygonMesh.SetVertexData | PolygonMesh.h:133-136 | Stores the records and recomputes the bounds over them; the other fields are unchanged. |
| Meshes.PolygonMesh.SetPrimitives | PolygonMesh.h:139-141 | Stores the indices; the bounds are unchanged. |
| Meshes.PolygonMesh.ComputeBoundingBox | PolygonMesh.h:143-201 | The two loops leave `BoundingBox` of the vertices and change nothing else. The old bounds stay when there are no vertices or the first has no position; otherwise the box is the tightest around every position. |
| Meshes.CollectPositions | PolygonMesh.h:153-169 | The first loop collects every vertex's position, in order. |
| Meshes.Positions | PolygonMesh.h:155-169 | One position per vertex, in vertex order. |
| Meshes.Position | PolygonMesh.h:156-167 | The components present fill in the default (0, 0, 0, 1) from x on; with none, or more than four, the default stays. |
| Meshes.BoundingBoxContains | PolygonMesh.h:171-200 | With position data, every vertex position lies inside the box on x, y and z. |
| Meshes.BoundingBoxTight | PolygonMesh.h:171-200 | Each x, y and z bound is some vertex's coordinate, and both corners keep the first vertex's w. |
| AppModel.Model.constructor | Model.cpp:7 | The constructor as written: the scene-graph pointer starts uninitialised and the texture map empty. |
| AppModel.Model.Initialised | Model.cpp:7 | The corrected constructor: the pointer starts null and the texture map empty. |
| AppModel.Model.GetScenegraph | Model.cpp:25 | Returns the pointer set. Reading it before any set is excluded. |
| AppModel.Model.SetScenegraph | Model.cpp:32-34 | Only the pointer changes. |
| AppModel.Model.SetTexturePaths | Model.cpp:43-45 | Only the map changes. |
| AppModel.Model.GetTexturePaths | Model.cpp:52-54 | Returns the map set. |
| AppModel.Model.Destroy | Model.cpp:14-18 | The scene graph is deleted exactly when the pointer points at one. A null pointer releases nothing. A pointer never set is still read, which is the outcome `IndeterminateRead`. |
| AppModel.SetThenGet | Model.cpp:14-54 | Setting both fields and reading them back gives what was set. The destructor then releases exactly that scene graph, or nothing for null. |
| CommandLine.ParseArguments | main.cpp:27-44 | Succeeds exactly when `argc <= 2`. With two entries the scene location becomes `argv[1]`; otherwise the configuration is unchanged. The text flag never changes, and a failure prints the count. The "Too many arguments" branch is unreachable. |
| CommandLine.RunApplication | main.cpp:50-73 | `main` as written. Status 1 exactly when `argc > 2`, with the usage printed last, and then the model is destroyed with its pointer never set. Otherwise status 0, and the controller gets the parsed location and text rendering off. |
| CommandLine.RunWith | main.cpp:50-73 | `main` with a given model. On a refused command line, the destructor's outcome is that of the model's pointer. |
| CommandLine.RunApplicationFixed | main.cpp:50-73 | `main` with the corrected constructor. A refused command line destroys a model that releases nothing, and no run reads an indeterminate pointer. |
| CommandLine.TwoArgumentsAsWritten | main.cpp:52-62 | `./assignment7 a b` exits with status 1 and reads the model's pointer without it having been set. |

## Left out

- Floating point is not modelled bit for bit. Colours, coordinates and ray parameters are
  reals. Square root, normalisation, `pow`, matrix inversion, ray generation and `transformRay`
  are parameters of the ray caster's `Kernel`.
- Matrices are symbolic words, so the normal matrix sent to the shader (an inverse transpose)
  is not modelled.
- The 1e-6 parallel test and the 1e-4 face bias of the box test are kept. Single-precision
  rounding is not.
- File and console I/O:
  - Scene files and mesh files are a `Files` table from path to text and from path to mesh;
    the OBJ reader is not part of this model.
  - Console output and the PPM file are returned as strings, and opening the output file is
    not modelled.
  - The GL uniform and draw calls become one `Draw` record per leaf.
- `computeNormals` (Newell's method) is left out: it is floating-point arithmetic over
  normalised vectors.
- The controller, the window, the shaders, texture loading and the rest of the view
  (`init`, `display`, `closeWindow`) are outside the modelled core. `main` starts the
  controller, and `CommandLine.RunApplication` returns what it would start it with.
- GroupNode.h, TransformNode.h, AbstractSGNode.h, Scenegraph.h, Material.h, Light.h,
  VertexAttrib.h and ObjectInstance.h are not part of this model. Their behaviour is assumed:
  - `addChild` appends.
  - A vertex that lacks an attribute reads as having no components for it, so
    `Meshes.GetData` yields the empty sequence (sgraph/VertexAttrib.h).
  - The base `getNode` matches the node's own name.
  - `getTransform` yields the one factor of its operation.
  - `copyNode` copies the name and the operation, with a fresh identity animation transform and
    no lights.
  - Material and light fields default to zero, and a light position has w = 1.
  - A group's or transform's `accept(visitor, depth)` passes `depth + 1` to the visitor, as
    the leaf's does (sgraph/LeafNode.h:86-88). The text renderer's depths rest on this.
- Nodes.NodeHeap.GetNode, Nodes.NodeHeap.Clone, Nodes.NodeHeap.Destroy: stated only for
  pointers that unfold to a tree; cyclic graphs are excluded for all three. On a cyclic graph
  `clone` and the destructor never return. `getNode` returns a node as soon as its name
  matches, before it looks at any child, so it loops only when its search re-enters a node
  before the name is found.
- ImportSpec.CopyStep: a copy of a cyclic node is the error `Diverges` rather than a run that
  never returns.
- ImportSpec.ImportStep: imports nest only up to the depth passed to `Parse`; deeper nesting
  is the error `ImportTooDeep`, where the source recurses until the stack is exhausted.
- Scanner.NextReal: reads an optional sign, digits and an optional fraction. Exponents,
  `inf` and `nan` are not modelled.
- Scanner.NextReal: a read at the end of the input, or after an earlier read failed, yields
  zero. In the source such a read leaves the `float` variable unwritten, and only a malformed
  token stores zero. The two differ only once a read has failed, so a scene whose numbers are
  all present and well formed is read the same way.
- Importer.ScenegraphImporter.constructor, ImportFacts.NothingToParse: these are the
  corrected importer, whose root starts null. As written the root is never initialised, so a
  run that never reaches `assign-root` reads an indeterminate pointer; the model gives that
  run the error `IndeterminateRead` (ImportSpec.ParseAsWritten), where the source's behaviour
  is undefined. See "## Findings".
- The `objects` table of the renderers is only used to require that every drawn leaf names a
  known instance; an unknown instance would dereference null in the source.
- Raycast.RaycastScenegraphRenderer.Shade takes its hit by value. The source passes the
  renderer's own current hit by reference. The contract proves both agree when that hit is
  the nearest hit of the current ray, which is how `render` and `traceRay` call it as
  written. They agree there only because the reflected search, with `currentRay`, finds
  that same hit again. The corrected `Raycast.ShadeFixed` keeps its own copy of the hit;
  with the reference and only the search fixed, a reflected search that misses would leave
  the current material null for `getAbsorption`, and one that hits another object would
  lend that object's absorption and reflection to the outer shade.
- The shared modelview stack is a field of each renderer, not an alias of the caller's stack.
- Raycast.RaycastScenegraphRenderer.Render, Raycast.RaycastScenegraphRenderer.TraceRay: follow
  the code as written, searching with `currentRay`. The corrected tracing is the function
  `Raycast.TraceFixed` with its lemmas; the renderer class itself is not changed.
- CommandLine.ParseArguments: requires `argc >= 1` and `argv` to hold `argc` strings, as the
  C runtime guarantees.
- Memory management (`new`/`delete`) is modelled only as the heap growing and as the pointers
  a destructor frees. The leak of the imported scene graph object is not modelled.

## Findings

| source | as written | input that shows it | evidently intended | confidence | as-written member | corrected member |
|---|---|---|---|---|---|---|
| sgraph/ScenegraphImporter.h:202-203 | `copy` checks only that the variable is in the table, then calls `clone()` on its entry | `assign-root x` then `copy y x`: the first binds `x` to null, the second dereferences it | a variable bound to null is skipped like an unbound one | not executed | ImportFacts.CopyOfNullVariable | ImportSpec.CopyStep |
| sgraph/RaycastScenegraphRenderer.h:264-274 | `traceRay` ignores its ray argument and searches the scene with `currentRay` | one reflective box facing the eye: every bounce finds the same front face, so the pixel is five times the ambient colour, (0.5, 0.5, 0.5) | the reflected ray is traced, and `shade` keeps its own copy of the hit (or `traceRay` saves and restores `currentHit`), since `traceRay` resets the hit `shade` holds by reference; the reflected ray then misses and the pixel is the ambient colour (0.1, 0.1, 0.1) | not executed | Raycast.MirrorBoxAsWritten | Raycast.MirrorBoxFixed |
| main.cpp:52-62 | the `Model` constructor (Model.cpp:7) leaves the scene-graph pointer unset, and `main` returns 1 on a refused command line, which runs the destructor, and the destructor tests that pointer | `./assignment7 a b` | the pointer starts null, so the destructor of an unused model releases nothing | not executed | CommandLine.TwoArgumentsAsWritten | CommandLine.RunApplicationFixed |
| sgraph/ScenegraphImporter.h:82 | the constructor (line 27) does not initialise the `root` member (line 314), and Controller.cpp:34 makes the importer an automatic object, so `parse` tests a root that only `assign-root` ever writes | a scene description holding only comments, or a scene file that cannot be opened (an empty stream, Controller.cpp:33) | the root starts null, and `parse` throws "nothing set as root" | not executed | ImportFacts.NothingToParseAsWritten | ImportFacts.NothingToParse |
