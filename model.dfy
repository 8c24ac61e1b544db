/** The application model: the scene graph the importer produced and the texture files the
    scene names. The model owns the scene graph and releases it when it is destroyed. */
module AppModel {
  import opened Wrappers
  import ImportSpec

  /** The model's scene-graph pointer. The constructor leaves it uninitialised; once set it is
      either null or points at a scene graph. */
  datatype SceneRef = Uninitialised | Null | Points(graph: ImportSpec.Scenegraph)

  /** What the destructor does: nothing for a null pointer, delete the scene graph it points
      at, or test a pointer that was never set, whose value is indeterminate. */
  datatype Release = NothingReleased | Released(graph: ImportSpec.Scenegraph) | IndeterminateRead

  class Model {
    var scenegraph: SceneRef
    var texturePaths: map<string, string>

    /** The scene-graph pointer is left uninitialised and the texture map empty. */
    constructor ()
      ensures scenegraph == Uninitialised && texturePaths == map[]
    {
      scenegraph := Uninitialised;
      texturePaths := map[];
    }

    /** The constructor as it evidently should be: the pointer starts null, so the destructor
        of a model whose scene graph was never set releases nothing. */
    constructor Initialised()
      ensures scenegraph == Null && texturePaths == map[]
    {
      scenegraph := Null;
      texturePaths := map[];
    }

    /** Reading the pointer before it was ever set reads an indeterminate value, so the
        getter needs it to have been set. */
    method GetScenegraph() returns (s: SceneRef)
      requires scenegraph != Uninitialised
      ensures s == scenegraph && s != Uninitialised
    {
      s := scenegraph;
    }

    /** Replaces the pointer and nothing else; the previous scene graph is not released. */
    method SetScenegraph(s: SceneRef)
      requires s != Uninitialised
      modifies this
      ensures scenegraph == s && texturePaths == old(texturePaths)
    {
      scenegraph := s;
    }

    /** Copies the map in and nothing else. */
    method SetTexturePaths(tp: map<string, string>)
      modifies this
      ensures texturePaths == tp && scenegraph == old(scenegraph)
    {
      texturePaths := tp;
    }

    method GetTexturePaths() returns (tp: map<string, string>)
      ensures tp == texturePaths
    {
      tp := texturePaths;
    }

    /** The destructor: the scene graph is deleted when the pointer is set and not null, and
        nothing is deleted when it is null. A pointer that was never set is still tested, and
        that read is `IndeterminateRead`. */
    method Destroy() returns (release: Release)
      ensures release == IndeterminateRead <==> scenegraph == Uninitialised
      ensures release == NothingReleased <==> scenegraph == Null
      ensures release.Released? <==> scenegraph.Points?
      ensures release.Released? ==> release.graph == scenegraph.graph
    {
      match scenegraph
      case Uninitialised => release := IndeterminateRead;
      case Null => release := NothingReleased;
      case Points(g) => release := Released(g);
    }
  }

  /** Setting the scene graph and the texture paths, in either order, and reading both back
      gives what was set; the destructor then releases exactly the scene graph that was set. */
  method SetThenGet(m: Model, s: SceneRef, tp: map<string, string>)
    returns (got: SceneRef, paths: map<string, string>, release: Release)
    requires s != Uninitialised
    modifies m
    ensures got == s && paths == tp
    ensures release == (if s.Points? then Released(s.graph) else NothingReleased)
  {
    m.SetScenegraph(s);
    m.SetTexturePaths(tp);
    got := m.GetScenegraph();
    paths := m.GetTexturePaths();
    release := m.Destroy();
  }
}
