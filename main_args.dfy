/** The command line of the application: at most one argument, the location of the scene
    description. The console output is returned as text. */
module CommandLine {
  import opened Wrappers
  import opened Scanner
  import AppModel

  /** The settings the command line controls. */
  datatype Config = Config(fileInput: string, textRender: bool)

  /** No scene location and the OpenGL renderer. */
  const DefaultConfig: Config := Config("", false)

  /** `parseArguments(argc, argv, config)`. `argv` holds the `argc` strings of the command
      line, the program name first; `config'` is `config` after the call and `out` what the
      call prints. More than one argument after the program name is refused and leaves the
      configuration alone; exactly one becomes the scene location; none changes nothing. */
  method ParseArguments(argc: int, argv: seq<string>, config: Config)
    returns (ok: bool, config': Config, out: string)
    requires 1 <= argc == |argv|
    ensures ok <==> argc <= 2
    ensures argc == 2 ==> config' == config.(fileInput := argv[1])
    ensures argc != 2 ==> config' == config
    ensures config'.textRender == config.textRender
    ensures ok ==> out == ""
    ensures !ok ==> out == "Unknown arguments supplied. " + Numeral(argc) + " arguments provided.\n"
  {
    config' := config;
    out := "";
    if argc > 2 {
      out := out + "Unknown arguments supplied. " + Numeral(argc) + " arguments provided.\n";
      return false, config', out;
    }
    var args := argv[1..argc];
    if |args| > 1 {
      // With at most two entries on the command line there is at most one argument.
      assert false;
      out := out + "Too many arguments provided.\n";
      return false, config', out;
    } else if |args| == 1 {
      config' := config'.(fileInput := args[0]);
    }
    return true, config', out;
  }

  const Usage: string := "Usage:\n  ./assignment7 [\"scenegraph-location\"]\n"

  /** What `main` hands the controller: the scene location and the text-render flag. */
  datatype Launch = Launch(fileInput: string, textRender: bool)

  /** `main` with a given model: the arguments are parsed into a default configuration. On
      failure the usage is printed, the exit status is 1 and leaving `main` destroys the model,
      whose outcome is `release`; otherwise the controller is started with the parsed
      configuration (its run, and the destruction after it, are not part of this model) and
      the status is 0. */
  method RunWith(argc: int, argv: seq<string>, model: AppModel.Model)
    returns (status: int, launched: Option<Launch>, out: string, release: Option<AppModel.Release>)
    requires 1 <= argc == |argv|
    ensures status == 1 <==> argc > 2
    ensures status == 0 <==> launched.Some?
    ensures status == 0 || status == 1
    ensures launched.Some? ==> launched.value.fileInput == (if argc == 2 then argv[1] else "")
    ensures launched.Some? ==> !launched.value.textRender
    ensures status == 1 ==> |out| > |Usage| && out[|out| - |Usage|..] == Usage
    ensures release.Some? <==> status == 1
    ensures release == Some(AppModel.IndeterminateRead) <==>
              status == 1 && model.scenegraph == AppModel.Uninitialised
    ensures release == Some(AppModel.NothingReleased) <==>
              status == 1 && model.scenegraph == AppModel.Null
  {
    release := None;
    var ok, config, printed := ParseArguments(argc, argv, DefaultConfig);
    out := printed;
    if !ok {
      out := out + Usage;
      assert out[|out| - |Usage|..] == Usage;
      var r := model.Destroy();
      return 1, None, out, Some(r);
    }
    launched := Some(Launch(config.fileInput, config.textRender));
    status := 0;
  }

  /** `main` as written: the model is built by its constructor, which leaves the scene-graph
      pointer unset, so a refused command line (`argc > 2`) destroys a model whose pointer is
      indeterminate. */
  method RunApplication(argc: int, argv: seq<string>)
    returns (status: int, launched: Option<Launch>, out: string, release: Option<AppModel.Release>)
    requires 1 <= argc == |argv|
    ensures status == 1 <==> argc > 2
    ensures status == 0 <==> launched.Some?
    ensures launched.Some? ==> launched.value.fileInput == (if argc == 2 then argv[1] else "")
    ensures launched.Some? ==> !launched.value.textRender
    ensures status == 1 ==> |out| > |Usage| && out[|out| - |Usage|..] == Usage
    ensures argc > 2 <==> release == Some(AppModel.IndeterminateRead)
    ensures argc <= 2 ==> release == None
  {
    var model := new AppModel.Model();
    status, launched, out, release := RunWith(argc, argv, model);
  }

  /** `main` with the model's pointer initialised to null: a refused command line destroys a
      model that releases nothing, and no run reads an indeterminate pointer. */
  method RunApplicationFixed(argc: int, argv: seq<string>)
    returns (status: int, launched: Option<Launch>, out: string, release: Option<AppModel.Release>)
    requires 1 <= argc == |argv|
    ensures status == 1 <==> argc > 2
    ensures status == 0 <==> launched.Some?
    ensures launched.Some? ==> launched.value.fileInput == (if argc == 2 then argv[1] else "")
    ensures launched.Some? ==> !launched.value.textRender
    ensures status == 1 ==> |out| > |Usage| && out[|out| - |Usage|..] == Usage
    ensures argc > 2 <==> release == Some(AppModel.NothingReleased)
    ensures argc <= 2 ==> release == None
    ensures release != Some(AppModel.IndeterminateRead)
  {
    var model := new AppModel.Model.Initialised();
    status, launched, out, release := RunWith(argc, argv, model);
  }

  /** `./assignment7 a b`: three entries on the command line reach the model's destructor with
      a pointer that was never set. */
  method TwoArgumentsAsWritten() returns (status: int, release: Option<AppModel.Release>)
    ensures status == 1 && release == Some(AppModel.IndeterminateRead)
  {
    var launched, out;
    status, launched, out, release := RunApplication(3, ["./assignment7", "a", "b"]);
  }
}
