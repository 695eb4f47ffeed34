/** Finding and loading the configuration: the explicit `--config` files (each mapped to its
    resolved path and the extension that decides its compiler), or else the first default
    file `webpack.config.*` / `webpackfile.*` that exists; registering the compiler an
    extension needs; loading every file. */
module ConfigLocator {
  import opened Wrappers
  import opened Strings
  import opened JsValues
  import opened Failures
  import opened Environment

  /** Every default name with every extension, names outermost: `webpack.config` with each
      extension in order, then `webpackfile` with each. */
  function DefaultConfigFiles(env: Env, exts: seq<string>): (r: seq<ConfigFileRef>)
    ensures |r| == 2 * |exts|
    ensures forall i :: 0 <= i < |exts| ==>
              && r[i] == ConfigFileRef(env.resolve("webpack.config" + exts[i]), exts[i])
              && r[|exts| + i] == ConfigFileRef(env.resolve("webpackfile" + exts[i]), exts[i])
  {
    WithExtensions(env, "webpack.config", exts) + WithExtensions(env, "webpackfile", exts)
  }

  function WithExtensions(env: Env, name: string, exts: seq<string>): (r: seq<ConfigFileRef>)
    ensures |r| == |exts|
    ensures forall i :: 0 <= i < |exts| ==> r[i] == ConfigFileRef(env.resolve(name + exts[i]), exts[i])
  {
    seq(|exts|, i requires 0 <= i < |exts| => ConfigFileRef(env.resolve(name + exts[i]), exts[i]))
  }

  /** The position of the first file that exists, or -1. */
  function FirstExistingIndex(env: Env, files: seq<ConfigFileRef>): (r: int)
    ensures -1 <= r < |files|
    ensures r == -1 <==> forall i :: 0 <= i < |files| ==> !env.fileExists(files[i].path)
    ensures r >= 0 ==> env.fileExists(files[r].path) && forall i :: 0 <= i < r ==> !env.fileExists(files[i].path)
  {
    if |files| == 0 then -1
    else if env.fileExists(files[0].path) then 0
    else
      var k := FirstExistingIndex(env, files[1..]);
      if k < 0 then -1 else k + 1
  }

  /** The default search: at most one file, the first that exists. */
  function FirstExisting(env: Env, files: seq<ConfigFileRef>): (r: seq<ConfigFileRef>)
    ensures |r| <= 1
    ensures |r| == 0 <==> forall i :: 0 <= i < |files| ==> !env.fileExists(files[i].path)
    ensures |r| == 1 ==> env.fileExists(r[0].path) && r[0] in files
  {
    var k := FirstExistingIndex(env, files);
    if k < 0 then [] else [files[k]]
  }

  /** The position of the last extension (among the first `k`) that `path` ends with. The
      extensions are probed from the back, with the converter's `indexOf` test. */
  function LastSuffix(exts: seq<string>, path: string, k: nat): (r: Option<nat>)
    requires k <= |exts|
    ensures r.Some? ==> r.value < k && EndsWith(path, exts[r.value])
    ensures r.Some? ==> forall j :: r.value < j < k ==> !EndsWith(path, exts[j])
    ensures r.None? ==> forall j :: 0 <= j < k ==> !EndsWith(path, exts[j])
  {
    if k == 0 then None
    else
      SuffixProbe(path, exts[k - 1]);
      if IndexOfFrom(path, exts[k - 1], |path| - |exts[k - 1]|) > -1 then Some(k - 1)
      else LastSuffix(exts, path, k - 1)
  }

  /** `getConfigExtension(path)`: the last extension in the list that the path ends with, or
      else `path.extname`. With the list sorted by length, a longer match such as `.babel.js`
      wins over `.js`. */
  function ConfigExtension(extname: string -> string, exts: seq<string>, path: string): (r: string)
    ensures (forall j :: 0 <= j < |exts| ==> !EndsWith(path, exts[j])) ==> r == extname(path)
    ensures (exists j :: 0 <= j < |exts| && EndsWith(path, exts[j])) ==>
              exists i :: 0 <= i < |exts| && r == exts[i] && EndsWith(path, exts[i])
                          && forall j :: i < j < |exts| ==> !EndsWith(path, exts[j])
  {
    match LastSuffix(exts, path, |exts|)
    case Some(i) => exts[i]
    case None => extname(path)
  }

  /** Where an explicit `--config` path leads: the resolved path and the extension that
      decides its compiler. */
  function Locator(env: Env, exts: seq<string>): (f: string -> ConfigFileRef)
    ensures forall s :: f(s) == ConfigFileRef(env.resolve(s), ConfigExtension(env.extname, exts, env.resolve(s)))
  {
    s => ConfigFileRef(env.resolve(s), ConfigExtension(env.extname, exts, env.resolve(s)))
  }

  /** The explicit `--config` values, each located with no existence check. A value that is
      not a string makes `path.resolve` throw. */
  function ExplicitConfigFiles(locate: string -> ConfigFileRef, items: seq<Value>): (r: Res<seq<ConfigFileRef>>)
    ensures r.Success? <==> forall i :: 0 <= i < |items| ==> items[i].Str?
    ensures r.Success? ==> |r.value| == |items| && forall i :: 0 <= i < |items| ==> r.value[i] == locate(items[i].s)
  {
    if |items| == 0 then Success([])
    else
      var front := items[..|items| - 1];
      var last := items[|items| - 1];
      assert forall i :: 0 <= i < |front| ==> front[i] == items[i];
      match ExplicitConfigFiles(locate, front)
      case Failure(e) => Failure(e)
      case Success(done) =>
        if last.Str? then Success(done + [locate(last.s)])
        else Failure(TypeError("The \"path\" argument must be of type string"))
  }

  /** The files to load: the explicit ones when `argv.config` is truthy (an array or a single
      value), else the first default file that exists, if any. */
  function ConfigFiles(env: Env, a: Args, exts: seq<string>): (r: Res<seq<ConfigFileRef>>)
    ensures !Given(a, "config") ==> r == Success(FirstExisting(env, DefaultConfigFiles(env, exts)))
    ensures Given(a, "config") ==>
              var items := Spread(a.flags["config"]);
              && (r.Success? <==> forall i :: 0 <= i < |items| ==> items[i].Str?)
              && (r.Success? ==> |r.value| == |items| && forall i :: 0 <= i < |items| ==>
                    r.value[i] == ConfigFileRef(env.resolve(items[i].s), ConfigExtension(env.extname, exts, env.resolve(items[i].s))))
  {
    if Given(a, "config") then ExplicitConfigFiles(Locator(env, exts), Spread(a.flags["config"]))
    else Success(FirstExisting(env, DefaultConfigFiles(env, exts)))
  }

  /** Explicit files are taken as given: what exists on disk does not matter. */
  lemma ExplicitIgnoresFileSystem(env: Env, a: Args, exts: seq<string>, fileExists: string -> bool)
    requires Given(a, "config")
    ensures ConfigFiles(env.(fileExists := fileExists), a, exts) == ConfigFiles(env, a, exts)
  {
  }

  /** Without `--config`, a file `webpack.config.js` that exists is the one loaded, even when a
      `webpackfile` exists too. */
  lemma DefaultPrefersWebpackConfig(env: Env, a: Args, exts: seq<string>)
    requires !Given(a, "config")
    requires |exts| > 0 && exts[0] == ".js"
    requires env.fileExists(env.resolve("webpack.config.js"))
    ensures ConfigFiles(env, a, exts) == Success([ConfigFileRef(env.resolve("webpack.config.js"), ".js")])
  {
    var files := DefaultConfigFiles(env, exts);
    assert "webpack.config" + exts[0] == "webpack.config.js";
    assert files[0] == ConfigFileRef(env.resolve("webpack.config.js"), ".js");
    assert FirstExistingIndex(env, files) == 0;
  }

  /** `registerCompiler(descriptor)`: the modules required, in order. A module that cannot be
      required (or whose `register` throws) fails; for a list of alternatives, the first that
      works is used, and when none does the list is silently skipped. */
  function RegisterCompiler(env: Env, d: Descriptor): (r: Res<seq<string>>)
    ensures d.NoCompiler? ==> r == Success([])
    ensures d.ModuleName? ==> r == if env.canRequire(d.name) then Success([d.name]) else Failure(CompilerNotRegistered(d.name))
    ensures d.ModuleWithRegister? ==>
              r == if env.canRequire(d.moduleName) && env.canRegister(d.moduleName) then Success([d.moduleName])
                   else Failure(CompilerNotRegistered(d.moduleName))
    ensures d.Alternatives? ==> r.Success?
    decreases d, if d.Alternatives? then |d.options| + 1 else 0
  {
    match d
    case NoCompiler => Success([])
    case ModuleName(name) =>
      if env.canRequire(name) then Success([name]) else Failure(CompilerNotRegistered(name))
    case ModuleWithRegister(m) =>
      if env.canRequire(m) && env.canRegister(m) then Success([m]) else Failure(CompilerNotRegistered(m))
    case Alternatives(options) => TryAlternatives(env, d, 0)
  }

  /** The loop over alternatives from position `i`: the first that registers wins. */
  function TryAlternatives(env: Env, d: Descriptor, i: nat): (r: Res<seq<string>>)
    requires d.Alternatives? && i <= |d.options|
    ensures r.Success?
    decreases d, |d.options| - i
  {
    if i == |d.options| then Success([])
    else
      var attempt := RegisterCompiler(env, d.options[i]);
      if attempt.Success? then attempt else TryAlternatives(env, d, i + 1)
  }

  /** When no alternative from position `i` on registers, nothing is registered and the
      conversion goes on. */
  lemma {:induction false} AlternativesAllFail(env: Env, d: Descriptor, i: nat)
    requires d.Alternatives? && i <= |d.options|
    requires forall j :: i <= j < |d.options| ==> RegisterCompiler(env, d.options[j]).Failure?
    ensures TryAlternatives(env, d, i) == Success([])
    decreases |d.options| - i
  {
    if i < |d.options| {
      AlternativesAllFail(env, d, i + 1);
    }
  }

  /** The first alternative (from position `i` on) that registers is the one used. */
  lemma {:induction false} FirstAlternativeWins(env: Env, d: Descriptor, i: nat, k: nat)
    requires d.Alternatives? && i <= k < |d.options|
    requires RegisterCompiler(env, d.options[k]).Success?
    requires forall j :: i <= j < k ==> RegisterCompiler(env, d.options[j]).Failure?
    ensures TryAlternatives(env, d, i) == RegisterCompiler(env, d.options[k])
    decreases k - i
  {
    if i < k {
      FirstAlternativeWins(env, d, i + 1, k);
    }
  }

  /** `registerCompiler` then `requireConfig` for each file in turn; the first failure stops. */
  function LoadConfigs(env: Env, files: seq<ConfigFileRef>): (r: Res<seq<Value>>)
    ensures r.Success? <==> forall i :: 0 <= i < |files| ==>
              RegisterCompiler(env, env.compilerFor(files[i].ext)).Success? && env.loadConfig(files[i].path).Some?
    ensures r.Success? ==> |r.value| == |files| && forall i :: 0 <= i < |files| ==> env.loadConfig(files[i].path) == Some(r.value[i])
  {
    if |files| == 0 then Success([])
    else
      var front := files[..|files| - 1];
      var file := files[|files| - 1];
      assert forall i :: 0 <= i < |front| ==> front[i] == files[i];
      match LoadConfigs(env, front)
      case Failure(e) => Failure(e)
      case Success(done) =>
        match RegisterCompiler(env, env.compilerFor(file.ext))
        case Failure(e) => Failure(e)
        case Success(_) =>
          match env.loadConfig(file.path)
          case None => Failure(ConfigurationNotLoaded(file.path))
          case Some(v) => Success(done + [v])
  }

  /** What `processConfiguredOptions` starts from: `{}` when nothing was loaded, the single
      configuration itself, or the array of them. */
  function StartValue(loaded: seq<Value>): (r: Value)
    ensures |loaded| == 0 ==> r == EmptyObject()
    ensures |loaded| == 1 ==> r == loaded[0]
    ensures |loaded| > 1 ==> IsArray(r) && r.kind.items == loaded
  {
    if |loaded| == 0 then EmptyObject()
    else if |loaded| == 1 then loaded[0]
    else ArrayOf(loaded)
  }
}
