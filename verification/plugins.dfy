/** The handlers of `processOptions` that install plugins: `hot`, `debug` and
    `optimize-minimize` (boolean flags), `optimize-max-chunks`, `optimize-min-chunk-size`,
    `prefetch`, `provide` and `plugin` (one plugin per occurrence), and `loadPlugin`, which
    turns a `name?query` request into a plugin instance. Every plugin goes to the FRONT of
    `options.plugins`, so later occurrences end up first. */
module Plugins {
  import opened Wrappers
  import opened Strings
  import opened JsValues
  import opened Failures
  import opened Environment
  import opened Appliers

  /** The callback of a boolean plugin flag: `addPlugin(options, plugin)`. */
  function Fire(plugin: Plugin): Props -> Res<Props> {
    (t: Props) => Success(AddPlugin(t, plugin))
  }

  /** `n` copies of the same plugin. */
  function Copies(plugin: Plugin, n: nat): (r: seq<Value>)
    ensures |r| == n && forall i :: 0 <= i < n ==> r[i] == PluginValue(plugin)
  {
    if n == 0 then [] else [PluginValue(plugin)] + Copies(plugin, n - 1)
  }

  /** One occurrence of a boolean plugin flag. */
  lemma FireStep(plugin: Plugin, t: Props, x: Value)
    ensures OnTruthy(Fire(plugin))(t, x) == Success(if Truthy(x) then AddPlugin(t, plugin) else t)
  {
  }

  lemma {:induction false} FoldFires(plugin: Plugin, t0: Props, items: seq<Value>)
    ensures var r := FoldValues(t0, items, OnTruthy(Fire(plugin)));
            && r.Success?
            && (TruthyCount(items) == 0 ==> r.value == t0)
            && r.value - {"plugins"} == t0 - {"plugins"}
            && (TruthyCount(items) > 0 ==> PluginsOf(r.value) == Copies(plugin, TruthyCount(items)) + PluginsOf(t0))
    decreases |items|
  {
    if |items| > 0 {
      var front := items[..|items| - 1];
      var x := items[|items| - 1];
      FoldFires(plugin, t0, front);
      var mid := FoldValues(t0, front, OnTruthy(Fire(plugin))).value;
      FireStep(plugin, mid, x);
      assert FoldValues(t0, items, OnTruthy(Fire(plugin))) == OnTruthy(Fire(plugin))(mid, x);
      if Truthy(x) {
        var r := AddPlugin(mid, plugin);
        var n := TruthyCount(front);
        assert TruthyCount(items) == n + 1;
        assert PluginsOf(r) == [PluginValue(plugin)] + PluginsOf(mid);
        if n == 0 {
          assert Copies(plugin, 1) == [PluginValue(plugin)];
        } else {
          assert Copies(plugin, n + 1) == [PluginValue(plugin)] + Copies(plugin, n);
          ConcatAssoc([PluginValue(plugin)], Copies(plugin, n), PluginsOf(t0));
        }
      }
    }
  }

  /** `ifBooleanArg(name, () => addPlugin(options, plugin))`: one copy of the plugin in front of
      the existing ones per truthy occurrence; no truthy occurrence, no change at all. */
  function BooleanPlugin(flags: Flags, name: string, plugin: Plugin, p: Props): (r: Res<Props>)
    ensures r.Success?
    ensures var n := TruthyCount(Occurrences(flags, name));
            && (n == 0 ==> r.value == p)
            && r.value - {"plugins"} == p - {"plugins"}
            && (n > 0 ==> PluginsOf(r.value) == Copies(plugin, n) + PluginsOf(p))
  {
    IfArgFolds(flags, name, p, None, OnTruthy(Fire(plugin)), None);
    FoldFires(plugin, p, Occurrences(flags, name));
    IfBooleanArg(flags, name, p, Fire(plugin))
  }

  /** `hot`: a HotModuleReplacementPlugin. */
  function ApplyHot(flags: Flags, p: Props): (r: Res<Props>)
    ensures r.Success?
    ensures var n := TruthyCount(Occurrences(flags, "hot"));
            && (n == 0 ==> r.value == p)
            && r.value - {"plugins"} == p - {"plugins"}
            && (n > 0 ==> PluginsOf(r.value) == Copies(HotModuleReplacementPlugin, n) + PluginsOf(p))
  {
    BooleanPlugin(flags, "hot", HotModuleReplacementPlugin, p)
  }

  /** `debug`: a LoaderOptionsPlugin with `{ debug: true }`. */
  function ApplyDebug(flags: Flags, p: Props): (r: Res<Props>)
    ensures r.Success?
    ensures var n := TruthyCount(Occurrences(flags, "debug"));
            && (n == 0 ==> r.value == p)
            && r.value - {"plugins"} == p - {"plugins"}
            && (n > 0 ==> PluginsOf(r.value) == Copies(LoaderOptionsPlugin(map["debug" := Bool(true)]), n) + PluginsOf(p))
  {
    BooleanPlugin(flags, "debug", LoaderOptionsPlugin(map["debug" := Bool(true)]), p)
  }

  /** `optimize-minimize`: a LoaderOptionsPlugin with `{ minimize: true }`. */
  function ApplyMinimize(flags: Flags, p: Props): (r: Res<Props>)
    ensures r.Success?
    ensures var n := TruthyCount(Occurrences(flags, "optimize-minimize"));
            && (n == 0 ==> r.value == p)
            && r.value - {"plugins"} == p - {"plugins"}
            && (n > 0 ==> PluginsOf(r.value) == Copies(LoaderOptionsPlugin(map["minimize" := Bool(true)]), n) + PluginsOf(p))
  {
    BooleanPlugin(flags, "optimize-minimize", LoaderOptionsPlugin(map["minimize" := Bool(true)]), p)
  }

  /** `--hot` given once installs exactly one HotModuleReplacementPlugin in front. */
  lemma HotOnce(flags: Flags, p: Props)
    requires "hot" in flags && flags["hot"] == Bool(true)
    ensures ApplyHot(flags, p).Success?
    ensures PluginsOf(ApplyHot(flags, p).value) == [PluginValue(HotModuleReplacementPlugin)] + PluginsOf(p)
  {
    assert Occurrences(flags, "hot") == [Bool(true)];
    assert TruthyCount([Bool(true)]) == 1;
    assert Copies(HotModuleReplacementPlugin, 1) == [PluginValue(HotModuleReplacementPlugin)];
  }

  /** The callback of a plugin-per-occurrence flag: build the plugin, then `addPlugin`. */
  function Installing(make: Value -> Res<Plugin>): (Props, Value) -> Res<Props> {
    (t: Props, v: Value) =>
      match make(v)
      case Success(plugin) => Success(AddPlugin(t, plugin))
      case Failure(e) => Failure(e)
  }

  /** The plugins the occurrences build, latest first (the failing ones contribute none). */
  function Installed(make: Value -> Res<Plugin>, items: seq<Value>): (r: seq<Value>)
    ensures |r| <= |items|
  {
    if |items| == 0 then []
    else
      var rest := Installed(make, items[..|items| - 1]);
      match make(items[|items| - 1])
      case Success(plugin) => [PluginValue(plugin)] + rest
      case Failure(_) => rest
  }

  /** When every occurrence builds, the `i`-th one's plugin sits at position `|items| - 1 - i`. */
  lemma {:induction false} InstalledIndex(make: Value -> Res<Plugin>, items: seq<Value>, i: int)
    requires forall j :: 0 <= j < |items| ==> make(items[j]).Success?
    requires 0 <= i < |items|
    ensures |Installed(make, items)| == |items|
    ensures Installed(make, items)[|items| - 1 - i] == PluginValue(make(items[i]).value)
    decreases |items|
  {
    var front := items[..|items| - 1];
    assert forall j :: 0 <= j < |front| ==> front[j] == items[j];
    InstalledLength(make, front);
    if i < |items| - 1 {
      InstalledIndex(make, front, i);
    }
  }

  lemma {:induction false} InstalledLength(make: Value -> Res<Plugin>, items: seq<Value>)
    requires forall j :: 0 <= j < |items| ==> make(items[j]).Success?
    ensures |Installed(make, items)| == |items|
    decreases |items|
  {
    if |items| > 0 {
      var front := items[..|items| - 1];
      assert forall j :: 0 <= j < |front| ==> front[j] == items[j];
      InstalledLength(make, front);
    }
  }

  /** The occurrence builds a plugin. */
  function Builds(make: Value -> Res<Plugin>): (ok: Value -> bool)
    ensures forall v :: ok(v) == make(v).Success?
  {
    v => make(v).Success?
  }

  /** One occurrence: the built plugin goes in front, or the build's failure stops the run. */
  lemma InstallStep(make: Value -> Res<Plugin>, t: Props, x: Value)
    ensures Installing(make)(t, x).Success? <==> make(x).Success?
    ensures make(x).Success? ==> Installing(make)(t, x) == Success(AddPlugin(t, make(x).value))
  {
  }

  lemma {:induction false} FoldInstallsWalk(make: Value -> Res<Plugin>, t0: Props, items: seq<Value>)
    ensures FoldValues(t0, items, Installing(make)).Success? <==> AllOf(Builds(make), items)
    decreases |items|
  {
    if |items| > 0 {
      var front := items[..|items| - 1];
      FoldInstallsWalk(make, t0, front);
      var before := FoldValues(t0, front, Installing(make));
      if before.Success? {
        InstallStep(make, before.value, items[|items| - 1]);
      }
    }
  }

  /** When every occurrence builds, only `plugins` changes, and it gains the built plugins. */
  lemma {:induction false} FoldInstallsAll(make: Value -> Res<Plugin>, t0: Props, items: seq<Value>)
    requires AllOf(Builds(make), items)
    ensures var r := FoldValues(t0, items, Installing(make));
            && r.Success?
            && r.value - {"plugins"} == t0 - {"plugins"}
            && (|items| > 0 ==> PluginsOf(r.value) == Installed(make, items) + PluginsOf(t0))
    decreases |items|
  {
    if |items| > 0 {
      var front := items[..|items| - 1];
      var x := items[|items| - 1];
      FoldInstallsAll(make, t0, front);
      var mid := FoldValues(t0, front, Installing(make)).value;
      InstallStep(make, mid, x);
      var plugin := make(x).value;
      assert Installed(make, items) == [PluginValue(plugin)] + Installed(make, front);
      if |front| == 0 {
        assert Installed(make, front) == [];
      }
    }
  }

  lemma FoldInstalls(make: Value -> Res<Plugin>, t0: Props, items: seq<Value>)
    ensures var r := FoldValues(t0, items, Installing(make));
            && (r.Success? <==> forall i :: 0 <= i < |items| ==> make(items[i]).Success?)
            && (r.Success? && |items| == 0 ==> r.value == t0)
            && (r.Success? ==> r.value - {"plugins"} == t0 - {"plugins"})
            && (r.Success? && |items| > 0 ==> PluginsOf(r.value) == Installed(make, items) + PluginsOf(t0))
  {
    FoldInstallsWalk(make, t0, items);
    AllOfEach(Builds(make), items);
    if AllOf(Builds(make), items) {
      FoldInstallsAll(make, t0, items);
    }
  }

  /** `ifArg(name, v => addPlugin(options, make(v)))`: the plugins built from the occurrences,
      latest first, in front of the existing ones. A failure to build one stops the run. */
  function InstallEach(flags: Flags, name: string, make: Value -> Res<Plugin>, p: Props): (r: Res<Props>)
    ensures var occ := Occurrences(flags, name);
            && (r.Success? <==> forall i :: 0 <= i < |occ| ==> make(occ[i]).Success?)
            && (r.Success? && |occ| == 0 ==> r.value == p)
            && (r.Success? ==> r.value - {"plugins"} == p - {"plugins"})
            && (r.Success? && |occ| > 0 ==> PluginsOf(r.value) == Installed(make, occ) + PluginsOf(p))
  {
    IfArgFolds(flags, name, p, None, Installing(make), None);
    FoldInstalls(make, p, Occurrences(flags, name));
    IfArg(flags, name, p, None, Each(Installing(make)), None)
  }

  /** `new LimitChunkCountPlugin({ maxChunks: parseInt(value, 10) })`. */
  function MaxChunks(v: Value): Res<Plugin> {
    Success(LimitChunkCountPlugin(ParseInt(v)))
  }

  /** `new MinChunkSizePlugin({ minChunkSize: parseInt(value, 10) })`. */
  function MinChunkSize(v: Value): Res<Plugin> {
    Success(MinChunkSizePlugin(ParseInt(v)))
  }

  /** `new PrefetchPlugin(request)`. */
  function Prefetch(v: Value): Res<Plugin> {
    Success(PrefetchPlugin(v))
  }

  /** `provide`: `name=module` provides `module` as the free variable `name`; a bare `name`
      provides the module of that same name. A value that is not a string has no `indexOf`. */
  function Provide(v: Value): (r: Res<Plugin>)
    ensures r.Success? <==> v.Str?
    ensures v.Str? && '=' !in v.s ==> r == Success(ProvidePlugin(v.s, v.s))
    ensures v.Str? && '=' in v.s ==>
              && r.value.ProvidePlugin?
              && v.s == r.value.name + "=" + r.value.request
              && '=' !in r.value.name
  {
    if v.Str? then
      var pr := SplitPair(v.s);
      Success(ProvidePlugin(if pr.key.None? then pr.value else pr.key.value, pr.value))
    else Failure(TypeError("value.indexOf is not a function"))
  }

  /** `--provide name=module` reads back as exactly that name and module. */
  lemma ProvideOfPair(name: string, request: string)
    requires '=' !in name
    ensures Provide(Str(name + "=" + request)) == Success(ProvidePlugin(name, request))
  {
    SplitPairJoin(name, request);
  }

  function ApplyMaxChunks(flags: Flags, p: Props): (r: Res<Props>)
    ensures r.Success?
    ensures var occ := Occurrences(flags, "optimize-max-chunks");
            && (|occ| == 0 ==> r.value == p)
            && r.value - {"plugins"} == p - {"plugins"}
            && (|occ| > 0 ==> PluginsOf(r.value) == Installed(MaxChunks, occ) + PluginsOf(p))
  {
    InstallEach(flags, "optimize-max-chunks", MaxChunks, p)
  }

  function ApplyMinChunkSize(flags: Flags, p: Props): (r: Res<Props>)
    ensures r.Success?
    ensures var occ := Occurrences(flags, "optimize-min-chunk-size");
            && (|occ| == 0 ==> r.value == p)
            && r.value - {"plugins"} == p - {"plugins"}
            && (|occ| > 0 ==> PluginsOf(r.value) == Installed(MinChunkSize, occ) + PluginsOf(p))
  {
    InstallEach(flags, "optimize-min-chunk-size", MinChunkSize, p)
  }

  function ApplyPrefetch(flags: Flags, p: Props): (r: Res<Props>)
    ensures r.Success?
    ensures var occ := Occurrences(flags, "prefetch");
            && (|occ| == 0 ==> r.value == p)
            && r.value - {"plugins"} == p - {"plugins"}
            && (|occ| > 0 ==> PluginsOf(r.value) == Installed(Prefetch, occ) + PluginsOf(p))
  {
    InstallEach(flags, "prefetch", Prefetch, p)
  }

  function ApplyProvide(flags: Flags, p: Props): (r: Res<Props>)
    ensures var occ := Occurrences(flags, "provide");
            && (r.Success? <==> forall i :: 0 <= i < |occ| ==> occ[i].Str?)
            && (r.Success? && |occ| == 0 ==> r.value == p)
            && (r.Success? ==> r.value - {"plugins"} == p - {"plugins"})
            && (r.Success? && |occ| > 0 ==> PluginsOf(r.value) == Installed(Provide, occ) + PluginsOf(p))
  {
    InstallEach(flags, "provide", Provide, p)
  }

  /** `--optimize-max-chunks 5` installs `LimitChunkCountPlugin({ maxChunks: 5 })`. */
  lemma MaxChunksOfDecimal(flags: Flags, p: Props, n: nat)
    requires "optimize-max-chunks" in flags && flags["optimize-max-chunks"] == Str(NatToString(n))
    ensures PluginsOf(ApplyMaxChunks(flags, p).value)
         == [PluginValue(LimitChunkCountPlugin(Num(n)))] + PluginsOf(p)
  {
    var occ := Occurrences(flags, "optimize-max-chunks");
    assert occ == [Str(NatToString(n))];
    ParseIntOfDecimal(n, "");
    assert NatToString(n) + "" == NatToString(n);
    assert Installed(MaxChunks, occ) == [PluginValue(LimitChunkCountPlugin(Num(n)))];
  }

  /** A `plugin` request split at its first `?`: the module name and the query handed to
      `parseQuery` (none when there is no `?`). The empty request is treated as if its `?` were
      at position 0, because `"" && ...` yields `""`, which compares greater than -1. */
  datatype Request = Request(name: string, query: Option<string>)

  function SplitRequest(s: string): (r: Request)
    ensures r.query.None? <==> |s| > 0 && '?' !in s
    ensures r.query.None? ==> r.name == s
    ensures r.query.Some? ==> s == r.name + r.query.value && '?' !in r.name
    ensures r.query.Some? && |s| > 0 ==> |r.query.value| > 0 && r.query.value[0] == '?'
  {
    if |s| == 0 then Request("", Some(""))
    else
      var q := IndexOf(s, '?');
      if q < 0 then Request(s, None)
      else
        assert s == s[..q] + s[q..];
        Request(s[..q], Some(s[q..]))
  }

  /** `name?query` splits back into `name` and `?query`. */
  lemma SplitRequestJoin(name: string, query: string)
    requires '?' !in name
    ensures SplitRequest(name + "?" + query) == Request(name, Some("?" + query))
  {
    IndexOfAfter(name, '?', query);
    var s := name + "?" + query;
    assert s == name + ['?'] + query;
    assert s[..|name|] == name;
    assert s[|name|..] == "?" + query;
  }

  /** `loadPlugin(value)`. A request that is not a string never reaches the resolver: its
      `indexOf` throws inside the argument parsing (reported as invalid arguments), except NaN,
      which skips the parsing and fails to resolve. */
  function LoadPlugin(env: Env, v: Value): (r: Res<Plugin>)
    ensures !v.Str? && !v.NaN? ==> r.Failure? && r.error.InvalidPluginArguments?
    ensures v.NaN? ==> r == Failure(CannotResolvePlugin("NaN"))
    ensures r.Success? ==> v.Str? && r.value.LoadedPlugin?
    ensures v.Str? ==>
              var req := SplitRequest(v.s);
              var args := if req.query.None? then Success(None) else env.parseQuery(req.query.value).Map(x => Some(x));
              && (args.Failure? ==> r == Failure(InvalidPluginArguments(v.s, args.error)))
              && (args.Success? && env.resolvePlugin(req.name).None? ==> r == Failure(CannotResolvePlugin(req.name)))
              && (args.Success? && env.resolvePlugin(req.name).Some? ==>
                    var path := env.resolvePlugin(req.name).value;
                    r == if !env.canRequire(path) then Failure(CannotLoadPlugin(req.name, path))
                         else if !env.canConstruct(path, args.value) then Failure(CannotInstantiatePlugin(req.name, path))
                         else Success(LoadedPlugin(path, args.value)))
  {
    if v.NaN? then Failure(CannotResolvePlugin("NaN"))
    else if !v.Str? then
      Failure(InvalidPluginArguments(Display(v), "TypeError: name.substring is not a function"))
    else
      var req := SplitRequest(v.s);
      var args: Result<Option<Value>, string> :=
        if req.query.None? then Success(None)
        else match env.parseQuery(req.query.value)
             case Success(x) => Success(Some(x))
             case Failure(err) => Failure(err);
      match args
      case Failure(err) => Failure(InvalidPluginArguments(v.s, err))
      case Success(a) =>
        match env.resolvePlugin(req.name)
        case None => Failure(CannotResolvePlugin(req.name))
        case Some(path) =>
          if !env.canRequire(path) then Failure(CannotLoadPlugin(req.name, path))
          else if !env.canConstruct(path, a) then Failure(CannotInstantiatePlugin(req.name, path))
          else Success(LoadedPlugin(path, a))
  }

  /** The constructor of `plugin`: `loadPlugin` with the environment fixed. */
  function Loader(env: Env): Value -> Res<Plugin> {
    (v: Value) => LoadPlugin(env, v)
  }

  /** `plugin`: one loaded plugin per occurrence, latest first; the first request that cannot be
      parsed, resolved, loaded or instantiated stops the run. */
  function ApplyPlugin(env: Env, flags: Flags, p: Props): (r: Res<Props>)
    ensures var occ := Occurrences(flags, "plugin");
            && (r.Success? <==> forall i :: 0 <= i < |occ| ==> LoadPlugin(env, occ[i]).Success?)
            && (r.Success? && |occ| == 0 ==> r.value == p)
            && (r.Success? ==> r.value - {"plugins"} == p - {"plugins"})
            && (r.Success? && |occ| > 0 ==> PluginsOf(r.value) == Installed(Loader(env), occ) + PluginsOf(p))
  {
    InstallEach(flags, "plugin", Loader(env), p)
  }

  /** `--plugin name?query` resolves `name` and hands the parsed `?query` to the constructor. */
  lemma LoadPluginWithQuery(env: Env, name: string, query: string)
    requires '?' !in name
    requires env.parseQuery("?" + query).Success?
    requires env.resolvePlugin(name).Some?
    requires env.canRequire(env.resolvePlugin(name).value)
    requires env.canConstruct(env.resolvePlugin(name).value, Some(env.parseQuery("?" + query).value))
    ensures LoadPlugin(env, Str(name + "?" + query))
         == Success(LoadedPlugin(env.resolvePlugin(name).value, Some(env.parseQuery("?" + query).value)))
  {
    SplitRequestJoin(name, query);
  }
}
