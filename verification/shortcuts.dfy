/** The shortcuts the converter expands before anything else: `-d` (debug build), `-p`
    (production build) and `--output` (a file path split into `output-path` and
    `output-filename`). They rewrite the flags that the option handlers read later. */
module Shortcuts {
  import opened Wrappers
  import opened Strings
  import opened JsValues
  import opened Failures
  import opened Environment
  import opened Appliers
  import opened Defines

  const DebugDevtool: string := "eval-cheap-module-source-map"

  /** The definition `-p` adds. */
  const NodeEnvName: string := "process.env.NODE_ENV"
  const NodeEnvValue: string := "\"production\""
  const NodeEnvDefine: string := NodeEnvName + "=" + NodeEnvValue

  /** `flags[name]`, as JavaScript reads it: truthy or not. */
  predicate On(flags: Flags, name: string) {
    name in flags && Truthy(flags[name])
  }

  /** `-d`: turns `debug` and `output-pathinfo` on, and fills a falsy `devtool` and `mode`. */
  function DebugShortcut(flags: Flags): (r: Flags)
    ensures !On(flags, "d") ==> r == flags
    ensures On(flags, "d") ==>
              && "debug" in r && "output-pathinfo" in r && "devtool" in r && "mode" in r
              && r["debug"] == Bool(true) && r["output-pathinfo"] == Bool(true)
              && r["devtool"] == (if On(flags, "devtool") then flags["devtool"] else Str(DebugDevtool))
              && r["mode"] == (if On(flags, "mode") then flags["mode"] else Str("development"))
              && r.Keys == flags.Keys + {"debug", "output-pathinfo", "devtool", "mode"}
              && forall k :: k in flags && k !in {"debug", "output-pathinfo", "devtool", "mode"} ==> r[k] == flags[k]
  {
    if !On(flags, "d") then flags
    else
      var f1 := flags["debug" := Bool(true)]["output-pathinfo" := Bool(true)];
      var f2 := if On(f1, "devtool") then f1 else f1["devtool" := Str(DebugDevtool)];
      if On(f2, "mode") then f2 else f2["mode" := Str("development")]
  }

  /** `[].concat(argv.define || [])`: the definitions already given. */
  function PriorDefines(flags: Flags): (r: seq<Value>)
    ensures !On(flags, "define") ==> r == []
    ensures On(flags, "define") && IsArray(flags["define"]) ==> r == flags["define"].kind.items
    ensures On(flags, "define") && !IsArray(flags["define"]) ==> r == [flags["define"]]
  {
    if On(flags, "define") then Spread(flags["define"]) else []
  }

  /** `-p`: turns `optimize-minimize` on, appends the `NODE_ENV` definition to `define` (as an
      array), and fills a falsy `mode`. */
  function ProductionShortcut(flags: Flags): (r: Flags)
    ensures !On(flags, "p") ==> r == flags
    ensures On(flags, "p") ==>
              && "optimize-minimize" in r && "define" in r && "mode" in r
              && r["optimize-minimize"] == Bool(true)
              && r["define"] == ArrayOf(PriorDefines(flags) + [Str(NodeEnvDefine)])
              && r["mode"] == (if On(flags, "mode") then flags["mode"] else Str("production"))
              && r.Keys == flags.Keys + {"optimize-minimize", "define", "mode"}
              && forall k :: k in flags && k !in {"optimize-minimize", "define", "mode"} ==> r[k] == flags[k]
  {
    if !On(flags, "p") then flags
    else
      var f1 := flags["optimize-minimize" := Bool(true)]["define" := ArrayOf(PriorDefines(flags) + [Str(NodeEnvDefine)])];
      if On(f1, "mode") then f1 else f1["mode" := Str("production")]
  }

  /** `--output file`: `output-filename` becomes the file's base name and `output-path` its
      directory. The path is resolved against the working directory unless `argv.o` (not
      `argv.output`) is absolute; `path.isAbsolute` and `path.basename` throw for anything but a
      string. */
  function OutputShortcut(env: Env, flags: Flags): (r: Res<Flags>)
    ensures !On(flags, "output") ==> r == Success(flags)
    ensures On(flags, "output") ==>
              (r.Success? <==> flags["output"].Str? && "o" in flags && flags["o"].Str?)
    ensures On(flags, "output") && r.Success? ==>
              var file := if env.isAbsolute(flags["o"].s) then flags["output"].s else env.resolve(flags["output"].s);
              && r.value == flags["output-filename" := Str(env.basename(file))]["output-path" := Str(env.dirname(file))]
  {
    if !On(flags, "output") then Success(flags)
    else if !("o" in flags && flags["o"].Str?) then
      Failure(TypeError("The \"path\" argument must be of type string"))
    else if !flags["output"].Str? then
      Failure(TypeError("The \"path\" argument must be of type string"))
    else
      var output := flags["output"].s;
      var file := if env.isAbsolute(flags["o"].s) then output else env.resolve(output);
      Success(flags["output-filename" := Str(env.basename(file))]["output-path" := Str(env.dirname(file))])
  }

  /** The three shortcuts in the converter's order. */
  function ApplyShortcuts(env: Env, a: Args): (r: Res<Args>)
    ensures r.Success? ==> r.value.positional == a.positional
    ensures !On(a.flags, "d") && !On(a.flags, "p") && !On(a.flags, "output") ==> r == Success(a)
  {
    var f := ProductionShortcut(DebugShortcut(a.flags));
    var g :- OutputShortcut(env, f);
    Success(Args(g, a.positional))
  }

  /** With `-d` and `-p` together, `-d` sets `mode` first, so the build runs in development mode
      while still getting the production definition. */
  lemma DebugWinsMode(flags: Flags)
    requires On(flags, "d") && On(flags, "p") && !On(flags, "mode")
    ensures ProductionShortcut(DebugShortcut(flags))["mode"] == Str("development")
  {
    assert On(DebugShortcut(flags), "p");
  }

  /** When `argv.o` is missing (only `output` was given), `--output` throws: the absolute-path
      test reads the wrong property. */
  lemma OutputWithoutAlias(env: Env, flags: Flags)
    requires On(flags, "output") && "o" !in flags
    ensures OutputShortcut(env, flags).Failure?
  {
  }

  /** `-p` makes the DefinePlugin carry `process.env.NODE_ENV = "production"`, whatever was
      defined before: the appended definition comes last, so it wins. */
  lemma ProductionDefinesNodeEnv(flags: Flags, p: Props)
    requires On(flags, "p")
    requires forall i :: 0 <= i < |PriorDefines(flags)| ==> PriorDefines(flags)[i].Str?
    ensures var r := ApplyDefine(ProductionShortcut(flags), p);
            && r.Success?
            && PluginsOf(r.value)[0] == PluginValue(DefinePlugin(Definitions(Occurrences(ProductionShortcut(flags), "define"))))
            && NodeEnvName in Definitions(Occurrences(ProductionShortcut(flags), "define"))
            && Definitions(Occurrences(ProductionShortcut(flags), "define"))[NodeEnvName] == Str(NodeEnvValue)
  {
    var f := ProductionShortcut(flags);
    var occ := PriorDefines(flags) + [Str(NodeEnvDefine)];
    assert Occurrences(f, "define") == occ;
    assert forall i :: 0 <= i < |occ| ==> occ[i].Str?;
    assert '=' !in NodeEnvName;
    SplitPairJoin(NodeEnvName, NodeEnvValue);
    var last := |occ| - 1;
    assert PairAt(occ, last) == SplitPair(NodeEnvDefine);
    DefinitionLastWins(occ, last);
  }
}
