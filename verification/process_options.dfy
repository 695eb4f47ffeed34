/** `processOptions`: the command-line flags applied to one options object, handler by handler
    in the order the converter lists them, then the positional arguments. The first handler
    that throws stops the run. */
module ProcessOptions {
  import opened Wrappers
  import opened JsValues
  import opened Failures
  import opened Environment
  import opened Appliers
  import opened OptionWrites
  import opened Entries
  import opened ModuleRules
  import opened Defines
  import opened ResolveAlias
  import opened Plugins

  /** None of the flags is given (a `null` counts as not given). */
  predicate Quiet(flags: Flags, names: seq<string>) {
    forall i :: 0 <= i < |names| ==> !Present(flags, names[i])
  }

  const ModuleFlags: seq<string> :=
    ["mode", "entry", "module-bind", "module-bind-pre", "module-bind-post", "define"]

  const OutputFlags: seq<string> :=
    ["output-path", "output-filename", "output-chunk-filename", "output-source-map-filename",
     "output-public-path", "output-jsonp-function", "output-pathinfo", "output-library",
     "output-library-target"]

  const RecordsFlags: seq<string> :=
    ["records-input-path", "records-output-path", "records-path", "target"]

  const ResolveFlags: seq<string> :=
    ["cache", "hot", "debug", "devtool", "resolve-alias", "resolve-loader-alias", "resolve-extensions"]

  const OptimizeFlags: seq<string> :=
    ["optimize-max-chunks", "optimize-min-chunk-size", "optimize-minimize", "prefetch", "provide",
     "plugin", "bail", "profile"]

  /** The option keys each stage may write. */
  const ModuleWrites: set<string> := {"mode", "entry", "module", "plugins"}
  const OutputWrites: set<string> := {"output"}
  const RecordsWrites: set<string> := {"recordsInputPath", "recordsOutputPath", "recordsPath", "target"}
  const ResolveWrites: set<string> := {"cache", "plugins", "devtool", "resolve", "resolveLoader"}
  const OptimizeWrites: set<string> := {"plugins", "bail", "profile"}

  /** Every option key `processOptions` may write. */
  const AllWrites: set<string> := ModuleWrites + OutputWrites + RecordsWrites + ResolveWrites + OptimizeWrites

  /** Every flag `processOptions` reads. */
  const AllFlags: seq<string> := ModuleFlags + OutputFlags + RecordsFlags + ResolveFlags + OptimizeFlags

  /** One handler of `processOptions`, applied to the options object. */
  type Step = Props -> Res<Props>

  /** The steps run in order; the first that fails stops the run. */
  function Chain(steps: seq<Step>, p: Props): Res<Props>
    decreases |steps|
  {
    if |steps| == 0 then Success(p)
    else
      match steps[0](p)
      case Failure(e) => Failure(e)
      case Success(q) => Chain(steps[1..], q)
  }

  /** The step writes no key outside `W`. */
  ghost predicate Within(f: Step, W: set<string>) {
    forall q :: f(q).Success? ==> f(q).value - W == q - W
  }

  /** The step leaves every options object as it is. */
  ghost predicate Idle(f: Step) {
    forall q :: f(q) == Success(q)
  }

  lemma Widen(f: Step, V: set<string>, W: set<string>)
    requires V <= W && Within(f, V)
    ensures Within(f, W)
  {
    forall q | f(q).Success? ensures f(q).value - W == q - W {
      SameOutside(q, f(q).value, V, W);
    }
  }

  /** Steps that each write only inside `W` together write only inside `W`. */
  lemma {:induction false} ChainWithin(steps: seq<Step>, W: set<string>, p: Props)
    requires forall i :: 0 <= i < |steps| ==> Within(steps[i], W)
    ensures Chain(steps, p).Success? ==> Chain(steps, p).value - W == p - W
    decreases |steps|
  {
    if |steps| > 0 {
      var r0 := steps[0](p);
      assert Within(steps[0], W);
      if r0.Success? {
        assert forall i :: 0 <= i < |steps| - 1 ==> steps[1..][i] == steps[i + 1];
        ChainWithin(steps[1..], W, r0.value);
      }
    }
  }

  /** Steps that each change nothing together change nothing. */
  lemma {:induction false} ChainIdle(steps: seq<Step>, p: Props)
    requires forall i :: 0 <= i < |steps| ==> Idle(steps[i])
    ensures Chain(steps, p) == Success(p)
    decreases |steps|
  {
    if |steps| > 0 {
      assert Idle(steps[0]);
      assert steps[0](p) == Success(p);
      assert forall i :: 0 <= i < |steps| - 1 ==> steps[1..][i] == steps[i + 1];
      ChainIdle(steps[1..], p);
    }
  }

  /** A run whose first step succeeds and whose other steps change nothing ends where the
      first step left it. */
  lemma ChainHead(steps: seq<Step>, p: Props, q: Props)
    requires |steps| > 0 && steps[0](p) == Success(q)
    requires forall i :: 1 <= i < |steps| ==> Idle(steps[i])
    ensures Chain(steps, p) == Success(q)
  {
    assert forall i :: 0 <= i < |steps| - 1 ==> steps[1..][i] == steps[i + 1];
    ChainIdle(steps[1..], q);
  }

  /** A stage whose `i`-th step writes only inside `W` and does nothing when flag `names[i]` is
      absent: with none of its flags given it changes nothing, and it never writes outside `W`. */
  lemma StageLaws(steps: seq<Step>, names: seq<string>, flags: Flags, W: set<string>, p: Props)
    requires |steps| == |names|
    requires forall i :: 0 <= i < |steps| ==> Within(steps[i], W)
    requires forall i :: 0 <= i < |steps| && !Present(flags, names[i]) ==> Idle(steps[i])
    ensures Quiet(flags, names) ==> Chain(steps, p) == Success(p)
    ensures Chain(steps, p).Success? ==> Chain(steps, p).value - W == p - W
  {
    ChainWithin(steps, W, p);
    if Quiet(flags, names) {
      ChainIdle(steps, p);
    }
  }

  // ---------------------------------------------------------------- the five stages

  /** `mode`, `entry`, the three `module-bind*` flags and `define`, one step per flag. */
  function ModuleSteps(flags: Flags): seq<Step> {
    [ (q: Props) => CopyArg(flags, "mode", "mode", q),
      (q: Props) => ApplyEntry(flags, q),
      (q: Props) => BindRules(flags, "module-bind", q),
      (q: Props) => BindRules(flags, "module-bind-pre", q),
      (q: Props) => BindRules(flags, "module-bind-post", q),
      (q: Props) => ApplyDefine(flags, q) ]
  }

  /** `mode` writes only `mode`, `entry` only `entry`, the `module-bind*` flags only `module`,
      `define` only `plugins`. */
  lemma ModuleStepsWithin(flags: Flags)
    ensures var s := ModuleSteps(flags);
            |s| == |ModuleFlags| && forall i :: 0 <= i < |s| ==> Within(s[i], ModuleWrites)
  {
    var s := ModuleSteps(flags);
    forall i | 0 <= i < |s| ensures Within(s[i], ModuleWrites) {
      if i == 0 {
        assert Within(s[0], {"mode"});
        Widen(s[0], {"mode"}, ModuleWrites);
      } else if i == 1 {
        assert Within(s[1], {"entry"});
        Widen(s[1], {"entry"}, ModuleWrites);
      } else if i == 5 {
        assert Within(s[5], {"plugins"});
        Widen(s[5], {"plugins"}, ModuleWrites);
      } else {
        assert Within(s[i], {"module"});
        Widen(s[i], {"module"}, ModuleWrites);
      }
    }
  }

  /** Each step of the first stage does nothing when its flag is absent. */
  lemma ModuleStepsIdle(flags: Flags)
    ensures var s := ModuleSteps(flags);
            forall i :: 0 <= i < |s| && !Present(flags, ModuleFlags[i]) ==> Idle(s[i])
  {
  }

  function ModuleStage(flags: Flags, p: Props): (r: Res<Props>)
    ensures Quiet(flags, ModuleFlags) ==> r == Success(p)
    ensures r.Success? ==> r.value - ModuleWrites == p - ModuleWrites
  {
    ModuleStepsWithin(flags);
    ModuleStepsIdle(flags);
    StageLaws(ModuleSteps(flags), ModuleFlags, flags, ModuleWrites, p);
    Chain(ModuleSteps(flags), p)
  }

  /** The `output-*` flags, one step per flag. */
  function OutputSteps(env: Env, flags: Flags): seq<Step> {
    [ (q: Props) => OutputPath(env, flags, q),
      (q: Props) => OutputArg(flags, "output-filename", "filename", q),
      (q: Props) => OutputArg(flags, "output-chunk-filename", "chunkFilename", q),
      (q: Props) => OutputArg(flags, "output-source-map-filename", "sourceMapFilename", q),
      (q: Props) => OutputArg(flags, "output-public-path", "publicPath", q),
      (q: Props) => OutputArg(flags, "output-jsonp-function", "jsonpFunction", q),
      (q: Props) => OutputPathinfo(flags, q),
      (q: Props) => OutputArg(flags, "output-library", "library", q),
      (q: Props) => OutputArg(flags, "output-library-target", "libraryTarget", q) ]
  }

  /** Every `output-*` handler writes only `output`. */
  lemma OutputStepsWithin(env: Env, flags: Flags)
    ensures var s := OutputSteps(env, flags);
            |s| == |OutputFlags| && forall i :: 0 <= i < |s| ==> Within(s[i], OutputWrites)
  {
    var s := OutputSteps(env, flags);
    forall i | 0 <= i < |s| ensures Within(s[i], OutputWrites) {
      if i == 0 {
        assert Within(s[0], OutputWrites);
      } else if i == 6 {
        assert Within(s[6], OutputWrites);
      } else {
        assert Within(s[i], OutputWrites);
      }
    }
  }

  /** Each `output-*` handler does nothing when its flag is absent. */
  lemma OutputStepsIdle(env: Env, flags: Flags)
    ensures var s := OutputSteps(env, flags);
            forall i :: 0 <= i < |s| && !Present(flags, OutputFlags[i]) ==> Idle(s[i])
  {
    var s := OutputSteps(env, flags);
    forall i | 0 <= i < |s| && !Present(flags, OutputFlags[i]) ensures Idle(s[i]) {
      if i == 0 {
        assert Idle(s[0]);
      } else if i == 6 {
        assert Idle(s[6]);
      } else {
        assert Idle(s[i]);
      }
    }
  }

  function OutputStage(env: Env, flags: Flags, p: Props): (r: Res<Props>)
    ensures Quiet(flags, OutputFlags) ==> r == Success(p)
    ensures r.Success? ==> r.value - OutputWrites == p - OutputWrites
  {
    OutputStepsWithin(env, flags);
    OutputStepsIdle(env, flags);
    StageLaws(OutputSteps(env, flags), OutputFlags, flags, OutputWrites, p);
    Chain(OutputSteps(env, flags), p)
  }

  /** The `records-*` flags and `target`, one step per flag. */
  function RecordsSteps(env: Env, flags: Flags): seq<Step> {
    [ (q: Props) => RecordsPath(env, flags, "records-input-path", "recordsInputPath", q),
      (q: Props) => RecordsPath(env, flags, "records-output-path", "recordsOutputPath", q),
      (q: Props) => RecordsPath(env, flags, "records-path", "recordsPath", q),
      (q: Props) => CopyArg(flags, "target", "target", q) ]
  }

  /** Each `records-*` flag writes only its own field, `target` only `target`. */
  lemma RecordsStepsWithin(env: Env, flags: Flags)
    ensures var s := RecordsSteps(env, flags);
            |s| == |RecordsFlags| && forall i :: 0 <= i < |s| ==> Within(s[i], RecordsWrites)
  {
    var s := RecordsSteps(env, flags);
    forall i | 0 <= i < |s| ensures Within(s[i], RecordsWrites) {
      if i == 0 {
        assert Within(s[0], {"recordsInputPath"});
        Widen(s[0], {"recordsInputPath"}, RecordsWrites);
      } else if i == 1 {
        assert Within(s[1], {"recordsOutputPath"});
        Widen(s[1], {"recordsOutputPath"}, RecordsWrites);
      } else if i == 2 {
        assert Within(s[2], {"recordsPath"});
        Widen(s[2], {"recordsPath"}, RecordsWrites);
      } else {
        assert Within(s[3], {"target"});
        Widen(s[3], {"target"}, RecordsWrites);
      }
    }
  }

  /** Each `records-*` and `target` handler does nothing when its flag is absent. */
  lemma RecordsStepsIdle(env: Env, flags: Flags)
    ensures var s := RecordsSteps(env, flags);
            forall i :: 0 <= i < |s| && !Present(flags, RecordsFlags[i]) ==> Idle(s[i])
  {
    var s := RecordsSteps(env, flags);
    forall i | 0 <= i < |s| && !Present(flags, RecordsFlags[i]) ensures Idle(s[i]) {
      if i == 3 {
        assert Idle(s[3]);
      } else {
        assert Idle(s[i]);
      }
    }
  }

  function RecordsStage(env: Env, flags: Flags, p: Props): (r: Res<Props>)
    ensures Quiet(flags, RecordsFlags) ==> r == Success(p)
    ensures r.Success? ==> r.value - RecordsWrites == p - RecordsWrites
  {
    RecordsStepsWithin(env, flags);
    RecordsStepsIdle(env, flags);
    StageLaws(RecordsSteps(env, flags), RecordsFlags, flags, RecordsWrites, p);
    Chain(RecordsSteps(env, flags), p)
  }

  /** `cache`, `hot`, `debug`, `devtool` and the `resolve-*` flags, one step per flag. */
  function ResolveSteps(flags: Flags): seq<Step> {
    [ (q: Props) => MapArgToBoolean(flags, "cache", q),
      (q: Props) => ApplyHot(flags, q),
      (q: Props) => ApplyDebug(flags, q),
      (q: Props) => CopyArg(flags, "devtool", "devtool", q),
      (q: Props) => ApplyResolveAlias(flags, "resolve-alias", "resolve", q),
      (q: Props) => ApplyResolveAlias(flags, "resolve-loader-alias", "resolveLoader", q),
      (q: Props) => ResolveExtensions(flags, q) ]
  }

  /** `cache` writes only `cache`, `hot` and `debug` only `plugins`, `devtool` only `devtool`, the
      alias flags only `resolve` or `resolveLoader`, `resolve-extensions` only `resolve`. */
  lemma ResolveStepsWithin(flags: Flags)
    ensures var s := ResolveSteps(flags);
            |s| == |ResolveFlags| && forall i :: 0 <= i < |s| ==> Within(s[i], ResolveWrites)
  {
    var s := ResolveSteps(flags);
    forall i | 0 <= i < |s| ensures Within(s[i], ResolveWrites) {
      if i == 0 {
        assert Within(s[0], {"cache"});
        Widen(s[0], {"cache"}, ResolveWrites);
      } else if i == 1 || i == 2 {
        assert Within(s[i], {"plugins"});
        Widen(s[i], {"plugins"}, ResolveWrites);
      } else if i == 3 {
        assert Within(s[3], {"devtool"});
        Widen(s[3], {"devtool"}, ResolveWrites);
      } else if i == 5 {
        assert Within(s[5], {"resolveLoader"});
        Widen(s[5], {"resolveLoader"}, ResolveWrites);
      } else {
        assert Within(s[i], {"resolve"});
        Widen(s[i], {"resolve"}, ResolveWrites);
      }
    }
  }

  /** Each handler of the fourth stage does nothing when its flag is absent. */
  lemma ResolveStepsIdle(flags: Flags)
    ensures var s := ResolveSteps(flags);
            forall i :: 0 <= i < |s| && !Present(flags, ResolveFlags[i]) ==> Idle(s[i])
  {
  }

  function ResolveStage(flags: Flags, p: Props): (r: Res<Props>)
    ensures Quiet(flags, ResolveFlags) ==> r == Success(p)
    ensures r.Success? ==> r.value - ResolveWrites == p - ResolveWrites
  {
    ResolveStepsWithin(flags);
    ResolveStepsIdle(flags);
    StageLaws(ResolveSteps(flags), ResolveFlags, flags, ResolveWrites, p);
    Chain(ResolveSteps(flags), p)
  }

  /** The `optimize-*` flags, `prefetch`, `provide`, `plugin`, `bail` and `profile`, one step
      per flag. */
  function OptimizeSteps(env: Env, flags: Flags): seq<Step> {
    [ (q: Props) => ApplyMaxChunks(flags, q),
      (q: Props) => ApplyMinChunkSize(flags, q),
      (q: Props) => ApplyMinimize(flags, q),
      (q: Props) => ApplyPrefetch(flags, q),
      (q: Props) => ApplyProvide(flags, q),
      (q: Props) => ApplyPlugin(env, flags, q),
      (q: Props) => MapArgToBoolean(flags, "bail", q),
      (q: Props) => MapArgToBoolean(flags, "profile", q) ]
  }

  /** The plugin flags write only `plugins`, `bail` only `bail`, `profile` only `profile`. */
  lemma OptimizeStepsWithin(env: Env, flags: Flags)
    ensures var s := OptimizeSteps(env, flags);
            |s| == |OptimizeFlags| && forall i :: 0 <= i < |s| ==> Within(s[i], OptimizeWrites)
  {
    var s := OptimizeSteps(env, flags);
    forall i | 0 <= i < |s| ensures Within(s[i], OptimizeWrites) {
      if i == 6 {
        assert Within(s[6], {"bail"});
        Widen(s[6], {"bail"}, OptimizeWrites);
      } else if i == 7 {
        assert Within(s[7], {"profile"});
        Widen(s[7], {"profile"}, OptimizeWrites);
      } else {
        assert Within(s[i], {"plugins"});
        Widen(s[i], {"plugins"}, OptimizeWrites);
      }
    }
  }

  /** Each handler of the last stage does nothing when its flag is absent. */
  lemma OptimizeStepsIdle(env: Env, flags: Flags)
    ensures var s := OptimizeSteps(env, flags);
            forall i :: 0 <= i < |s| && !Present(flags, OptimizeFlags[i]) ==> Idle(s[i])
  {
  }

  function OptimizeStage(env: Env, flags: Flags, p: Props): (r: Res<Props>)
    ensures Quiet(flags, OptimizeFlags) ==> r == Success(p)
    ensures r.Success? ==> r.value - OptimizeWrites == p - OptimizeWrites
  {
    OptimizeStepsWithin(env, flags);
    OptimizeStepsIdle(env, flags);
    StageLaws(OptimizeSteps(env, flags), OptimizeFlags, flags, OptimizeWrites, p);
    Chain(OptimizeSteps(env, flags), p)
  }

  // ---------------------------------------------------------------- the whole run

  /** Every handler of the five stages, in the order the converter lists them: the `i`-th
      reads flag `AllFlags[i]`. */
  function AllSteps(env: Env, flags: Flags): seq<Step> {
    ModuleSteps(flags) + OutputSteps(env, flags) + RecordsSteps(env, flags) + ResolveSteps(flags)
    + OptimizeSteps(env, flags)
  }

  /** Every handler writes only keys in `AllWrites`. */
  lemma AllStepsWithin(env: Env, flags: Flags)
    ensures var s := AllSteps(env, flags);
            |s| == |AllFlags| && forall i :: 0 <= i < |s| ==> Within(s[i], AllWrites)
  {
    var s := AllSteps(env, flags);
    var m, o, c, v, z := ModuleSteps(flags), OutputSteps(env, flags), RecordsSteps(env, flags),
                         ResolveSteps(flags), OptimizeSteps(env, flags);
    ModuleStepsWithin(flags);
    OutputStepsWithin(env, flags);
    RecordsStepsWithin(env, flags);
    ResolveStepsWithin(flags);
    OptimizeStepsWithin(env, flags);
    forall i | 0 <= i < |s| ensures Within(s[i], AllWrites) {
      if i < 6 {
        assert s[i] == m[i];
        Widen(m[i], ModuleWrites, AllWrites);
      } else if i < 15 {
        assert s[i] == o[i - 6];
        Widen(o[i - 6], OutputWrites, AllWrites);
      } else if i < 19 {
        assert s[i] == c[i - 15];
        Widen(c[i - 15], RecordsWrites, AllWrites);
      } else if i < 26 {
        assert s[i] == v[i - 19];
        Widen(v[i - 19], ResolveWrites, AllWrites);
      } else {
        assert s[i] == z[i - 26];
        Widen(z[i - 26], OptimizeWrites, AllWrites);
      }
    }
  }

  /** Every handler does nothing when its flag is absent. */
  lemma AllStepsIdle(env: Env, flags: Flags)
    ensures var s := AllSteps(env, flags);
            |s| == |AllFlags| && forall i :: 0 <= i < |s| && !Present(flags, AllFlags[i]) ==> Idle(s[i])
  {
    var s := AllSteps(env, flags);
    var m, o, c, v, z := ModuleSteps(flags), OutputSteps(env, flags), RecordsSteps(env, flags),
                         ResolveSteps(flags), OptimizeSteps(env, flags);
    ModuleStepsIdle(flags);
    OutputStepsIdle(env, flags);
    RecordsStepsIdle(env, flags);
    ResolveStepsIdle(flags);
    OptimizeStepsIdle(env, flags);
    forall i | 0 <= i < |s| && !Present(flags, AllFlags[i]) ensures Idle(s[i]) {
      if i < 6 {
        assert s[i] == m[i] && AllFlags[i] == ModuleFlags[i];
      } else if i < 15 {
        assert s[i] == o[i - 6] && AllFlags[i] == OutputFlags[i - 6];
      } else if i < 19 {
        assert s[i] == c[i - 15] && AllFlags[i] == RecordsFlags[i - 15];
      } else if i < 26 {
        assert s[i] == v[i - 19] && AllFlags[i] == ResolveFlags[i - 19];
      } else {
        assert s[i] == z[i - 26] && AllFlags[i] == OptimizeFlags[i - 26];
      }
    }
  }

  /** All the flag handlers in order: with none of their flags given the options are
      unchanged, and no key outside the ones the handlers write changes. */
  function ApplyFlags(env: Env, flags: Flags, p: Props): (r: Res<Props>)
    ensures Quiet(flags, AllFlags) ==> r == Success(p)
    ensures r.Success? ==> r.value - AllWrites == p - AllWrites
  {
    AllStepsWithin(env, flags);
    AllStepsIdle(env, flags);
    StageLaws(AllSteps(env, flags), AllFlags, flags, AllWrites, p);
    Chain(AllSteps(env, flags), p)
  }

  /** `processOptions(options)`: with no flag given and no positional argument, the options
      come back unchanged; in any case, no key outside the ones the handlers write changes. */
  function ProcessOptions(env: Env, a: Args, p: Props): (r: Res<Props>)
    ensures Quiet(a.flags, AllFlags) && |a.positional| == 0 ==> r == Success(p)
    ensures r.Success? ==> r.value - AllWrites == p - AllWrites
  {
    var p5 :- ApplyFlags(env, a.flags, p);
    var p6 :- ApplyPositionals(env, a.positional, p5);
    assert p6 - AllWrites == p5 - AllWrites by {
      if |a.positional| > 0 {
        SameOutside(p5, p6, {"entry"}, AllWrites);
      }
    }
    Success(p6)
  }

  /** The options the command line has no handler for — `context`, `watch`, `watchOptions`,
      `name` among them — come out of `processOptions` exactly as they went in. */
  lemma KeepsUnhandled(env: Env, a: Args, p: Props, k: string)
    requires k !in AllWrites
    ensures ProcessOptions(env, a, p).Success? ==> Lookup(ProcessOptions(env, a, p).value, k) == Lookup(p, k)
  {
    var r := ProcessOptions(env, a, p);
    if r.Success? {
      assert k in r.value <==> k in r.value - AllWrites;
      assert k in p <==> k in p - AllWrites;
      if k in p {
        assert (p - AllWrites)[k] == p[k];
        assert (r.value - AllWrites)[k] == r.value[k];
      }
    }
  }

  lemma UnhandledKeys()
    ensures "context" !in AllWrites && "watch" !in AllWrites && "watchOptions" !in AllWrites && "name" !in AllWrites
  {
  }

  /** `--mode m` alone sets `options.mode` and changes nothing else. */
  lemma ModeOnly(env: Env, p: Props, m: Value)
    requires m != Null && !IsArray(m)
    ensures ProcessOptions(env, Args(map["mode" := m], []), p) == Success(p["mode" := m])
  {
    var f := map["mode" := m];
    var s := AllSteps(env, f);
    var p1 := p["mode" := m];
    assert s[0] == ModuleSteps(f)[0];
    assert s[0](p) == Success(p1) by {
      assert Occurrences(f, "mode") == [m];
      assert s[0](p) == CopyArg(f, "mode", "mode", p);
    }
    AllStepsIdle(env, f);
    forall i | 1 <= i < |s| ensures Idle(s[i]) {
      assert AllFlags[i] != "mode" by { ModeFlagFirst(i); }
      assert AllFlags[i] !in f;
    }
    ChainHead(s, p, p1);
  }

  /** `mode` is read by the first handler only. */
  lemma ModeFlagFirst(i: int)
    requires 1 <= i < |AllFlags|
    ensures AllFlags[i] != "mode"
  {
  }

  /** The first stage does all the work of `--mode m`. */
  lemma ModeOnlyModule(p: Props, m: Value)
    requires m != Null && !IsArray(m)
    ensures ModuleStage(map["mode" := m], p) == Success(p["mode" := m])
  {
    var f := map["mode" := m];
    var s := ModuleSteps(f);
    var p1 := p["mode" := m];
    assert s[0](p) == Success(p1) by {
      assert Occurrences(f, "mode") == [m];
      assert s[0](p) == CopyArg(f, "mode", "mode", p);
    }
    ModuleStepsIdle(f);
    forall i | 1 <= i < |s| ensures Idle(s[i]) {
      assert ModuleFlags[i] !in f;
    }
    ChainHead(s, p, p1);
  }
}
