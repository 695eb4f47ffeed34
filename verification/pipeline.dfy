/** The converter from start to end: the shortcuts, the config files, then
    `processConfiguredOptions` — validate, unwrap a promise or an ES module `default`, pick
    configurations by `--config-name`, apply `processOptions` to each configuration, and
    finally settle `context` and the watch options. */
module Pipeline {
  import opened Wrappers
  import opened Strings
  import opened JsValues
  import opened Failures
  import opened Environment
  import opened ProcessOptions
  import opened Shortcuts
  import opened ExtensionOrder
  import opened ConfigLocator

  /** The converted configuration, and whether it is only available through a promise. */
  datatype Outcome = Outcome(config: Value, deferred: bool)

  /** What `processOptions` does to one options object. The steps of
      `processConfiguredOptions` take it as a parameter; `ConvertArgv` passes the model of
      `processOptions` for the flags at hand. */
  type Processing = Props -> Res<Props>

  /** `processOptions` for fixed flags and positional arguments. */
  function ProcessingOf(env: Env, a: Args): (f: Processing)
    ensures forall p :: f(p) == ProcessOptions.ProcessOptions(env, a, p)
  {
    p => ProcessOptions.ProcessOptions(env, a, p)
  }

  /** `opt.name`, read on a configuration (`undefined` for a primitive). */
  function NameOf(v: Value): Option<Value> {
    if v.Obj? then Lookup(v.props, "name") else None
  }

  /** The configurations whose `name` is strictly equal to the `--config-name` value, in order. */
  function Named(items: seq<Value>, name: Value): (r: seq<Value>)
    ensures |r| <= |items|
    ensures forall i :: 0 <= i < |r| ==> r[i] in items && StrictEquals(NameOf(r[i]), name)
    ensures (forall i :: 0 <= i < |items| ==> !StrictEquals(NameOf(items[i]), name)) ==> r == []
  {
    if |items| == 0 then []
    else
      var front := items[..|items| - 1];
      var last := items[|items| - 1];
      assert forall i :: 0 <= i < |front| ==> front[i] == items[i];
      Named(front, name) + (if StrictEquals(NameOf(last), name) then [last] else [])
  }

  /** Every configuration whose name matches is kept, in order. */
  lemma {:induction false} NamedKeepsMatches(items: seq<Value>, name: Value, i: int)
    requires 0 <= i < |items| && StrictEquals(NameOf(items[i]), name)
    ensures items[i] in Named(items, name)
    decreases |items|
  {
    if i < |items| - 1 {
      var front := items[..|items| - 1];
      assert front[i] == items[i];
      NamedKeepsMatches(front, name, i);
    }
  }

  /** `y` is what `process` makes of the configuration `x`: an object of the same kind. */
  predicate ProcessedAs(process: Processing, x: Value, y: Value) {
    x.Obj? && y.Obj? && y.kind == x.kind && process(x.props) == Success(y.props)
  }

  /** `processOptions` on one configuration of an array; a primitive cannot take options. */
  function ProcessOne(process: Processing, x: Value): (r: Res<Value>)
    ensures r.Success? <==> x.Obj? && process(x.props).Success?
    ensures r.Success? ==> ProcessedAs(process, x, r.value)
  {
    if !x.Obj? then Failure(TypeError("Cannot create property on a primitive configuration"))
    else
      match process(x.props)
      case Failure(e) => Failure(e)
      case Success(p) => Success(Obj(x.kind, p))
  }

  /** `ProcessOne` with the flags fixed, as the callback `forEach` is given. */
  function Processor(process: Processing): (f: Value -> Res<Value>)
    ensures forall x :: f(x) == ProcessOne(process, x)
  {
    x => ProcessOne(process, x)
  }

  /** `items.forEach(f)` where each call may throw: the results in order, or the first failure. */
  function EachOf(f: Value -> Res<Value>, items: seq<Value>): (r: Res<seq<Value>>)
    ensures r.Success? <==> forall i :: 0 <= i < |items| ==> f(items[i]).Success?
    ensures r.Success? ==> |r.value| == |items| && forall i :: 0 <= i < |items| ==> f(items[i]) == Success(r.value[i])
    ensures r.Failure? ==> exists i :: 0 <= i < |items| && f(items[i]) == Failure(r.error)
                                     && forall j :: 0 <= j < i ==> f(items[j]).Success?
  {
    if |items| == 0 then Success([])
    else
      var front := items[..|items| - 1];
      var last := items[|items| - 1];
      assert forall i :: 0 <= i < |front| ==> front[i] == items[i];
      match EachOf(f, front)
      case Failure(e) => Failure(e)
      case Success(done) =>
        match f(last)
        case Failure(e) => Failure(e)
        case Success(y) => Success(done + [y])
  }

  /** The context: a truthy `--context` is resolved and replaces the configured one; a context
      that is still falsy becomes the working directory. */
  function ApplyContext(env: Env, a: Args, p: Props): (r: Res<Props>)
    ensures r.Success? <==> !Given(a, "context") || a.flags["context"].Str?
    ensures r.Success? ==> r.value - {"context"} == p - {"context"} && "context" in r.value
    ensures r.Success? && Given(a, "context") && env.resolve(a.flags["context"].s) != "" ==>
              r.value["context"] == Str(env.resolve(a.flags["context"].s))
    ensures r.Success? && !Given(a, "context") && "context" in p && Truthy(p["context"]) ==>
              r.value["context"] == p["context"]
    ensures r.Success? && !Given(a, "context") && !("context" in p && Truthy(p["context"])) ==>
              r.value["context"] == Str(env.cwd)
  {
    var resolved: Res<Props> :=
      if !Given(a, "context") then Success(p)
      else if a.flags["context"].Str? then Success(p["context" := Str(env.resolve(a.flags["context"].s))])
      else Failure(TypeError("The \"path\" argument must be of type string"));
    match resolved
    case Failure(e) => Failure(e)
    case Success(q) =>
      Success(if "context" in q && Truthy(q["context"]) then q else q["context" := Str(env.cwd)])
  }

  /** The watch options, created as `{}` unless already truthy. */
  function EnsureWatchOptions(p: Props): (r: Props)
    ensures "watchOptions" in r && Truthy(r["watchOptions"])
    ensures r - {"watchOptions"} == p - {"watchOptions"}
    ensures "watchOptions" in p && Truthy(p["watchOptions"]) ==> r == p
  {
    if "watchOptions" in p && Truthy(p["watchOptions"]) then p else p["watchOptions" := EmptyObject()]
  }

  /** Sets one field of the (truthy) watch options; a write to a primitive is silently lost. */
  function WatchSet(p: Props, field: string, w: Value): (r: Props)
    requires "watchOptions" in p
    ensures r - {"watchOptions"} == p - {"watchOptions"}
    ensures p["watchOptions"].Obj? ==> "watchOptions" in r && Field(r, "watchOptions") == Field(p, "watchOptions")[field := w]
    ensures !p["watchOptions"].Obj? ==> r == p
  {
    if p["watchOptions"].Obj? then SetNested(p, "watchOptions", field, w) else p
  }

  /** The `watch-poll` value as the poll option: `"true"` and `""` mean `true`, a numeric value
      is that number, anything else sets nothing. */
  function PollValue(x: Value): (r: Option<Value>)
    ensures x == Str("true") || x == Str("") ==> r == Some(Bool(true))
    ensures x != Str("true") && x != Str("") ==> (r.Some? <==> !IsNaN(x))
    ensures x != Str("true") && x != Str("") && r.Some? ==> r.value == ToNumber(x) && r.value.Num?
  {
    if x == Str("true") || x == Str("") then Some(Bool(true))
    else if !IsNaN(x) then Some(ToNumber(x))
    else None
  }

  /** `--watch`: `options.watch = true`. */
  function WatchFlag(a: Args, p: Props): (r: Props)
    ensures Given(a, "watch") ==> "watch" in r && r["watch"] == Bool(true) && r - {"watch"} == p - {"watch"}
    ensures !Given(a, "watch") ==> r == p
  {
    if Given(a, "watch") then p["watch" := Bool(true)] else p
  }

  /** `--watch-aggregate-timeout t`: `watchOptions.aggregateTimeout = +t`. */
  function AggregateTimeout(a: Args, p: Props): (r: Props)
    ensures !Given(a, "watch-aggregate-timeout") ==> r == p
    ensures Given(a, "watch-aggregate-timeout") ==>
              && "watchOptions" in r && Truthy(r["watchOptions"]) && r - {"watchOptions"} == p - {"watchOptions"}
              && (("watchOptions" !in p || p["watchOptions"].Obj?) ==>
                    && "aggregateTimeout" in Field(r, "watchOptions")
                    && Field(r, "watchOptions")["aggregateTimeout"] == ToNumber(a.flags["watch-aggregate-timeout"]))
  {
    if Given(a, "watch-aggregate-timeout") then
      WatchSet(EnsureWatchOptions(p), "aggregateTimeout", ToNumber(a.flags["watch-aggregate-timeout"]))
    else p
  }

  /** `--watch-poll x`, acting whenever the flag is defined (even `null` or `false`): the
      watch options are created, then `poll` is set as `PollValue` says. */
  function WatchPoll(a: Args, p: Props): (r: Props)
    ensures "watch-poll" !in a.flags ==> r == p
    ensures "watch-poll" in a.flags ==>
              && "watchOptions" in r && Truthy(r["watchOptions"]) && r - {"watchOptions"} == p - {"watchOptions"}
    ensures "watch-poll" in a.flags && ("watchOptions" !in p || p["watchOptions"].Obj?) ==>
              var poll := PollValue(a.flags["watch-poll"]);
              && (poll.Some? ==> "poll" in Field(r, "watchOptions") && Field(r, "watchOptions")["poll"] == poll.value)
              && (poll.None? ==> Field(r, "watchOptions") == Field(p, "watchOptions"))
  {
    if "watch-poll" in a.flags then
      var w := EnsureWatchOptions(p);
      match PollValue(a.flags["watch-poll"])
      case Some(x) => WatchSet(w, "poll", x)
      case None => w
    else p
  }

  /** `--watch-stdin`: `watchOptions.stdin = true` and `watch = true`. */
  function WatchStdin(a: Args, p: Props): (r: Props)
    ensures !Given(a, "watch-stdin") ==> r == p
    ensures Given(a, "watch-stdin") ==>
              && "watch" in r && r["watch"] == Bool(true)
              && "watchOptions" in r && Truthy(r["watchOptions"])
              && r - {"watch", "watchOptions"} == p - {"watch", "watchOptions"}
              && (("watchOptions" !in p || p["watchOptions"].Obj?) ==>
                    "stdin" in Field(r, "watchOptions") && Field(r, "watchOptions")["stdin"] == Bool(true))
  {
    if Given(a, "watch-stdin") then
      var w := WatchSet(EnsureWatchOptions(p), "stdin", Bool(true));
      assert Field(w["watch" := Bool(true)], "watchOptions") == Field(w, "watchOptions");
      w["watch" := Bool(true)]
    else p
  }

  /** The four watch flags in the converter's order. */
  function ApplyWatch(a: Args, p: Props): (r: Props)
    ensures (!Given(a, "watch") && !Given(a, "watch-aggregate-timeout") && "watch-poll" !in a.flags
             && !Given(a, "watch-stdin")) ==> r == p
    ensures Given(a, "watch") || Given(a, "watch-stdin") ==> "watch" in r && r["watch"] == Bool(true)
  {
    WatchStdin(a, WatchPoll(a, AggregateTimeout(a, WatchFlag(a, p))))
  }

  /** The watch flags touch nothing but `watch` and `watchOptions`. */
  lemma WatchFrame(a: Args, p: Props)
    ensures ApplyWatch(a, p) - {"watch", "watchOptions"} == p - {"watch", "watchOptions"}
  {
    var p1 := WatchFlag(a, p);
    var p2 := AggregateTimeout(a, p1);
    var p3 := WatchPoll(a, p2);
    assert p1 - {"watch", "watchOptions"} == p - {"watch", "watchOptions"};
    assert p2 - {"watch", "watchOptions"} == p1 - {"watch", "watchOptions"};
    assert p3 - {"watch", "watchOptions"} == p2 - {"watch", "watchOptions"};
  }

  /** On options without watch settings, `--watch-poll` yields fresh watch options whose
      `poll` is exactly what `PollValue` says: `true`, the number, or nothing. */
  lemma PollNormalised(a: Args, p: Props)
    requires "watch-poll" in a.flags && !Given(a, "watch-stdin")
    requires "watchOptions" !in p
    ensures var r := ApplyWatch(a, p);
            var poll := PollValue(a.flags["watch-poll"]);
            && "watchOptions" in r && r["watchOptions"].Obj?
            && (poll.Some? ==> "poll" in Field(r, "watchOptions") && Field(r, "watchOptions")["poll"] == poll.value)
            && (poll.None? ==> "poll" !in Field(r, "watchOptions"))
  {
    var p1 := WatchFlag(a, p);
    var p2 := AggregateTimeout(a, p1);
    assert "watchOptions" !in p1;
    if Given(a, "watch-aggregate-timeout") {
      var w := EnsureWatchOptions(p1);
      assert Field(w, "watchOptions") == map[];
      assert Field(p2, "watchOptions") == map["aggregateTimeout" := ToNumber(a.flags["watch-aggregate-timeout"])];
    }
    assert "watchOptions" in p2 ==> p2["watchOptions"].Obj? && "poll" !in Field(p2, "watchOptions");
  }

  /** `--watch-stdin` turns watching on and, on options without watch settings, sets
      `watchOptions.stdin`. */
  lemma StdinWatches(a: Args, p: Props)
    requires Given(a, "watch-stdin")
    requires "watchOptions" !in p
    ensures var r := ApplyWatch(a, p);
            && "watch" in r && r["watch"] == Bool(true)
            && "watchOptions" in r && r["watchOptions"].Obj?
            && "stdin" in Field(r, "watchOptions") && Field(r, "watchOptions")["stdin"] == Bool(true)
  {
    var p1 := WatchFlag(a, p);
    var p2 := AggregateTimeout(a, p1);
    var p3 := WatchPoll(a, p2);
    assert "watchOptions" !in p1;
    assert "watchOptions" in p2 ==> p2["watchOptions"].Obj?;
    assert "watchOptions" in p3 ==> p3["watchOptions"].Obj?;
  }

  /** The steps after `processOptions`, on the (possibly array) configuration's own properties. */
  function Settle(env: Env, a: Args, p: Props): (r: Res<Props>)
    ensures r.Success? <==> !Given(a, "context") || a.flags["context"].Str?
    ensures r.Success? ==> "context" in r.value && r.value["context"] == ApplyContext(env, a, p).value["context"]
  {
    var q :- ApplyContext(env, a, p);
    var w := ApplyWatch(a, q);
    WatchFrame(a, q);
    assert "context" in q - {"watch", "watchOptions"};
    assert "context" in w - {"watch", "watchOptions"};
    Success(w)
  }

  /** `processOptions` on the configuration (on each one of an array), then `Settle`. */
  function Configure(env: Env, a: Args, process: Processing, v: Value): (r: Res<Value>)
    ensures r.Success? ==> v.Obj? && r.value.Obj? && r.value.kind.ArrayObject? == v.kind.ArrayObject?
    ensures r.Success? && IsArray(v) ==> |r.value.kind.items| == |v.kind.items|
  {
    if !v.Obj? then Failure(TypeError("Cannot create property on a primitive configuration"))
    else if IsArray(v) then
      var items :- EachOf(Processor(process), v.kind.items);
      var props :- Settle(env, a, v.props);
      Success(Obj(ArrayObject(items), props))
    else
      var p :- process(v.props);
      var props :- Settle(env, a, p);
      Success(Obj(v.kind, props))
  }

  /** `typeof options === "object" && typeof options.default === "object"`. */
  function HasDefault(v: Value): (b: bool)
    ensures b <==> v != Null && TypeOf(Some(v)) == "object" && TypeOf(Lookup(v.props, "default")) == "object"
  {
    v.Obj? && "default" in v.props && (v.props["default"].Obj? || v.props["default"].Null?)
  }

  /** `processConfiguredOptions(options)`. Validation comes first; a promise is unwrapped
      (the outcome is then deferred); an object `default` is unwrapped; an array is narrowed by
      `--config-name`, one match being processed on its own. */
  function ProcessConfigured(env: Env, a: Args, process: Processing, v: Value): (r: Res<Outcome>)
    ensures |env.schemaErrors(v)| > 0 ==> r == Failure(InvalidConfiguration(env.schemaErrors(v), v))
    ensures v.Null? ==> r.Failure?
    ensures r.Success? ==> r.value.config.Obj? && "context" in r.value.config.props
    decreases v
  {
    var errors := env.schemaErrors(v);
    if |errors| > 0 then Failure(InvalidConfiguration(errors, v))
    else if v.Null? then Failure(TypeError("Cannot read property 'then' of null"))
    else if v.Obj? && v.kind.PromiseObject? then
      match ProcessConfigured(env, a, process, v.kind.settled)
      case Failure(e) => Failure(e)
      case Success(o) => Success(o.(deferred := true))
    else if HasDefault(v) then
      ProcessConfigured(env, a, process, v.props["default"])
    else if IsArray(v) && Given(a, "config-name") then
      var name := a.flags["config-name"];
      if Null in v.kind.items then Failure(TypeError("Cannot read property 'name' of null"))
      else
        var named := Named(v.kind.items, name);
        if |named| == 0 then Failure(ConfigurationNameNotFound(name))
        else if |named| == 1 then
          assert named[0] in v.kind.items;
          ProcessConfigured(env, a, process, named[0])
        else
          var c :- Configure(env, a, process, ArrayOf(named));
          Success(Outcome(c, false))
    else
      var c :- Configure(env, a, process, v);
      Success(Outcome(c, false))
  }

  /** A promise is processed once it settles: the same outcome, only deferred. */
  lemma PromiseDefers(env: Env, a: Args, process: Processing, settled: Value, props: Props)
    requires |env.schemaErrors(Obj(PromiseObject(settled), props))| == 0
    ensures var r := ProcessConfigured(env, a, process, Obj(PromiseObject(settled), props));
            var inner := ProcessConfigured(env, a, process, settled);
            && (r.Success? <==> inner.Success?)
            && (r.Success? ==> r.value == inner.value.(deferred := true))
  {
  }

  /** For a plain configuration object, `--context dir` beats the configuration's own context,
      which beats the working directory. */
  lemma ContextPriority(env: Env, a: Args, process: Processing, v: Value)
    requires |env.schemaErrors(v)| == 0 && v.Obj? && v.kind.PlainObject? && !HasDefault(v)
    requires process(v.props).Success?
    requires !Given(a, "context") || a.flags["context"].Str?
    ensures var r := ProcessConfigured(env, a, process, v);
            var own := process(v.props).value;
            && r.Success? && !r.value.deferred
            && (Given(a, "context") && env.resolve(a.flags["context"].s) != "" ==>
                  r.value.config.props["context"] == Str(env.resolve(a.flags["context"].s)))
            && (!Given(a, "context") && "context" in own && Truthy(own["context"]) ==>
                  r.value.config.props["context"] == own["context"])
            && (!Given(a, "context") && !("context" in own && Truthy(own["context"])) ==>
                  r.value.config.props["context"] == Str(env.cwd))
  {
  }

  /** An ES module's object `default` export is what gets processed. */
  lemma DefaultUnwraps(env: Env, a: Args, process: Processing, v: Value)
    requires |env.schemaErrors(v)| == 0 && HasDefault(v) && !v.kind.PromiseObject?
    ensures ProcessConfigured(env, a, process, v) == ProcessConfigured(env, a, process, v.props["default"])
  {
  }

  /** `--config-name n` that matches nothing stops with "Configuration with name 'n' was not
      found.". */
  lemma ConfigNameNotFound(env: Env, a: Args, process: Processing, items: seq<Value>, props: Props)
    requires |env.schemaErrors(Obj(ArrayObject(items), props))| == 0
    requires Given(a, "config-name") && Null !in items && "default" !in props
    requires forall i :: 0 <= i < |items| ==> !StrictEquals(NameOf(items[i]), a.flags["config-name"])
    ensures var r := ProcessConfigured(env, a, process, Obj(ArrayObject(items), props));
            && r == Failure(ConfigurationNameNotFound(a.flags["config-name"]))
            && Message(r.error) == "Configuration with name '" + Display(a.flags["config-name"]) + "' was not found."
            && ExitsProcess(r.error)
  {
  }

  /** `--config-name n` that matches exactly one configuration processes it on its own. */
  lemma ConfigNameSingle(env: Env, a: Args, process: Processing, items: seq<Value>, props: Props, k: int)
    requires |env.schemaErrors(Obj(ArrayObject(items), props))| == 0
    requires Given(a, "config-name") && Null !in items && "default" !in props
    requires 0 <= k < |items| && StrictEquals(NameOf(items[k]), a.flags["config-name"])
    requires forall i :: 0 <= i < |items| && i != k ==> !StrictEquals(NameOf(items[i]), a.flags["config-name"])
    ensures ProcessConfigured(env, a, process, Obj(ArrayObject(items), props)) == ProcessConfigured(env, a, process, items[k])
  {
    var name := a.flags["config-name"];
    NamedKeepsMatches(items, name, k);
    NamedOnly(items, name, k);
  }

  /** When only position `k` matches, the filter yields exactly that configuration. */
  lemma {:induction false} NamedOnly(items: seq<Value>, name: Value, k: int)
    requires 0 <= k < |items| && StrictEquals(NameOf(items[k]), name)
    requires forall i :: 0 <= i < |items| && i != k ==> !StrictEquals(NameOf(items[i]), name)
    ensures Named(items, name) == [items[k]]
    decreases |items|
  {
    var front := items[..|items| - 1];
    assert forall i :: 0 <= i < |front| ==> front[i] == items[i];
    if k < |items| - 1 {
      NamedOnly(front, name, k);
    } else {
      assert Named(front, name) == [];
    }
  }

  /** Several matches: only they are processed, as a new array, in their original order. */
  lemma ConfigNameSeveral(env: Env, a: Args, process: Processing, items: seq<Value>, props: Props)
    requires |env.schemaErrors(Obj(ArrayObject(items), props))| == 0
    requires Given(a, "config-name") && Null !in items && "default" !in props
    requires |Named(items, a.flags["config-name"])| >= 2
    ensures var r := ProcessConfigured(env, a, process, Obj(ArrayObject(items), props));
            var named := Named(items, a.flags["config-name"]);
            r.Success? ==>
              && !r.value.deferred && IsArray(r.value.config)
              && |r.value.config.kind.items| == |named|
              && forall i :: 0 <= i < |named| ==> ProcessOne(process, named[i]) == Success(r.value.config.kind.items[i])
  {
    var named := Named(items, a.flags["config-name"]);
    var r := ProcessConfigured(env, a, process, Obj(ArrayObject(items), props));
    if r.Success? {
      var items' := EachOf(Processor(process), named).value;
      assert r.value.config.kind.items == items';
    }
  }

  /** The whole conversion: shortcuts, config files (explicit or the first default one), load,
      then `processConfiguredOptions` on `{}`, the single configuration, or the array. */
  function ConvertArgv(env: Env, a: Args): (r: Res<Outcome>)
    ensures ApplyShortcuts(env, a).Failure? ==> r == Failure(ApplyShortcuts(env, a).error)
    ensures r.Success? ==>
              && ApplyShortcuts(env, a).Success?
              && ConfigFiles(env, ApplyShortcuts(env, a).value, SortExtensions(env.extensions)).Success?
  {
    var argv :- ApplyShortcuts(env, a);
    var files :- ConfigFiles(env, argv, SortExtensions(env.extensions));
    var loaded :- LoadConfigs(env, files);
    ProcessConfigured(env, argv, ProcessingOf(env, argv), StartValue(loaded))
  }

  /** No config file anywhere: the options are built from `{}` and the flags alone. */
  lemma NoConfigStartsEmpty(env: Env, a: Args)
    requires ApplyShortcuts(env, a).Success?
    requires !Given(ApplyShortcuts(env, a).value, "config")
    requires forall i :: 0 <= i < 2 * |SortExtensions(env.extensions)| ==>
               !env.fileExists(DefaultConfigFiles(env, SortExtensions(env.extensions))[i].path)
    ensures var argv := ApplyShortcuts(env, a).value;
            ConvertArgv(env, a) == ProcessConfigured(env, argv, ProcessingOf(env, argv), EmptyObject())
  {
  }
}
