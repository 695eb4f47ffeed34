/** The handlers of `processOptions` that copy a flag's value, possibly converted, into one
    field of the options: `mode`, `target`, `devtool`, the `output-*` and `records-*` flags and
    `resolve-extensions`. When such a flag is repeated, every occurrence is written in turn,
    so the last one wins. */
module OptionWrites {
  import opened Wrappers
  import opened Strings
  import opened JsValues
  import opened Failures
  import opened Environment
  import opened Appliers

  /** Stores one converted flag value into the options. */
  type Write = (Props, Value) -> Props

  /** A second write replaces the first entirely. */
  ghost predicate Absorbing(write: Write) {
    forall t, x, y :: write(write(t, x), y) == write(t, y)
  }

  /** `options[field] = w`. */
  function TopWrite(field: string): Write {
    (t: Props, w: Value) => t[field := w]
  }

  /** `ensureObject(options, key); options[key][field] = w`. */
  function NestedWrite(key: string, field: string): Write {
    (t: Props, w: Value) => SetNested(EnsureObject(t, key), key, field, w)
  }

  lemma TopWriteAbsorbs(field: string)
    ensures Absorbing(TopWrite(field))
  {
    forall t: Props, x: Value, y: Value
      ensures TopWrite(field)(TopWrite(field)(t, x), y) == TopWrite(field)(t, y)
    {
      assert t[field := x][field := y] == t[field := y];
    }
  }

  lemma NestedWriteAbsorbs(key: string, field: string)
    ensures Absorbing(NestedWrite(key, field))
  {
    forall t: Props, x: Value, y: Value
      ensures NestedWrite(key, field)(NestedWrite(key, field)(t, x), y) == NestedWrite(key, field)(t, y)
    {
      var once := SetNested(EnsureObject(t, key), key, field, x);
      assert EnsureObject(once, key) == once;
      assert Field(once, key)[field := y] == Field(EnsureObject(t, key), key)[field := y];
    }
  }

  /** No conversion. */
  function AsIs(v: Value): Res<Value> {
    Success(v)
  }

  /** `path.resolve(v)`, which throws for anything but a string. */
  function ResolvedPath(env: Env): Value -> Res<Value> {
    (v: Value) =>
      if v.Str? then Success(Str(env.resolve(v.s)))
      else Failure(TypeError("The \"path\" argument must be of type string"))
  }

  /** The `resolve-extensions` value: an array as it is, a string split on `,\s*`; anything
      else has no `split` and throws. */
  function ExtensionList(v: Value): (r: Res<Value>)
    ensures r.Success? <==> IsArray(v) || v.Str?
    ensures IsArray(v) ==> r == Success(v)
    ensures v.Str? ==> r == Success(ArrayOf(Strs(SplitExtensions(v.s))))
  {
    if IsArray(v) then Success(v)
    else if v.Str? then Success(ArrayOf(Strs(SplitExtensions(v.s))))
    else Failure(TypeError("value.split is not a function"))
  }

  /** The callback of a writing handler. */
  function Writing(write: Write, conv: Value -> Res<Value>): (Props, Value) -> Res<Props> {
    (t: Props, v: Value) =>
      if conv(v).Success? then Success(write(t, conv(v).value)) else Failure(conv(v).error)
  }

  /** Writing every value in turn fails exactly when one of them cannot be converted, and
      otherwise leaves the last one written. */
  lemma {:induction false} FoldWrites(write: Write, conv: Value -> Res<Value>, p: Props, items: seq<Value>)
    requires Absorbing(write)
    ensures var r := FoldValues(p, items, Writing(write, conv));
            && (r.Success? <==> forall i :: 0 <= i < |items| ==> conv(items[i]).Success?)
            && (r.Success? ==> r.value == if |items| == 0 then p else write(p, conv(items[|items| - 1]).value))
    decreases |items|
  {
    if |items| > 0 {
      var front := items[..|items| - 1];
      FoldWrites(write, conv, p, front);
      assert forall i :: 0 <= i < |front| ==> front[i] == items[i];
    }
  }

  /** The handler `ifArg(name, v => write(options, conv(v)))`. */
  function ApplyWrite(flags: Flags, name: string, write: Write, conv: Value -> Res<Value>, p: Props): (r: Res<Props>)
    requires Absorbing(write)
    ensures var occ := Occurrences(flags, name);
            && (r.Success? <==> forall i :: 0 <= i < |occ| ==> conv(occ[i]).Success?)
            && (r.Success? ==> r.value == if |occ| == 0 then p else write(p, conv(occ[|occ| - 1]).value))
  {
    IfArgFolds(flags, name, p, None, Writing(write, conv), None);
    FoldWrites(write, conv, p, Occurrences(flags, name));
    IfArg(flags, name, p, None, Each(Writing(write, conv)), None)
  }

  /** `mode`, `target`, `devtool`: `options[field]` takes the last occurrence; nothing else
      changes, and nothing at all when the flag is absent or null. */
  function CopyArg(flags: Flags, name: string, field: string, p: Props): (r: Res<Props>)
    ensures var occ := Occurrences(flags, name);
            r == Success(if |occ| == 0 then p else p[field := occ[|occ| - 1]])
    ensures r.value - {field} == p - {field}
  {
    TopWriteAbsorbs(field);
    ApplyWrite(flags, name, TopWrite(field), AsIs, p)
  }

  /** `output-filename` and the other plain `output-*` flags: `options.output[field]` takes the
      last occurrence, `options.output` being created (as `{}`) only when it is not an object. */
  function OutputArg(flags: Flags, name: string, field: string, p: Props): (r: Res<Props>)
    ensures r.Success?
    ensures var occ := Occurrences(flags, name);
            && (|occ| == 0 ==> r.value == p)
            && (|occ| > 0 ==>
                  && r.value - {"output"} == p - {"output"}
                  && "output" in r.value && r.value["output"].Obj?
                  && Field(r.value, "output") == Field(p, "output")[field := occ[|occ| - 1]]
                  && ("output" in p && p["output"].Obj? ==> r.value["output"].kind == p["output"].kind))
  {
    NestedWriteAbsorbs("output", field);
    ApplyWrite(flags, name, NestedWrite("output", field), AsIs, p)
  }

  /** `output-path`: `options.output.path` is the resolved last occurrence; a value that is not
      a string makes `path.resolve` throw. */
  function OutputPath(env: Env, flags: Flags, p: Props): (r: Res<Props>)
    ensures var occ := Occurrences(flags, "output-path");
            && (r.Success? <==> forall i :: 0 <= i < |occ| ==> occ[i].Str?)
            && (r.Success? && |occ| == 0 ==> r.value == p)
            && (r.Success? && |occ| > 0 ==>
                  && r.value - {"output"} == p - {"output"}
                  && "output" in r.value && r.value["output"].Obj?
                  && Field(r.value, "output") == Field(p, "output")["path" := Str(env.resolve(occ[|occ| - 1].s))])
  {
    NestedWriteAbsorbs("output", "path");
    var occ := Occurrences(flags, "output-path");
    var r := ApplyWrite(flags, "output-path", NestedWrite("output", "path"), ResolvedPath(env), p);
    assert r.Success? && |occ| > 0 ==>
      && occ[|occ| - 1].Str?
      && r.value == SetNested(EnsureObject(p, "output"), "output", "path", Str(env.resolve(occ[|occ| - 1].s)));
    r
  }

  /** `records-input-path`, `records-output-path`, `records-path`: the field is the resolved
      last occurrence. */
  function RecordsPath(env: Env, flags: Flags, name: string, field: string, p: Props): (r: Res<Props>)
    ensures var occ := Occurrences(flags, name);
            && (r.Success? <==> forall i :: 0 <= i < |occ| ==> occ[i].Str?)
            && (r.Success? ==> r.value == if |occ| == 0 then p else p[field := Str(env.resolve(occ[|occ| - 1].s))])
    ensures r.Success? ==> r.value - {field} == p - {field}
  {
    TopWriteAbsorbs(field);
    ApplyWrite(flags, name, TopWrite(field), ResolvedPath(env), p)
  }

  /** `resolve-extensions`: `options.resolve.extensions` is the last occurrence, an array kept as
      it is and a string split on commas. */
  function ResolveExtensions(flags: Flags, p: Props): (r: Res<Props>)
    ensures var occ := Occurrences(flags, "resolve-extensions");
            && (r.Success? <==> forall i :: 0 <= i < |occ| ==> IsArray(occ[i]) || occ[i].Str?)
            && (r.Success? && |occ| == 0 ==> r.value == p)
            && (r.Success? && |occ| > 0 ==>
                  && r.value - {"resolve"} == p - {"resolve"}
                  && "resolve" in r.value && r.value["resolve"].Obj?
                  && Field(r.value, "resolve") == Field(p, "resolve")["extensions" := ExtensionList(occ[|occ| - 1]).value])
  {
    NestedWriteAbsorbs("resolve", "extensions");
    ApplyWrite(flags, "resolve-extensions", NestedWrite("resolve", "extensions"), ExtensionList, p)
  }

  /** A list written as `a, b,c` comes back as the list itself. */
  lemma ResolveExtensionsOfJoined(flags: Flags, p: Props, xs: seq<string>, ws: string)
    requires |xs| >= 1
    requires forall i :: 0 <= i < |xs| ==> ',' !in xs[i]
    requires forall i :: 1 <= i < |xs| ==> |xs[i]| == 0 || !IsSpace(xs[i][0])
    requires forall i :: 0 <= i < |ws| ==> IsSpace(ws[i])
    requires "resolve-extensions" in flags && flags["resolve-extensions"] == Str(Join(xs, "," + ws))
    ensures ResolveExtensions(flags, p).Success?
    ensures Field(ResolveExtensions(flags, p).value, "resolve")["extensions"] == ArrayOf(Strs(xs))
  {
    var v := Str(Join(xs, "," + ws));
    assert Occurrences(flags, "resolve-extensions") == [v];
    ExtensionListOfJoined(xs, ws);
  }

  lemma ExtensionListOfJoined(xs: seq<string>, ws: string)
    requires |xs| >= 1
    requires forall i :: 0 <= i < |xs| ==> ',' !in xs[i]
    requires forall i :: 1 <= i < |xs| ==> |xs[i]| == 0 || !IsSpace(xs[i][0])
    requires forall i :: 0 <= i < |ws| ==> IsSpace(ws[i])
    ensures ExtensionList(Str(Join(xs, "," + ws))) == Success(ArrayOf(Strs(xs)))
  {
    SplitJoinExtensions(xs, ws);
  }

  /** The `output-pathinfo` callback. */
  function PathinfoOn(t: Props): Res<Props> {
    Success(NestedWrite("output", "pathinfo")(t, Bool(true)))
  }

  lemma {:induction false} FoldPathinfo(p: Props, items: seq<Value>)
    ensures FoldValues(p, items, OnTruthy(PathinfoOn))
         == if TruthyCount(items) == 0 then Success(p) else PathinfoOn(p)
    decreases |items|
  {
    if |items| > 0 {
      var front := items[..|items| - 1];
      var x := items[|items| - 1];
      FoldPathinfo(p, front);
      var mid := if TruthyCount(front) == 0 then p else PathinfoOn(p).value;
      assert FoldValues(p, items, OnTruthy(PathinfoOn)) == OnTruthy(PathinfoOn)(mid, x);
      NestedWriteAbsorbs("output", "pathinfo");
      assert PathinfoOn(PathinfoOn(p).value) == PathinfoOn(p);
    }
  }

  /** `output-pathinfo`: a truthy occurrence sets `options.output.pathinfo` to `true`; falsy ones
      do nothing. */
  function OutputPathinfo(flags: Flags, p: Props): (r: Res<Props>)
    ensures r.Success?
    ensures TruthyCount(Occurrences(flags, "output-pathinfo")) == 0 ==> r.value == p
    ensures TruthyCount(Occurrences(flags, "output-pathinfo")) > 0 ==>
              && r.value - {"output"} == p - {"output"}
              && "output" in r.value && r.value["output"].Obj?
              && Field(r.value, "output") == Field(p, "output")["pathinfo" := Bool(true)]
  {
    IfArgFolds(flags, "output-pathinfo", p, None, OnTruthy(PathinfoOn), None);
    FoldPathinfo(p, Occurrences(flags, "output-pathinfo"));
    assert PathinfoOn(p) == Success(SetNested(EnsureObject(p, "output"), "output", "pathinfo", Bool(true)));
    IfBooleanArg(flags, "output-pathinfo", p, PathinfoOn)
  }
}
