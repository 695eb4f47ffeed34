/** `module-bind`, `module-bind-pre` and `module-bind-post`: each occurrence
    `ext=loader` (or bare `ext`, meaning `ext=ext-loader`) appends a loader rule to
    `options.module.rules` whose test matches file names ending in `.ext`. */
module ModuleRules {
  import opened Wrappers
  import opened Strings
  import opened JsValues
  import opened Failures
  import opened Appliers

  /** The extension and loader an occurrence names. */
  function Binding(pr: Pair): (b: (string, string))
    ensures pr.key.None? ==> b == (pr.value, pr.value + "-loader")
    ensures pr.key.Some? ==> b == (pr.key.value, pr.value)
  {
    if pr.key.None? then (pr.value, pr.value + "-loader") else (pr.key.value, pr.value)
  }

  /** The source of the rule's test: `\.` + the escaped extension + `$`. */
  function TestSource(ext: string): string {
    "\\." + EscapeRegExp(ext) + "$"
  }

  /** The rule an occurrence of flag `arg` builds. */
  function Rule(arg: string, pr: Pair): (rule: Value)
    ensures rule.Obj? && rule.kind.PlainObject?
    ensures "test" in rule.props && rule.props["test"] == Obj(RegExpObject(TestSource(Binding(pr).0)), map[])
    ensures "loader" in rule.props && rule.props["loader"] == Str(Binding(pr).1)
    ensures arg == "module-bind-pre" ==> "enforce" in rule.props && rule.props["enforce"] == Str("pre")
    ensures arg == "module-bind-post" ==> "enforce" in rule.props && rule.props["enforce"] == Str("post")
    ensures arg != "module-bind-pre" && arg != "module-bind-post" ==> "enforce" !in rule.props
  {
    var b := Binding(pr);
    var base := map["test" := Obj(RegExpObject(TestSource(b.0)), map[]), "loader" := Str(b.1)];
    var props :=
      if arg == "module-bind-pre" then base["enforce" := Str("pre")]
      else if arg == "module-bind-post" then base["enforce" := Str("post")]
      else base;
    Obj(PlainObject, props)
  }

  /** The test reads back as exactly the extension: escaping loses nothing, and an extension
      free of special characters appears as it is. */
  lemma RuleTestNamesExtension(ext: string)
    ensures var src := TestSource(ext);
            && |src| >= 3 && src[..2] == "\\." && src[|src| - 1] == '$'
            && UnescapeRegExp(src[2..|src| - 1]) == ext
    ensures (forall i :: 0 <= i < |ext| ==> !IsRegExpSpecial(ext[i])) ==> TestSource(ext) == "\\." + ext + "$"
  {
    var src := TestSource(ext);
    assert src[2..|src| - 1] == EscapeRegExp(ext);
  }

  /** The rules list in the options (none when `options.module.rules` is not an array). */
  function RulesOf(p: Props): seq<Value> {
    var m := Field(p, "module");
    if "rules" in m && IsArray(m["rules"]) then m["rules"].kind.items else []
  }

  /** The init: `ensureObject(options, "module"); ensureArray(options.module, "rules")`. */
  function BindInit(t: Props): (r: Props)
    ensures r - {"module"} == t - {"module"}
    ensures "module" in r && r["module"].Obj?
    ensures "rules" in Field(r, "module") && IsArray(Field(r, "module")["rules"])
    ensures RulesOf(r) == RulesOf(t)
    ensures Field(r, "module") - {"rules"} == Field(t, "module") - {"rules"}
  {
    WithField(EnsureObject(t, "module"), "module", EnsureArray(Field(t, "module"), "rules"))
  }

  /** `options.module.rules.push(rule)`: the rules list gains the occurrence's rule at its end;
      nothing outside `options.module` changes. */
  function AppendRule(arg: string, t: Props, pr: Pair): (r: Res<Props>)
    ensures r.Success?
    ensures r.value - {"module"} == t - {"module"}
    ensures RulesOf(r.value) == RulesOf(t) + [Rule(arg, pr)]
  {
    var m := EnsureArray(Field(t, "module"), "rules");
    Success(WithField(t, "module", m["rules" := Push(m["rules"], Rule(arg, pr))]))
  }

  /** The callback of flag `arg`. */
  function PushRule(arg: string): (Props, Pair) -> Res<Props> {
    (t: Props, pr: Pair) => AppendRule(arg, t, pr)
  }

  /** The rules the occurrences build, in order. */
  function RulesFor(arg: string, items: seq<Value>): (r: seq<Value>)
    ensures |r| == |items|
  {
    if |items| == 0 then []
    else
      var last := items[|items| - 1];
      RulesFor(arg, items[..|items| - 1]) + [Rule(arg, SplitPair(if last.Str? then last.s else ""))]
  }

  /** The `i`-th new rule is built from the `i`-th occurrence. */
  lemma {:induction false} RulesForIndex(arg: string, items: seq<Value>, i: int)
    requires 0 <= i < |items| && items[i].Str?
    ensures RulesFor(arg, items)[i] == Rule(arg, SplitPair(items[i].s))
    decreases |items|
  {
    var front := items[..|items| - 1];
    var last := items[|items| - 1];
    var rules := RulesFor(arg, front) + [Rule(arg, SplitPair(if last.Str? then last.s else ""))];
    assert RulesFor(arg, items) == rules;
    if i < |items| - 1 {
      assert front[i] == items[i];
      RulesForIndex(arg, front, i);
      assert rules[i] == RulesFor(arg, front)[i];
    } else {
      assert last == items[i];
    }
  }

  /** One callback appends one rule and changes nothing else. */
  lemma PushRuleStep(arg: string, t: Props, pr: Pair)
    requires "module" in t && t["module"].Obj?
    requires "rules" in Field(t, "module") && IsArray(Field(t, "module")["rules"])
    ensures var r := PushRule(arg)(t, pr);
            && r.Success?
            && r.value - {"module"} == t - {"module"}
            && "module" in r.value && r.value["module"].Obj?
            && "rules" in Field(r.value, "module") && IsArray(Field(r.value, "module")["rules"])
            && Field(r.value, "module") - {"rules"} == Field(t, "module") - {"rules"}
            && RulesOf(r.value) == RulesOf(t) + [Rule(arg, pr)]
  {
  }

  lemma {:induction false} FoldRules(arg: string, t0: Props, items: seq<Value>)
    requires "module" in t0 && t0["module"].Obj?
    requires "rules" in Field(t0, "module") && IsArray(Field(t0, "module")["rules"])
    requires forall i :: 0 <= i < |items| ==> items[i].Str?
    ensures var r := FoldValues(t0, items, Paired(PushRule(arg)));
            && r.Success?
            && r.value - {"module"} == t0 - {"module"}
            && "module" in r.value && r.value["module"].Obj?
            && "rules" in Field(r.value, "module") && IsArray(Field(r.value, "module")["rules"])
            && Field(r.value, "module") - {"rules"} == Field(t0, "module") - {"rules"}
            && RulesOf(r.value) == RulesOf(t0) + RulesFor(arg, items)
    decreases |items|
  {
    if |items| > 0 {
      var front := items[..|items| - 1];
      var last := items[|items| - 1];
      FoldRules(arg, t0, front);
      var mid := FoldValues(t0, front, Paired(PushRule(arg))).value;
      var pr := SplitPair(last.s);
      assert FoldValues(t0, items, Paired(PushRule(arg))) == PushRule(arg)(mid, pr);
      PushRuleStep(arg, mid, pr);
      assert RulesOf(t0) + RulesFor(arg, front) + [Rule(arg, pr)]
          == RulesOf(t0) + RulesFor(arg, items);
    } else {
      assert RulesOf(t0) + RulesFor(arg, items) == RulesOf(t0);
    }
  }

  lemma {:induction false} RuleFoldFails(arg: string, t0: Props, items: seq<Value>)
    ensures FoldValues(t0, items, Paired(PushRule(arg))).Success? <==> forall i :: 0 <= i < |items| ==> items[i].Str?
    decreases |items|
  {
    if |items| > 0 {
      var front := items[..|items| - 1];
      var last := items[|items| - 1];
      var h := Paired(PushRule(arg));
      RuleFoldFails(arg, t0, front);
      assert (forall i :: 0 <= i < |items| ==> items[i].Str?)
         <==> (forall i :: 0 <= i < |front| ==> front[i].Str?) && last.Str?;
      var before := FoldValues(t0, front, h);
      if before.Success? {
        assert FoldValues(t0, items, h) == h(before.value, last);
        if last.Str? {
          assert h(before.value, last) == AppendRule(arg, before.value, SplitPair(last.s));
        }
      }
    }
  }

  /** `bindRules(arg)`: the rules already in `options.module.rules` stay first, followed by one
      rule per occurrence in flag order; nothing else in the options changes. A value that is not
      a string throws. */
  function BindRules(flags: Flags, arg: string, p: Props): (r: Res<Props>)
    ensures !Present(flags, arg) ==> r == Success(p)
    ensures r.Success? <==> forall i :: 0 <= i < |Occurrences(flags, arg)| ==> Occurrences(flags, arg)[i].Str?
    ensures r.Success? && Present(flags, arg) ==>
              && r.value - {"module"} == p - {"module"}
              && Field(r.value, "module") - {"rules"} == Field(p, "module") - {"rules"}
              && RulesOf(r.value) == RulesOf(p) + RulesFor(arg, Occurrences(flags, arg))
  {
    var occ := Occurrences(flags, arg);
    IfArgPairFolds(flags, arg, p, Some(BindInit), PushRule(arg), None);
    RuleFoldFails(arg, BindInit(p), occ);
    if Present(flags, arg) && forall i :: 0 <= i < |occ| ==> occ[i].Str? then
      FoldRules(arg, BindInit(p), occ);
      IfArgPair(flags, arg, p, Some(BindInit), EachPair(PushRule(arg)), None)
    else
      IfArgPair(flags, arg, p, Some(BindInit), EachPair(PushRule(arg)), None)
  }

  /** `--module-bind css=style!css` as a single flag gives one rule testing `\.css$` with that
      loader. */
  lemma BindOne(flags: Flags, p: Props, ext: string, loader: string)
    requires '=' !in ext
    requires "module-bind" in flags && flags["module-bind"] == Str(ext + "=" + loader)
    ensures BindRules(flags, "module-bind", p).Success?
    ensures var rules := RulesOf(BindRules(flags, "module-bind", p).value);
            && |rules| == |RulesOf(p)| + 1
            && rules[|rules| - 1].props["test"] == Obj(RegExpObject(TestSource(ext)), map[])
            && rules[|rules| - 1].props["loader"] == Str(loader)
            && "enforce" !in rules[|rules| - 1].props
  {
    SplitPairJoin(ext, loader);
  }
}
