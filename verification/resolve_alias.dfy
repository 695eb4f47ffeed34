/** `resolve-alias` and `resolve-loader-alias`: each occurrence `name=target` sets
    `options[key].alias[name] = target`, where `key` is `resolve` or `resolveLoader`. An
    occurrence without a name (no `=`, or nothing before it) throws. */
module ResolveAlias {
  import opened Wrappers
  import opened Strings
  import opened JsValues
  import opened Failures
  import opened Appliers

  /** `ensureObject(options, key); ensureObject(options[key], "alias");
      options[key].alias[name] = v`. */
  function SetAlias(t: Props, key: string, name: string, v: Value): (r: Props)
    ensures r - {key} == t - {key}
    ensures key in r && r[key].Obj?
    ensures Field(r, key) - {"alias"} == Field(t, key) - {"alias"}
    ensures "alias" in Field(r, key) && Field(r, key)["alias"].Obj?
    ensures Field(Field(r, key), "alias") == Field(Field(t, key), "alias")[name := v]
  {
    var t1 := EnsureObject(t, key);
    var inner := EnsureObject(Field(t1, key), "alias");
    WithField(t1, key, SetNested(inner, "alias", name, v))
  }

  /** An occurrence names an alias: it is a string with a non-empty part before its first `=`. */
  predicate Names(v: Value) {
    v.Str? && SplitPair(v.s).key.Some? && SplitPair(v.s).key.value != ""
  }

  /** The callback of `processResolveAlias(arg, key)`. */
  function AliasStep(arg: string, key: string): (r: (Props, Pair) -> Res<Props>)
    ensures forall t, pr :: r(t, pr).Success? <==> pr.key.Some? && pr.key.value != ""
    ensures forall t, pr :: r(t, pr).Failure? ==> r(t, pr).error == MissingAliasName(arg)
    ensures forall t, pr :: r(t, pr).Success? ==>
              && r(t, pr).value - {key} == t - {key}
              && Field(Field(r(t, pr).value, key), "alias") == Field(Field(t, key), "alias")[pr.key.value := Str(pr.value)]
  {
    (t: Props, pr: Pair) =>
      if pr.key.None? || pr.key.value == "" then Failure(MissingAliasName(arg))
      else Success(SetAlias(t, key, pr.key.value, Str(pr.value)))
  }

  /** The aliases the occurrences set, applied in order. */
  function Aliases(items: seq<Value>): Props {
    if |items| == 0 then map[]
    else
      var last := items[|items| - 1];
      var pr := SplitPair(if last.Str? then last.s else "");
      var before := Aliases(items[..|items| - 1]);
      if pr.key.Some? then before[pr.key.value := Str(pr.value)] else before
  }

  /** A later occurrence of a name overrides an earlier one. */
  lemma {:induction false} AliasLastWins(items: seq<Value>, i: int, name: string, target: string)
    requires 0 <= i < |items| && items[i] == Str(name + "=" + target) && '=' !in name
    requires forall j :: i < j < |items| && items[j].Str? ==> SplitPair(items[j].s).key != Some(name)
    ensures name in Aliases(items) && Aliases(items)[name] == Str(target)
    decreases |items|
  {
    SplitPairJoin(name, target);
    var n := |items| - 1;
    var front := items[..n];
    if i < n {
      assert front[i] == items[i];
      AliasLastWins(front, i, name, target);
      var last := items[n];
      assert last.Str? ==> SplitPair(last.s).key != Some(name);
    }
  }

  /** One callback sets one alias and touches nothing outside `options[key].alias`. */
  lemma AliasStepSets(arg: string, key: string, t: Props, pr: Pair)
    requires pr.key.Some? && pr.key.value != ""
    ensures var r := AliasStep(arg, key)(t, pr);
            && r.Success?
            && r.value == SetAlias(t, key, pr.key.value, Str(pr.value))
  {
  }

  /** The state after some aliases were set: `options` outside `options[key].alias` as in
      `t0`, and the aliases `acc` laid over the original ones. */
  ghost predicate AliasedOver(t: Props, t0: Props, key: string, acc: Props) {
    && t - {key} == t0 - {key}
    && key in t && t[key].Obj?
    && Field(t, key) - {"alias"} == Field(t0, key) - {"alias"}
    && Field(Field(t, key), "alias") == Field(Field(t0, key), "alias") + acc
  }

  lemma SetAliasOver(t: Props, t0: Props, key: string, acc: Props, name: string, v: Value)
    requires AliasedOver(t, t0, key, acc) || (t == t0 && acc == map[])
    ensures AliasedOver(SetAlias(t, key, name, v), t0, key, acc[name := v])
  {
    var a0 := Field(Field(t0, key), "alias");
    assert (a0 + acc)[name := v] == a0 + acc[name := v];
  }

  lemma {:induction false} FoldAliasesWalk(arg: string, key: string, t0: Props, items: seq<Value>)
    requires AllOf(Names, items)
    ensures var r := FoldValues(t0, items, Paired(AliasStep(arg, key)));
            && r.Success?
            && (|items| == 0 ==> r.value == t0)
            && (|items| > 0 ==> AliasedOver(r.value, t0, key, Aliases(items)))
    decreases |items|
  {
    if |items| > 0 {
      var front := items[..|items| - 1];
      var last := items[|items| - 1];
      FoldAliasesWalk(arg, key, t0, front);
      var mid := FoldValues(t0, front, Paired(AliasStep(arg, key))).value;
      var pr := SplitPair(last.s);
      AliasStepSets(arg, key, mid, pr);
      assert Aliases(items) == Aliases(front)[pr.key.value := Str(pr.value)];
      if |front| == 0 {
        assert mid == t0 && Aliases(front) == map[];
      }
      SetAliasOver(mid, t0, key, Aliases(front), pr.key.value, Str(pr.value));
    }
  }

  /** When every occurrence names an alias, the fold lays them over the existing ones. */
  lemma FoldAliases(arg: string, key: string, t0: Props, items: seq<Value>)
    requires forall i :: 0 <= i < |items| ==> Names(items[i])
    ensures var r := FoldValues(t0, items, Paired(AliasStep(arg, key)));
            && r.Success?
            && (|items| == 0 ==> r.value == t0)
            && (|items| > 0 ==> AliasedOver(r.value, t0, key, Aliases(items)))
  {
    AllOfEach(Names, items);
    FoldAliasesWalk(arg, key, t0, items);
  }

  /** One occurrence succeeds exactly when it names an alias. */
  lemma AliasPairedStep(arg: string, key: string, t: Props, x: Value)
    ensures Paired(AliasStep(arg, key))(t, x).Success? <==> Names(x)
  {
  }

  lemma {:induction false} AliasFoldFailsWalk(arg: string, key: string, t0: Props, items: seq<Value>)
    ensures FoldValues(t0, items, Paired(AliasStep(arg, key))).Success? <==> AllOf(Names, items)
    decreases |items|
  {
    if |items| > 0 {
      var front := items[..|items| - 1];
      var last := items[|items| - 1];
      AliasFoldFailsWalk(arg, key, t0, front);
      var before := FoldValues(t0, front, Paired(AliasStep(arg, key)));
      if before.Success? {
        AliasPairedStep(arg, key, before.value, last);
      }
    }
  }

  lemma AliasFoldFails(arg: string, key: string, t0: Props, items: seq<Value>)
    ensures FoldValues(t0, items, Paired(AliasStep(arg, key))).Success? <==> forall i :: 0 <= i < |items| ==> Names(items[i])
  {
    AliasFoldFailsWalk(arg, key, t0, items);
    AllOfEach(Names, items);
  }

  /** `processResolveAlias(arg, key)`: every occurrence must name its alias; the aliases land in
      `options[key].alias` over the existing ones, the last occurrence of a name winning, and
      nothing else changes. */
  function ApplyResolveAlias(flags: Flags, arg: string, key: string, p: Props): (r: Res<Props>)
    ensures var occ := Occurrences(flags, arg);
            && (r.Success? <==> forall i :: 0 <= i < |occ| ==> Names(occ[i]))
            && (r.Success? && |occ| == 0 ==> r.value == p)
            && (r.Success? && |occ| > 0 ==>
                  && r.value - {key} == p - {key}
                  && Field(r.value, key) - {"alias"} == Field(p, key) - {"alias"}
                  && Field(Field(r.value, key), "alias") == Field(Field(p, key), "alias") + Aliases(occ))
  {
    var occ := Occurrences(flags, arg);
    IfArgPairFolds(flags, arg, p, None, AliasStep(arg, key), None);
    AliasFoldFails(arg, key, p, occ);
    if forall i :: 0 <= i < |occ| ==> Names(occ[i]) then
      FoldAliases(arg, key, p, occ);
      IfArgPair(flags, arg, p, None, EachPair(AliasStep(arg, key)), None)
    else
      IfArgPair(flags, arg, p, None, EachPair(AliasStep(arg, key)), None)
  }

  /** `--resolve-alias =x` or `--resolve-alias x` throws the usage message. */
  lemma AliasNeedsName(flags: Flags, p: Props, s: string)
    requires "resolve-alias" in flags && flags["resolve-alias"] == Str(s)
    requires '=' !in s || s[0] == '='
    ensures ApplyResolveAlias(flags, "resolve-alias", "resolve", p).Failure?
  {
    assert Occurrences(flags, "resolve-alias")[0] == Str(s);
    if '=' in s {
      assert IndexOf(s, '=') == 0;
    }
  }
}
