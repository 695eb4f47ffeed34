/** `define`: every occurrence `name=value` (or bare `name`, meaning `name=true`) goes into one
    definitions object, and a single DefinePlugin carrying it is put at the front of the
    plugins. */
module Defines {
  import opened Wrappers
  import opened Strings
  import opened JsValues
  import opened Failures
  import opened Appliers

  /** The handler's state: the options and the `defineObject` it fills. */
  datatype DefineState = DefineState(options: Props, definitions: Props)

  /** The name an occurrence defines. */
  function DefineName(pr: Pair): string {
    if pr.key.None? then pr.value else pr.key.value
  }

  /** The value an occurrence defines: the string after `=`, or `true` without one. */
  function DefineValue(pr: Pair): (v: Value)
    ensures pr.key.None? <==> v == Bool(true)
  {
    if pr.key.None? then Bool(true) else Str(pr.value)
  }

  /** The init: `defineObject = {}`. */
  function DefineInit(s: DefineState): DefineState {
    s.(definitions := map[])
  }

  /** The callback: `defineObject[name] = value`. */
  function DefineStep(s: DefineState, pr: Pair): (r: Res<DefineState>)
    ensures r.Success? && r.value.options == s.options
    ensures r.value.definitions.Keys == s.definitions.Keys + {DefineName(pr)}
    ensures r.value.definitions[DefineName(pr)] == DefineValue(pr)
    ensures forall k :: k in s.definitions && k != DefineName(pr) ==> r.value.definitions[k] == s.definitions[k]
  {
    Success(s.(definitions := s.definitions[DefineName(pr) := DefineValue(pr)]))
  }

  /** The finalize: `addPlugin(options, new DefinePlugin(defineObject))`. */
  function DefineFinalize(s: DefineState): (r: DefineState)
    ensures r.definitions == s.definitions
    ensures r.options - {"plugins"} == s.options - {"plugins"}
    ensures PluginsOf(r.options) == [PluginValue(DefinePlugin(s.definitions))] + PluginsOf(s.options)
  {
    s.(options := AddPlugin(s.options, DefinePlugin(s.definitions)))
  }

  /** The split occurrence `i` (a value that is not a string splits as the empty string). */
  function PairAt(items: seq<Value>, i: int): Pair
    requires 0 <= i < |items|
  {
    SplitPair(if items[i].Str? then items[i].s else "")
  }

  /** The definitions the occurrences make, applied in order. */
  function Definitions(items: seq<Value>): Props {
    if |items| == 0 then map[]
    else
      var pr := PairAt(items, |items| - 1);
      Definitions(items[..|items| - 1])[DefineName(pr) := DefineValue(pr)]
  }

  lemma PairAtPrefix(items: seq<Value>, n: int, i: int)
    requires 0 <= i < n <= |items|
    ensures PairAt(items[..n], i) == PairAt(items, i)
  {
  }

  /** Every occurrence's name is defined. */
  lemma {:induction false} DefinedByOccurrence(items: seq<Value>, i: int)
    requires 0 <= i < |items|
    ensures DefineName(PairAt(items, i)) in Definitions(items)
    decreases |items|
  {
    var n := |items| - 1;
    var pr := PairAt(items, n);
    var before := Definitions(items[..n]);
    assert Definitions(items) == before[DefineName(pr) := DefineValue(pr)];
    if i < n {
      DefinedByOccurrence(items[..n], i);
      PairAtPrefix(items, n, i);
      var k := DefineName(PairAt(items, i));
      assert k in before;
      assert k in before[DefineName(pr) := DefineValue(pr)];
    } else {
      assert i == n;
      assert PairAt(items, i) == pr;
    }
  }

  /** Every defined name comes from some occurrence. */
  lemma {:induction false} OccurrenceOfDefined(items: seq<Value>, k: string) returns (i: int)
    requires k in Definitions(items)
    ensures 0 <= i < |items| && DefineName(PairAt(items, i)) == k
    decreases |items|
  {
    var n := |items| - 1;
    if DefineName(PairAt(items, n)) == k {
      i := n;
    } else {
      i := OccurrenceOfDefined(items[..n], k);
      PairAtPrefix(items, n, i);
    }
  }

  /** A name is defined exactly when some occurrence defines it. */
  lemma DefinitionKeys(items: seq<Value>, k: string)
    ensures k in Definitions(items) <==> exists i :: 0 <= i < |items| && DefineName(PairAt(items, i)) == k
  {
    if k in Definitions(items) {
      var i := OccurrenceOfDefined(items, k);
    } else {
      forall i | 0 <= i < |items| ensures DefineName(PairAt(items, i)) != k {
        DefinedByOccurrence(items, i);
      }
    }
  }

  /** A later duplicate wins: a name holds the value of the last occurrence that defines it. */
  lemma {:induction false} DefinitionLastWins(items: seq<Value>, i: int)
    requires 0 <= i < |items|
    requires forall j :: i < j < |items| ==> DefineName(PairAt(items, j)) != DefineName(PairAt(items, i))
    ensures DefineName(PairAt(items, i)) in Definitions(items)
    ensures Definitions(items)[DefineName(PairAt(items, i))] == DefineValue(PairAt(items, i))
    decreases |items|
  {
    if i < |items| - 1 {
      var front := items[..|items| - 1];
      forall j | i <= j < |front| ensures PairAt(front, j) == PairAt(items, j) {
        PairAtPrefix(items, |items| - 1, j);
      }
      DefinitionLastWins(front, i);
    }
  }

  /** One callback defines one name and leaves the options alone. */
  lemma DefineStepDefines(s: DefineState, pr: Pair)
    ensures DefineStep(s, pr).Success?
    ensures DefineStep(s, pr).value.options == s.options
    ensures DefineStep(s, pr).value.definitions == s.definitions[DefineName(pr) := DefineValue(pr)]
  {
  }

  lemma {:induction false} FoldDefines(s0: DefineState, items: seq<Value>)
    requires s0.definitions == map[]
    requires forall i :: 0 <= i < |items| ==> items[i].Str?
    ensures var r := FoldValues(s0, items, Paired(DefineStep));
            && r.Success?
            && r.value.options == s0.options
            && r.value.definitions == Definitions(items)
    decreases |items|
  {
    if |items| > 0 {
      var front := items[..|items| - 1];
      var last := items[|items| - 1];
      FoldDefines(s0, front);
      var mid := FoldValues(s0, front, Paired(DefineStep)).value;
      var pr := SplitPair(last.s);
      assert FoldValues(s0, items, Paired(DefineStep)) == DefineStep(mid, pr);
      DefineStepDefines(mid, pr);
      assert PairAt(items, |items| - 1) == pr;
    }
  }

  lemma {:induction false} DefineFoldFails(s0: DefineState, items: seq<Value>)
    ensures FoldValues(s0, items, Paired(DefineStep)).Success? <==> forall i :: 0 <= i < |items| ==> items[i].Str?
    decreases |items|
  {
    if |items| > 0 {
      var front := items[..|items| - 1];
      var last := items[|items| - 1];
      var h := Paired(DefineStep);
      DefineFoldFails(s0, front);
      assert (forall i :: 0 <= i < |items| ==> items[i].Str?)
         <==> (forall i :: 0 <= i < |front| ==> front[i].Str?) && last.Str?;
      var before := FoldValues(s0, front, h);
      if before.Success? {
        assert FoldValues(s0, items, h) == h(before.value, last);
        if last.Str? {
          assert h(before.value, last) == DefineStep(before.value, SplitPair(last.s));
        }
      }
    }
  }

  /** The options once the handler is done (or the failure it threw). */
  function OptionsOf(r: Res<DefineState>): Res<Props> {
    match r
    case Success(st) => Success(st.options)
    case Failure(e) => Failure(e)
  }

  /** The walk of `ifArgPair("define", ...)` in closed form. */
  lemma DefineWalk(flags: Flags, p: Props)
    ensures var occ := Occurrences(flags, "define");
            var r := IfArgPair(flags, "define", DefineState(p, map[]), Some(DefineInit), EachPair(DefineStep), Some(DefineFinalize));
            && (!Present(flags, "define") ==> r == Success(DefineState(p, map[])))
            && (r.Success? <==> forall i :: 0 <= i < |occ| ==> occ[i].Str?)
            && (r.Success? && Present(flags, "define") ==> r.value == DefineFinalize(DefineState(p, Definitions(occ))))
  {
    var occ := Occurrences(flags, "define");
    var s0 := DefineState(p, map[]);
    IfArgPairFolds(flags, "define", s0, Some(DefineInit), DefineStep, Some(DefineFinalize));
    DefineFoldFails(DefineInit(s0), occ);
    if forall i :: 0 <= i < |occ| ==> occ[i].Str? {
      FoldDefines(DefineInit(s0), occ);
    }
  }

  /** `define`: absent or null, nothing happens; otherwise exactly one DefinePlugin holding all
      the definitions is put in front of the existing plugins, and nothing else changes. A value
      that is not a string throws. */
  function ApplyDefine(flags: Flags, p: Props): (r: Res<Props>)
    ensures !Present(flags, "define") ==> r == Success(p)
    ensures r.Success? <==> forall i :: 0 <= i < |Occurrences(flags, "define")| ==> Occurrences(flags, "define")[i].Str?
    ensures r.Success? && Present(flags, "define") ==>
              && r.value - {"plugins"} == p - {"plugins"}
              && PluginsOf(r.value) == [PluginValue(DefinePlugin(Definitions(Occurrences(flags, "define"))))] + PluginsOf(p)
  {
    DefineWalk(flags, p);
    OptionsOf(IfArgPair(flags, "define", DefineState(p, map[]), Some(DefineInit), EachPair(DefineStep), Some(DefineFinalize)))
  }
}
