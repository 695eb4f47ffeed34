/** The combinators every option handler is built from: `ifArg`, `ifArgPair`,
    `ifBooleanArg` and `mapArgToBoolean` (bin/convert-argv.js). A handler's effect is a
    function from a state (usually the options object's properties) to a new state, or to
    the failure it throws. */
module Appliers {
  import opened Wrappers
  import opened Strings
  import opened JsValues
  import opened Failures

  type Flags = map<string, Value>

  /** `argv[name]` is neither undefined nor null: the handler runs. */
  predicate Present(flags: Flags, name: string) {
    name in flags && flags[name] != Null
  }

  /** The values a handler's callback receives, in order. */
  function Occurrences(flags: Flags, name: string): (r: seq<Value>)
    ensures !Present(flags, name) ==> r == []
    ensures Present(flags, name) && !IsArray(flags[name]) ==> r == [flags[name]]
  {
    if Present(flags, name) then Spread(flags[name]) else []
  }

  /** `items.forEach(step)`: every element with its index, in order; a failure stops the walk. */
  function ForEach<S>(s: S, items: seq<Value>, step: (S, Value, int) -> Res<S>): Res<S>
    decreases |items|
  {
    if |items| == 0 then Success(s)
    else
      match ForEach(s, items[..|items| - 1], step)
      case Failure(e) => Failure(e)
      case Success(t) => step(t, items[|items| - 1], |items| - 1)
  }

  /** Runs an optional `init`/`finalize` callback. */
  function Run<S>(f: Option<S -> S>, s: S): S {
    if f.Some? then f.value(s) else s
  }

  /** Runs `finalize` after a walk that did not throw. */
  function Finish<S>(finalize: Option<S -> S>, r: Res<S>): Res<S> {
    match r
    case Failure(e) => Failure(e)
    case Success(t) => Success(Run(finalize, t))
  }

  /** `ifArg(name, fn, init, finalize)`: for an array value, `init`, then `fn` on each element
      with its index, then `finalize`; for any other value except null, the same around one call
      with index -1; nothing at all when the flag is absent or null. */
  function IfArg<S>(flags: Flags, name: string, s: S, init: Option<S -> S>,
                    step: (S, Value, int) -> Res<S>, finalize: Option<S -> S>): (r: Res<S>)
    ensures !Present(flags, name) ==> r == Success(s)
  {
    if name in flags && IsArray(flags[name]) then
      Finish(finalize, ForEach(Run(init, s), flags[name].kind.items, step))
    else if Present(flags, name) then
      Finish(finalize, step(Run(init, s), flags[name], -1))
    else Success(s)
  }

  /** A record of the callbacks `ifArg` makes, used to state its calling protocol. */
  datatype Event = Init | Visit(value: Value, index: int) | Finalize

  function RecordInit(t: seq<Event>): seq<Event> {
    t + [Init]
  }

  function RecordVisit(t: seq<Event>, v: Value, i: int): Res<seq<Event>> {
    Success(t + [Visit(v, i)])
  }

  function RecordFinalize(t: seq<Event>): seq<Event> {
    t + [Finalize]
  }

  /** One visit per element, with the element's own index. */
  function Visits(items: seq<Value>): (r: seq<Event>)
    ensures |r| == |items|
    ensures forall i :: 0 <= i < |items| ==> r[i] == Visit(items[i], i)
  {
    seq(|items|, i requires 0 <= i < |items| => Visit(items[i], i))
  }

  /** The callbacks `ifArg` makes, in order, for a given command line. */
  function Protocol(flags: Flags, name: string): seq<Event> {
    if name in flags && IsArray(flags[name]) then [Init] + Visits(flags[name].kind.items) + [Finalize]
    else if Present(flags, name) then [Init, Visit(flags[name], -1), Finalize]
    else []
  }

  lemma {:induction false} ForEachVisits(t: seq<Event>, items: seq<Value>)
    ensures ForEach(t, items, RecordVisit) == Success(t + Visits(items))
    decreases |items|
  {
    if |items| > 0 {
      var front := items[..|items| - 1];
      var last := Visit(items[|items| - 1], |items| - 1);
      ForEachVisits(t, front);
      assert Visits(items) == Visits(front) + [last];
      assert t + Visits(front) + [last] == t + Visits(items);
    } else {
      assert t + Visits(items) == t;
    }
  }

  /** `init` runs once before the first element, `finalize` once after the last, and each
      element is visited once, in order, with its index (-1 for a lone value). */
  lemma IfArgProtocol(flags: Flags, name: string)
    ensures IfArg(flags, name, [], Some(RecordInit), RecordVisit, Some(RecordFinalize))
         == Success(Protocol(flags, name))
  {
    assert Run(Some(RecordInit), []) == [Init];
    if name in flags && IsArray(flags[name]) {
      var items := flags[name].kind.items;
      ForEachVisits([Init], items);
      assert [Init] + Visits(items) + [Finalize] == Protocol(flags, name);
    } else if Present(flags, name) {
      var v := flags[name];
      assert [Init] + [Visit(v, -1)] + [Finalize] == Protocol(flags, name);
    }
  }

  /** Folds a handler that ignores the index over the values, in order. */
  function FoldValues<S>(s: S, items: seq<Value>, h: (S, Value) -> Res<S>): Res<S>
    decreases |items|
  {
    if |items| == 0 then Success(s)
    else
      match FoldValues(s, items[..|items| - 1], h)
      case Failure(e) => Failure(e)
      case Success(t) => h(t, items[|items| - 1])
  }

  /** Every value passes `ok`, stated the way a fold walks the values. */
  predicate AllOf(ok: Value -> bool, items: seq<Value>) {
    |items| == 0 || (AllOf(ok, items[..|items| - 1]) && ok(items[|items| - 1]))
  }

  lemma {:induction false} AllOfEach(ok: Value -> bool, items: seq<Value>)
    ensures AllOf(ok, items) <==> forall i :: 0 <= i < |items| ==> ok(items[i])
    decreases |items|
  {
    if |items| > 0 {
      var front := items[..|items| - 1];
      AllOfEach(ok, front);
      if AllOf(ok, front) {
        forall i | 0 <= i < |front| ensures ok(items[i]) {
          assert items[i] == front[i];
        }
      } else {
        var j :| 0 <= j < |front| && !ok(front[j]);
        assert items[j] == front[j];
      }
    }
  }

  /** A callback that ignores the index `ifArg` passes. */
  function Each<S>(h: (S, Value) -> Res<S>): (S, Value, int) -> Res<S> {
    (t: S, v: Value, i: int) => h(t, v)
  }

  lemma {:induction false} ForEachIgnoringIndex<S>(s: S, items: seq<Value>, h: (S, Value) -> Res<S>)
    ensures ForEach(s, items, Each(h)) == FoldValues(s, items, h)
    decreases |items|
  {
    if |items| > 0 {
      ForEachIgnoringIndex(s, items[..|items| - 1], h);
    }
  }

  /** For a callback that ignores the index, `ifArg` is `init`, a fold over the occurrences,
      then `finalize` — or nothing when the flag is absent or null. */
  lemma IfArgFolds<S>(flags: Flags, name: string, s: S, init: Option<S -> S>,
                      h: (S, Value) -> Res<S>, finalize: Option<S -> S>)
    ensures IfArg(flags, name, s, init, Each(h), finalize)
         == if Present(flags, name)
            then Finish(finalize, FoldValues(Run(init, s), Occurrences(flags, name), h))
            else Success(s)
  {
    if name in flags && IsArray(flags[name]) {
      ForEachIgnoringIndex(Run(init, s), flags[name].kind.items, h);
    }
  }

  /** The callback `ifArgPair` wraps around a pair handler: `content.indexOf("=")` throws for a
      value that is not a string. */
  function PairSteps<S>(step: (S, Pair, int) -> Res<S>): (S, Value, int) -> Res<S> {
    (t: S, v: Value, i: int) =>
      if v.Str? then step(t, SplitPair(v.s), i) else Failure(TypeError("content.indexOf is not a function"))
  }

  /** `ifArgPair(name, fn, init, finalize)`: `ifArg` whose callback receives each value split at
      its first `=`. */
  function IfArgPair<S>(flags: Flags, name: string, s: S, init: Option<S -> S>,
                        step: (S, Pair, int) -> Res<S>, finalize: Option<S -> S>): (r: Res<S>)
    ensures !Present(flags, name) ==> r == Success(s)
    ensures Present(flags, name) && !IsArray(flags[name]) && !flags[name].Str? ==> r.Failure?
    ensures Present(flags, name) && flags[name].Str?
            ==> r == Finish(finalize, step(Run(init, s), SplitPair(flags[name].s), -1))
  {
    IfArg(flags, name, s, init, PairSteps(step), finalize)
  }

  /** A pair callback that ignores the index. */
  function EachPair<S>(g: (S, Pair) -> Res<S>): (S, Pair, int) -> Res<S> {
    (t: S, pr: Pair, i: int) => g(t, pr)
  }

  /** What calling `indexOf` on a value that is not a string (a number yargs parsed) throws. */
  const NotIndexable := "content.indexOf is not a function"

  /** A pair handler as a value handler: strings are split at their first `=`, anything else
      throws. */
  function Paired<S>(g: (S, Pair) -> Res<S>): (S, Value) -> Res<S> {
    (t: S, v: Value) =>
      if v.Str? then g(t, SplitPair(v.s)) else Failure(TypeError(NotIndexable))
  }

  lemma {:induction false} ForEachPairs<S>(s: S, items: seq<Value>, g: (S, Pair) -> Res<S>)
    ensures ForEach(s, items, PairSteps(EachPair(g))) == FoldValues(s, items, Paired(g))
    decreases |items|
  {
    if |items| > 0 {
      ForEachPairs(s, items[..|items| - 1], g);
    }
  }

  /** `ifArgPair` is `init`, a fold of the split occurrences, then `finalize`. */
  lemma IfArgPairFolds<S>(flags: Flags, name: string, s: S, init: Option<S -> S>,
                          g: (S, Pair) -> Res<S>, finalize: Option<S -> S>)
    ensures IfArgPair(flags, name, s, init, EachPair(g), finalize)
         == if Present(flags, name)
            then Finish(finalize, FoldValues(Run(init, s), Occurrences(flags, name), Paired(g)))
            else Success(s)
  {
    if name in flags && IsArray(flags[name]) {
      ForEachPairs(Run(init, s), flags[name].kind.items, g);
    }
  }

  /** The callback `ifBooleanArg` hands to `ifArg`: fire on a truthy value, skip a falsy one. */
  function OnTruthy<S>(fire: S -> Res<S>): (S, Value) -> Res<S> {
    (t: S, v: Value) => if Truthy(v) then fire(t) else Success(t)
  }

  /** `ifBooleanArg(name, fn)`: `fn` once for each truthy value. */
  function IfBooleanArg<S>(flags: Flags, name: string, s: S, fire: S -> Res<S>): (r: Res<S>)
    ensures !Present(flags, name) ==> r == Success(s)
    ensures name in flags && !IsArray(flags[name]) && !Truthy(flags[name]) ==> r == Success(s)
    ensures name in flags && !IsArray(flags[name]) && Truthy(flags[name]) ==> r == fire(s)
  {
    IfArg(flags, name, s, None, Each(OnTruthy(fire)), None)
  }

  function CountUp(n: nat): Res<nat> {
    Success(n + 1)
  }

  /** How many of the values are truthy. */
  function TruthyCount(items: seq<Value>): nat {
    if |items| == 0 then 0
    else TruthyCount(items[..|items| - 1]) + (if Truthy(items[|items| - 1]) then 1 else 0)
  }

  lemma {:induction false} FoldCountsTruthy(n: nat, items: seq<Value>)
    ensures FoldValues(n, items, OnTruthy(CountUp)) == Success(n + TruthyCount(items))
    decreases |items|
  {
    if |items| > 0 {
      var front := items[..|items| - 1];
      var x := items[|items| - 1];
      var mid: nat := n + TruthyCount(front);
      FoldCountsTruthy(n, front);
      assert OnTruthy(CountUp)(mid, x) == if Truthy(x) then CountUp(mid) else Success(mid);
    }
  }

  /** A boolean flag fires once per truthy occurrence and never for a falsy one. */
  lemma IfBooleanArgCount(flags: Flags, name: string)
    ensures IfBooleanArg(flags, name, 0, CountUp) == Success(TruthyCount(Occurrences(flags, name)))
  {
    IfArgFolds(flags, name, 0, None, OnTruthy(CountUp), None);
    FoldCountsTruthy(0, Occurrences(flags, name));
  }

  /** The callback of `mapArgToBoolean`: only a literal `true` or `false` is written. */
  function WriteBoolean(name: string): (Props, Value) -> Res<Props> {
    (t: Props, v: Value) =>
      if v == Bool(true) then Success(t[name := Bool(true)])
      else if v == Bool(false) then Success(t[name := Bool(false)])
      else Success(t)
  }

  /** The last literal boolean among the values, if any. */
  function LastBoolean(items: seq<Value>): Option<Value> {
    if |items| == 0 then None
    else if items[|items| - 1].Bool? then Some(items[|items| - 1])
    else LastBoolean(items[..|items| - 1])
  }

  lemma {:induction false} FoldWritesLastBoolean(name: string, p: Props, items: seq<Value>)
    ensures FoldValues(p, items, WriteBoolean(name))
         == Success(if LastBoolean(items).Some? then p[name := LastBoolean(items).value] else p)
    decreases |items|
  {
    if |items| > 0 {
      var front := items[..|items| - 1];
      FoldWritesLastBoolean(name, p, front);
      if items[|items| - 1].Bool? && LastBoolean(front).Some? {
        assert p[name := LastBoolean(front).value][name := items[|items| - 1]]
            == p[name := items[|items| - 1]];
      }
    }
  }

  /** `mapArgToBoolean(name)`: the option of the same name takes the last literal `true` or
      `false` among the flag's values; any other value is ignored, and nothing else changes. */
  function MapArgToBoolean(flags: Flags, name: string, p: Props): (r: Res<Props>)
    ensures var last := LastBoolean(Occurrences(flags, name));
            r == Success(if last.Some? then p[name := last.value] else p)
    ensures r.value - {name} == p - {name}
  {
    IfArgFolds(flags, name, p, None, WriteBoolean(name), None);
    FoldWritesLastBoolean(name, p, Occurrences(flags, name));
    IfArg(flags, name, p, None, Each(WriteBoolean(name)), None)
  }
}
