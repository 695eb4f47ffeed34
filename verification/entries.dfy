/** The two ways the command line adds entry points: the `entry` flag (`--entry name=module`)
    and the positional arguments (`webpack name=module`, or a bare module for `main`). */
module Entries {
  import opened Wrappers
  import opened Strings
  import opened JsValues
  import opened Failures
  import opened Environment
  import opened Appliers

  lemma StrsSnoc(vals: seq<string>, v: string)
    ensures Strs(vals + [v]) == Strs(vals) + [Str(v)]
  {
    assert Strs(vals + [v]) == Strs(vals) + [Str(v)];
  }

  // ---------------------------------------------------------------- the `entry` flag

  /** `ifArgPair` passes a missing name as `null`, so `--entry ./a.js` writes the property "null". */
  function EntryKey(pr: Pair): (k: string)
    ensures pr.key.None? ==> k == "null"
    ensures pr.key.Some? ==> k == pr.key.value
  {
    if pr.key.Some? then pr.key.value else "null"
  }

  /** `[].concat(existing).concat(entry)` when something other than null is there, else the
      entry alone. */
  function Concat(existing: Option<Value>, entry: string): (r: Value)
    ensures existing.None? || existing == Some(Null) ==> r == Str(entry)
    ensures Spread(r) == (if existing.Some? && existing.value != Null then Spread(existing.value) else []) + [Str(entry)]
  {
    if existing.Some? && existing.value != Null then ArrayOf(Spread(existing.value) + [Str(entry)])
    else Str(entry)
  }

  /** The `entry` callback, on `options.entry` already made an object by `init`. */
  function AddEntry(t: Props, pr: Pair): (r: Res<Props>)
    ensures r.Success? && r.value - {"entry"} == t - {"entry"}
    ensures "entry" in r.value && r.value["entry"].Obj?
    ensures "entry" in t && t["entry"].Obj? ==> r.value["entry"].kind == t["entry"].kind
    ensures Lookup(Field(r.value, "entry"), EntryKey(pr)) == Some(Concat(Lookup(Field(t, "entry"), EntryKey(pr)), pr.value))
    ensures forall k :: k != EntryKey(pr) ==> Lookup(Field(r.value, "entry"), k) == Lookup(Field(t, "entry"), k)
  {
    var e := Field(t, "entry");
    var k := EntryKey(pr);
    Success(WithField(t, "entry", e[k := Concat(Lookup(e, k), pr.value)]))
  }

  /** The `entry` init: `ensureObject(options, "entry")`. */
  function EntryInit(t: Props): Props {
    EnsureObject(t, "entry")
  }

  /** The modules the `entry` occurrences add under name `k`, in order. */
  function EntryValues(items: seq<Value>, k: string): seq<string> {
    if |items| == 0 then []
    else
      var last := items[|items| - 1];
      EntryValues(items[..|items| - 1], k)
      + (if last.Str? && EntryKey(SplitPair(last.s)) == k then [SplitPair(last.s).value] else [])
  }

  /** What name `k` holds after modules `vals` are added to `e0`: nothing new for none; the
      module itself for a single one on an empty slot; otherwise one flat array, whatever was
      there (spread if it was an array) followed by the modules in order. */
  function Accumulated(e0: Option<Value>, vals: seq<string>): Option<Value> {
    if |vals| == 0 then e0
    else if e0.Some? && e0.value != Null then Some(ArrayOf(Spread(e0.value) + Strs(vals)))
    else if |vals| == 1 then Some(Str(vals[0]))
    else Some(ArrayOf(Strs(vals)))
  }

  lemma AccumulatedStep(e0: Option<Value>, vals: seq<string>, v: string)
    ensures Accumulated(e0, vals + [v]) == Some(Concat(Accumulated(e0, vals), v))
  {
    StrsSnoc(vals, v);
    if |vals| == 0 {
      assert vals + [v] == [v];
      assert Strs([v]) == [Str(v)];
    } else if e0.Some? && e0.value != Null {
      assert Spread(e0.value) + Strs(vals) + [Str(v)] == Spread(e0.value) + (Strs(vals) + [Str(v)]);
    } else if |vals| == 1 {
      assert Strs(vals) == [Str(vals[0])];
    }
  }

  /** One `entry` callback only touches the name it was given. */
  lemma AddEntryStep(t: Props, pr: Pair, k: string)
    requires "entry" in t && t["entry"].Obj?
    ensures var r := AddEntry(t, pr).value;
            && AddEntry(t, pr).Success?
            && r - {"entry"} == t - {"entry"}
            && "entry" in r && r["entry"].Obj? && r["entry"].kind == t["entry"].kind
            && Lookup(Field(r, "entry"), k)
               == if EntryKey(pr) == k then Some(Concat(Lookup(Field(t, "entry"), k), pr.value))
                  else Lookup(Field(t, "entry"), k)
  {
  }

  lemma {:induction false} FoldEntries(t0: Props, items: seq<Value>, k: string)
    requires "entry" in t0 && t0["entry"].Obj?
    requires forall i :: 0 <= i < |items| ==> items[i].Str?
    ensures var r := FoldValues(t0, items, Paired(AddEntry));
            && r.Success?
            && r.value - {"entry"} == t0 - {"entry"}
            && "entry" in r.value && r.value["entry"].Obj? && r.value["entry"].kind == t0["entry"].kind
            && Lookup(Field(r.value, "entry"), k) == Accumulated(Lookup(Field(t0, "entry"), k), EntryValues(items, k))
    decreases |items|
  {
    if |items| > 0 {
      var front := items[..|items| - 1];
      var last := items[|items| - 1];
      FoldEntries(t0, front, k);
      var mid := FoldValues(t0, front, Paired(AddEntry)).value;
      var pr := SplitPair(last.s);
      assert FoldValues(t0, items, Paired(AddEntry)) == AddEntry(mid, pr);
      AddEntryStep(mid, pr, k);
      var e0 := Lookup(Field(t0, "entry"), k);
      if EntryKey(pr) == k {
        assert EntryValues(items, k) == EntryValues(front, k) + [pr.value];
        AccumulatedStep(e0, EntryValues(front, k), pr.value);
      } else {
        assert EntryValues(items, k) == EntryValues(front, k) + [];
        assert EntryValues(front, k) + [] == EntryValues(front, k);
      }
    }
  }

  /** `entry`: every occurrence is a string (anything else throws); `options.entry` becomes an
      object, and nothing outside it changes. */
  function ApplyEntry(flags: Flags, p: Props): (r: Res<Props>)
    ensures !Present(flags, "entry") ==> r == Success(p)
    ensures r.Success? <==> forall i :: 0 <= i < |Occurrences(flags, "entry")| ==> Occurrences(flags, "entry")[i].Str?
    ensures r.Success? && Present(flags, "entry") ==>
              && r.value - {"entry"} == p - {"entry"}
              && "entry" in r.value && r.value["entry"].Obj?
  {
    IfArgPairFolds(flags, "entry", p, Some(EntryInit), AddEntry, None);
    EntryFoldFails(EntryInit(p), Occurrences(flags, "entry"));
    if Present(flags, "entry") && forall i :: 0 <= i < |Occurrences(flags, "entry")| ==> Occurrences(flags, "entry")[i].Str? then
      FoldEntries(EntryInit(p), Occurrences(flags, "entry"), "");
      IfArgPair(flags, "entry", p, Some(EntryInit), EachPair(AddEntry), None)
    else
      IfArgPair(flags, "entry", p, Some(EntryInit), EachPair(AddEntry), None)
  }

  lemma {:induction false} EntryFoldFails(t0: Props, items: seq<Value>)
    ensures FoldValues(t0, items, Paired(AddEntry)).Success? <==> forall i :: 0 <= i < |items| ==> items[i].Str?
    decreases |items|
  {
    if |items| > 0 {
      var front := items[..|items| - 1];
      var last := items[|items| - 1];
      var h := Paired(AddEntry);
      EntryFoldFails(t0, front);
      assert (forall i :: 0 <= i < |items| ==> items[i].Str?)
         <==> (forall i :: 0 <= i < |front| ==> front[i].Str?) && last.Str?;
      var before := FoldValues(t0, front, h);
      if before.Success? {
        assert FoldValues(t0, items, h) == h(before.value, last);
        if last.Str? {
          assert h(before.value, last) == AddEntry(before.value, SplitPair(last.s));
        }
      }
    }
  }

  /** Entry accumulation: for any name `k`, the module list the `entry` flag leaves there is
      the closed form `Accumulated` of what was there and the modules given for `k`. */
  lemma EntryAccumulation(flags: Flags, p: Props, k: string)
    requires forall i :: 0 <= i < |Occurrences(flags, "entry")| ==> Occurrences(flags, "entry")[i].Str?
    ensures ApplyEntry(flags, p).Success?
    ensures Lookup(Field(ApplyEntry(flags, p).value, "entry"), k)
         == Accumulated(Lookup(Field(p, "entry"), k), EntryValues(Occurrences(flags, "entry"), k))
  {
    var occ := Occurrences(flags, "entry");
    IfArgPairFolds(flags, "entry", p, Some(EntryInit), AddEntry, None);
    FoldEntries(EntryInit(p), occ, k);
  }

  /** `--entry foo=./a.js --entry foo=./a.js` gives `foo: ["./a.js", "./a.js"]`: a flat array,
      never a nested one. */
  lemma EntryRepeated(flags: Flags, p: Props, name: string, request: string)
    requires '=' !in name
    requires "entry" in flags && flags["entry"] == ArrayOf([Str(name + "=" + request), Str(name + "=" + request)])
    requires name !in Field(p, "entry")
    ensures ApplyEntry(flags, p).Success?
    ensures Lookup(Field(ApplyEntry(flags, p).value, "entry"), name) == Some(ArrayOf([Str(request), Str(request)]))
  {
    var x := Str(name + "=" + request);
    assert Occurrences(flags, "entry") == [x, x];
    EntryValuesTwice(name, request);
    EntryAccumulation(flags, p, name);
    assert Lookup(Field(p, "entry"), name) == None;
    AccumulatedTwice(request);
  }

  lemma AccumulatedTwice(request: string)
    ensures Accumulated(None, [request, request]) == Some(ArrayOf([Str(request), Str(request)]))
  {
    assert Strs([request, request]) == [Str(request), Str(request)];
  }

  lemma EntryValuesTwice(name: string, request: string)
    requires '=' !in name
    ensures var x := Str(name + "=" + request);
            EntryValues([x, x], name) == [request, request]
  {
    SplitPairJoin(name, request);
    var x := Str(name + "=" + request);
    assert EntryKey(SplitPair(x.s)) == name && SplitPair(x.s).value == request;
    assert [x, x][..1] == [x];
    assert [x][..0] == [];
    assert EntryValues([x], name) == [request];
  }

  /** With no `=`, `--entry ./a.js` stores the request under the property "null". */
  lemma EntryWithoutName(flags: Flags, p: Props, request: string)
    requires '=' !in request
    requires "entry" in flags && flags["entry"] == Str(request)
    requires "null" !in Field(p, "entry")
    ensures ApplyEntry(flags, p).Success?
    ensures Lookup(Field(ApplyEntry(flags, p).value, "entry"), "null") == Some(Str(request))
  {
    assert [Str(request)][..0] == [];
    assert EntryValues([Str(request)], "null") == [request];
    EntryAccumulation(flags, p, "null");
  }

  // ---------------------------------------------------------------- positional arguments

  /** A `?` comes before the first `=` (or there is no `=`): the token is a module for `main`. */
  predicate Unsplit(content: string) {
    '=' !in content || exists j :: 0 <= j < |content| && content[j] == '?' && '=' !in content[..j]
  }

  /** Where one positional token goes: the bundle name and the module. A token that is not
      split names a module for `main`, resolved (with a trailing separator for a directory)
      only when that path exists; otherwise the token splits at its first `=`. */
  function PositionalTarget(env: Env, content: string): (r: (string, string))
    ensures Unsplit(content) ==> r.0 == "main"
    ensures Unsplit(content) && !env.fileExists(env.resolve(content)) ==> r.1 == content
    ensures Unsplit(content) && env.fileExists(env.resolve(content)) ==>
              r.1 == env.resolve(content) + (if env.isDirectory(env.resolve(content)) then env.sep else "")
    ensures !Unsplit(content) ==> '=' !in r.0 && content == r.0 + "=" + r.1
  {
    var i := IndexOf(content, '=');
    var j := IndexOf(content, '?');
    if i < 0 || (j >= 0 && j < i) then
      assert j >= 0 && j < i ==> content[j] == '?' && '=' !in content[..j] by {
        if j >= 0 && j < i {
          assert forall m :: 0 <= m < j ==> content[..j][m] == content[..i][m];
        }
      }
      var resolved := env.resolve(content);
      if env.fileExists(resolved) then ("main", resolved + (if env.isDirectory(resolved) then env.sep else ""))
      else ("main", content)
    else
      assert !Unsplit(content) by {
        forall m | 0 <= m < |content| && content[m] == '?'
          ensures '=' in content[..m]
        {
          assert m >= i;
          assert content[..m][i] == '=';
        }
      }
      assert content == content[..i] + "=" + content[i + 1..];
      (content[..i], content[i + 1..])
  }

  /** `addTo(name, entry)`: a truthy slot gets the module pushed (a scalar is first promoted to
      a one-element array); an empty slot gets the module itself. */
  function AddTo(e: Props, name: string, entry: string): (r: Props)
    ensures r - {name} == e - {name}
    ensures name in r
  {
    if name in e && Truthy(e[name]) then
      var arr := if IsArray(e[name]) then e[name] else ArrayOf([e[name]]);
      e[name := Push(arr, Str(entry))]
    else e[name := Str(entry)]
  }

  /** `argv._.forEach(...)`, on `options.entry`'s properties: no name is lost, and every
      token's bundle name ends up present. */
  function AddPositionals(env: Env, e: Props, positional: seq<string>): (r: Props)
    ensures forall k :: k in e ==> k in r
    ensures forall i :: 0 <= i < |positional| ==> PositionalTarget(env, positional[i]).0 in r
    decreases |positional|
  {
    if |positional| == 0 then e
    else
      var front := positional[..|positional| - 1];
      var target := PositionalTarget(env, positional[|positional| - 1]);
      var mid := AddPositionals(env, e, front);
      var r := AddTo(mid, target.0, target.1);
      assert forall k :: k in mid ==> k in r by {
        forall k | k in mid ensures k in r {
          if k != target.0 {
            assert k in mid - {target.0};
          }
        }
      }
      assert forall i :: 0 <= i < |front| ==> front[i] == positional[i];
      r
  }

  /** A bare string or array `entry` is first wrapped as `{ main: entry }`. */
  function WrapEntry(p: Props): (r: Props)
    ensures r - {"entry"} == p - {"entry"}
    ensures "entry" in p && (IsArray(p["entry"]) || p["entry"].Str?) ==>
              "entry" in r && r["entry"] == Obj(PlainObject, map["main" := p["entry"]])
    ensures !("entry" in p && (IsArray(p["entry"]) || p["entry"].Str?)) ==> r == p
  {
    if "entry" in p && (IsArray(p["entry"]) || p["entry"].Str?) then
      p["entry" := Obj(PlainObject, map["main" := p["entry"]])]
    else p
  }

  /** The texts of positional tokens that are all strings. */
  function Tokens(positional: seq<Value>): (r: seq<string>)
    requires forall i :: 0 <= i < |positional| ==> positional[i].Str?
    ensures Strs(r) == positional
  {
    seq(|positional|, i requires 0 <= i < |positional| => positional[i].s)
  }

  /** The positional-argument step of `processOptions`: nothing without tokens; a token that is
      not a string throws; otherwise `options.entry` becomes an object keeping every name it
      had (after wrapping) and gaining every token's bundle name, and nothing else changes. */
  function ApplyPositionals(env: Env, positional: seq<Value>, p: Props): (r: Res<Props>)
    ensures |positional| == 0 ==> r == Success(p)
    ensures r.Success? <==> forall i :: 0 <= i < |positional| ==> positional[i].Str?
    ensures r.Failure? ==> r.error == TypeError(NotIndexable)
    ensures r.Success? && |positional| > 0 ==>
              && r.value - {"entry"} == p - {"entry"}
              && "entry" in r.value && r.value["entry"].Obj?
              && (forall k :: k in Field(WrapEntry(p), "entry") ==> k in Field(r.value, "entry"))
              && (forall i :: 0 <= i < |positional| ==> PositionalTarget(env, positional[i].s).0 in Field(r.value, "entry"))
  {
    if |positional| == 0 then Success(p)
    else if exists i :: 0 <= i < |positional| && !positional[i].Str? then Failure(TypeError(NotIndexable))
    else
      var tokens := Tokens(positional);
      assert forall i :: 0 <= i < |positional| ==> positional[i].s == tokens[i] by {
        forall i | 0 <= i < |positional| ensures positional[i].s == tokens[i] {
          assert Strs(tokens)[i] == Str(tokens[i]);
        }
      }
      var q := EnsureObject(WrapEntry(p), "entry");
      Success(WithField(q, "entry", AddPositionals(env, Field(q, "entry"), tokens)))
  }

  /** The modules the positional tokens add under name `k`, in order. */
  function PositionalValues(env: Env, positional: seq<string>, k: string): seq<string> {
    if |positional| == 0 then []
    else
      var target := PositionalTarget(env, positional[|positional| - 1]);
      PositionalValues(env, positional[..|positional| - 1], k) + (if target.0 == k then [target.1] else [])
  }

  /** What name `k` holds after non-empty modules `vals` are added with `addTo`: a truthy
      array gets them appended, another truthy value becomes the first element of a new array,
      and an empty slot takes a single module as it is and several as an array. */
  function AddedUp(e0: Option<Value>, vals: seq<string>): Option<Value> {
    if |vals| == 0 then e0
    else if e0.Some? && Truthy(e0.value) then
      if IsArray(e0.value) then Some(Obj(ArrayObject(e0.value.kind.items + Strs(vals)), e0.value.props))
      else Some(ArrayOf([e0.value] + Strs(vals)))
    else if |vals| == 1 then Some(Str(vals[0]))
    else Some(ArrayOf(Strs(vals)))
  }

  lemma AddedUpStep(e0: Option<Value>, vals: seq<string>, v: string)
    requires v != ""
    requires forall i :: 0 <= i < |vals| ==> vals[i] != ""
    ensures var e := AddedUp(e0, vals);
            var slot := map[] + (if e.Some? then map["k" := e.value] else map[]);
            Lookup(AddTo(slot, "k", v), "k") == AddedUp(e0, vals + [v])
  {
    StrsSnoc(vals, v);
    if |vals| == 0 {
      assert vals + [v] == [v];
      assert Strs([v]) == [Str(v)];
    } else if e0.Some? && Truthy(e0.value) {
      if IsArray(e0.value) {
        assert e0.value.kind.items + Strs(vals) + [Str(v)] == e0.value.kind.items + (Strs(vals) + [Str(v)]);
      } else {
        assert [e0.value] + Strs(vals) + [Str(v)] == [e0.value] + (Strs(vals) + [Str(v)]);
      }
    } else if |vals| == 1 {
      assert Strs(vals) == [Str(vals[0])];
      assert vals[0] != "";
    } else {
      assert Strs(vals)[0] == Str(vals[0]);
    }
  }

  /** `AddTo` only looks at the slot it writes. */
  lemma AddToSlot(e: Props, name: string, v: string, k: string)
    ensures var slot := map[] + (if k in e then map["k" := e[k]] else map[]);
            k == name ==> Lookup(AddTo(e, name, v), k) == Lookup(AddTo(slot, "k", v), "k")
    ensures k != name ==> Lookup(AddTo(e, name, v), k) == Lookup(e, k)
  {
    if k != name {
      assert AddTo(e, name, v) - {name} == e - {name};
      assert k in AddTo(e, name, v) <==> k in e;
    }
  }

  lemma {:induction false} FoldPositionals(env: Env, e: Props, positional: seq<string>, k: string)
    requires forall i :: 0 <= i < |PositionalValues(env, positional, k)| ==> PositionalValues(env, positional, k)[i] != ""
    ensures Lookup(AddPositionals(env, e, positional), k) == AddedUp(Lookup(e, k), PositionalValues(env, positional, k))
    decreases |positional|
  {
    if |positional| > 0 {
      var front := positional[..|positional| - 1];
      var target := PositionalTarget(env, positional[|positional| - 1]);
      var vals := PositionalValues(env, front, k);
      assert PositionalValues(env, positional, k) == vals + (if target.0 == k then [target.1] else []);
      assert forall i :: 0 <= i < |vals| ==> vals[i] == PositionalValues(env, positional, k)[i];
      FoldPositionals(env, e, front, k);
      var mid := AddPositionals(env, e, front);
      AddToSlot(mid, target.0, target.1, k);
      if target.0 == k {
        assert target.1 == PositionalValues(env, positional, k)[|vals|];
        AddedUpStep(Lookup(e, k), vals, target.1);
      } else {
        assert vals + [] == vals;
      }
    }
  }

  /** Positional accumulation: for any name `k` whose modules are non-empty strings, the
      positional tokens leave the closed form `AddedUp` of what was there (after a bare string
      or array `entry` is wrapped as `main`) and the modules given for `k`. */
  lemma PositionalAccumulation(env: Env, tokens: seq<string>, p: Props, k: string)
    requires |tokens| > 0
    requires forall i :: 0 <= i < |PositionalValues(env, tokens, k)| ==> PositionalValues(env, tokens, k)[i] != ""
    ensures ApplyPositionals(env, Strs(tokens), p).Success?
    ensures Lookup(Field(ApplyPositionals(env, Strs(tokens), p).value, "entry"), k)
         == AddedUp(Lookup(Field(WrapEntry(p), "entry"), k), PositionalValues(env, tokens, k))
  {
    assert Tokens(Strs(tokens)) == tokens by {
      var t := Tokens(Strs(tokens));
      assert |t| == |tokens|;
      forall i | 0 <= i < |tokens| ensures t[i] == tokens[i] {
        assert Strs(t)[i] == Strs(tokens)[i];
      }
    }
    var q := EnsureObject(WrapEntry(p), "entry");
    FoldPositionals(env, Field(q, "entry"), tokens, k);
  }

  /** After wrapping, a bare string or array `entry` is what `main` holds. */
  lemma WrappedMain(p: Props)
    requires "entry" in p && (IsArray(p["entry"]) || p["entry"].Str?)
    ensures Lookup(Field(WrapEntry(p), "entry"), "main") == Some(p["entry"])
  {
  }

  lemma AddedUpPromotes(x: Value, v: string)
    requires Truthy(x) && !IsArray(x)
    ensures AddedUp(Some(x), [v]) == Some(ArrayOf([x, Str(v)]))
  {
    assert Strs([v]) == [Str(v)];
    assert [x] + [Str(v)] == [x, Str(v)];
  }

  /** `options.entry = "./a.js"` and a positional `./b.js` that is not a file give
      `entry: { main: ["./a.js", "./b.js"] }`: the string is wrapped, then promoted to an array. */
  lemma PositionalPromotes(env: Env, p: Props, existing: string, request: string)
    requires existing != "" && request != "" && '=' !in request
    requires "entry" in p && p["entry"] == Str(existing)
    requires !env.fileExists(env.resolve(request))
    ensures ApplyPositionals(env, [Str(request)], p).Success?
    ensures Lookup(Field(ApplyPositionals(env, [Str(request)], p).value, "entry"), "main")
         == Some(ArrayOf([Str(existing), Str(request)]))
  {
    assert Strs([request]) == [Str(request)];
    assert PositionalValues(env, [request], "main") == [request] by {
      assert Unsplit(request);
      assert PositionalTarget(env, request) == ("main", request);
      assert [request][..0] == [];
    }
    PositionalAccumulation(env, [request], p, "main");
    WrappedMain(p);
    AddedUpPromotes(Str(existing), request);
  }
}
