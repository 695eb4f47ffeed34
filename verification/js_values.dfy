/** JavaScript values as the converter sees them: the flag map's values, loaded
    configurations and the plugin instances handlers create. Every object, an array
    included, carries its own property map, as in JavaScript. */
module JsValues {
  import opened Wrappers
  import opened Strings

  /** The internal class of an object. */
  datatype Kind =
    | PlainObject
    | ArrayObject(items: seq<Value>)
    | RegExpObject(source: string)
    | PluginObject(plugin: Plugin)
    | PromiseObject(settled: Value)

  /** Numbers are integers; NaN is kept apart. Property order is not modelled. */
  datatype Value =
    | Null
    | Bool(b: bool)
    | Num(n: int)
    | NaN
    | Str(s: string)
    | Obj(kind: Kind, props: Props)

  /** The own properties of an object. */
  type Props = map<string, Value>

  /** A plugin instance, recorded by its constructor and the arguments it was given. */
  datatype Plugin =
    | DefinePlugin(definitions: Props)
    | HotModuleReplacementPlugin
    | LoaderOptionsPlugin(options: Props)
    | LimitChunkCountPlugin(maxChunks: Value)
    | MinChunkSizePlugin(minChunkSize: Value)
    | PrefetchPlugin(prefetched: Value)
    | ProvidePlugin(name: string, request: string)
    | LoadedPlugin(path: string, args: Option<Value>)

  function EmptyObject(): Value {
    Obj(PlainObject, map[])
  }

  function ArrayOf(items: seq<Value>): Value {
    Obj(ArrayObject(items), map[])
  }

  function PluginValue(p: Plugin): Value {
    Obj(PluginObject(p), map[])
  }

  function Strs(xs: seq<string>): (r: seq<Value>)
    ensures |r| == |xs| && forall i :: 0 <= i < |xs| ==> r[i] == Str(xs[i])
  {
    seq(|xs|, i requires 0 <= i < |xs| => Str(xs[i]))
  }

  /** `Array.isArray(v)`. */
  predicate IsArray(v: Value) {
    v.Obj? && v.kind.ArrayObject?
  }

  /** JavaScript truthiness. */
  predicate Truthy(v: Value) {
    match v
    case Null => false
    case Bool(b) => b
    case Num(n) => n != 0
    case NaN => false
    case Str(s) => s != ""
    case Obj(_, _) => true
  }

  /** A property read: None is `undefined`. */
  function Lookup(p: Props, k: string): Option<Value> {
    if k in p then Some(p[k]) else None
  }

  /** `[].concat(v)`: the elements of an array, or `v` alone. */
  function Spread(v: Value): seq<Value> {
    if IsArray(v) then v.kind.items else [v]
  }

  /** The own properties of the object at `p[k]`; none when it is absent or not an object. */
  function Field(p: Props, k: string): Props {
    if k in p && p[k].Obj? then p[k].props else map[]
  }

  /** Replaces the properties of the object at `p[k]`, keeping its kind (a plain object if there was none). */
  function WithField(p: Props, k: string, inner: Props): (r: Props)
    ensures k in r && r[k].Obj? && Field(r, k) == inner
    ensures r - {k} == p - {k}
    ensures k in p && p[k].Obj? ==> r[k].kind == p[k].kind
  {
    p[k := Obj(if k in p && p[k].Obj? then p[k].kind else PlainObject, inner)]
  }

  /** `parent[key][field] = v` once `parent[key]` is an object. */
  function SetNested(p: Props, k: string, field: string, v: Value): (r: Props)
    ensures Field(r, k) == Field(p, k)[field := v]
    ensures r - {k} == p - {k}
  {
    WithField(p, k, Field(p, k)[field := v])
  }

  /** `ensureObject(parent, name)`: an object already there is kept as it is, anything else
      (missing, null, a primitive) is replaced by a fresh empty object. */
  function EnsureObject(p: Props, k: string): (r: Props)
    ensures k in r && r[k].Obj?
    ensures r - {k} == p - {k}
    ensures k in p && p[k].Obj? ==> r[k] == p[k]
    ensures !(k in p && p[k].Obj?) ==> Field(r, k) == map[] && r[k].kind.PlainObject?
    ensures Field(r, k) == Field(p, k)
  {
    if k in p && p[k].Obj? then p else p[k := EmptyObject()]
  }

  /** `ensureArray(parent, name)`: an array already there is kept, anything else becomes `[]`. */
  function EnsureArray(p: Props, k: string): (r: Props)
    ensures k in r && IsArray(r[k])
    ensures r - {k} == p - {k}
    ensures k in p && IsArray(p[k]) ==> r[k] == p[k]
    ensures !(k in p && IsArray(p[k])) ==> r[k] == ArrayOf([])
  {
    if k in p && IsArray(p[k]) then p else p[k := ArrayOf([])]
  }

  /** Two property maps that agree outside `V` agree outside any `W` containing `V`. */
  lemma SameOutside(a: Props, b: Props, V: set<string>, W: set<string>)
    requires V <= W && b - V == a - V
    ensures b - W == a - W
  {
    forall k | k !in W ensures (k in b <==> k in a) && (k in b ==> b[k] == a[k]) {
      assert k !in V;
      assert k in b - V <==> k in b;
      assert k in a - V <==> k in a;
      if k in b {
        assert (b - V)[k] == b[k];
        assert (a - V)[k] == a[k];
      }
    }
  }

  /** `arr.push(x)` on an array (other values are left alone). */
  function Push(arr: Value, x: Value): (r: Value)
    requires IsArray(arr)
    ensures IsArray(r) && r.kind.items == arr.kind.items + [x] && r.props == arr.props
  {
    Obj(ArrayObject(arr.kind.items + [x]), arr.props)
  }

  /** `addPlugin(options, plugin)`: the plugin goes to the FRONT of `options.plugins`, which is
      created when it is not an array yet. */
  function AddPlugin(p: Props, plugin: Plugin): (r: Props)
    ensures "plugins" in r && IsArray(r["plugins"])
    ensures r - {"plugins"} == p - {"plugins"}
    ensures r["plugins"].kind.items
         == [PluginValue(plugin)] + (if "plugins" in p && IsArray(p["plugins"]) then p["plugins"].kind.items else [])
  {
    var q := EnsureArray(p, "plugins");
    var list := q["plugins"];
    q["plugins" := Obj(ArrayObject([PluginValue(plugin)] + list.kind.items), list.props)]
  }

  /** The plugins installed on an options object, front first. */
  function PluginsOf(p: Props): seq<Value> {
    if "plugins" in p && IsArray(p["plugins"]) then p["plugins"].kind.items else []
  }

  /** Unary `+v` (ToNumber). Strings are read after trimming white space: empty is 0, decimal
      digits are their value, any other syntax is NaN. */
  function ToNumber(v: Value): (r: Value)
    ensures r.Num? || r.NaN?
    ensures v.Num? ==> r == v
  {
    match v
    case Null => Num(0)
    case Bool(b) => Num(if b then 1 else 0)
    case Num(_) => v
    case NaN => NaN
    case Str(s) =>
      var t := TrimEnd(TrimStart(s));
      if |t| == 0 then Num(0) else if AllDigits(t) then Num(DigitsValue(t)) else NaN
    case Obj(_, _) => NaN
  }

  /** `typeof v`, with None for `undefined`. Plugin instances and promises are objects. */
  function TypeOf(v: Option<Value>): string {
    if v.None? then "undefined"
    else match v.value
      case Null => "object"
      case Bool(_) => "boolean"
      case Num(_) => "number"
      case NaN => "number"
      case Str(_) => "string"
      case Obj(_, _) => "object"
  }

  /** The global `isNaN(v)`. */
  predicate IsNaN(v: Value) {
    ToNumber(v).NaN?
  }

  /** A decimal string coerces to the number it spells. */
  lemma {:induction false} ToNumberOfDecimal(n: nat)
    ensures ToNumber(Str(NatToString(n))) == Num(n)
  {
    var s := NatToString(n);
    assert !IsSpace(s[0]);
    assert TrimStart(s) == s;
    assert !IsSpace(s[|s| - 1]);
    assert TrimEnd(s) == s;
  }

  /** `parseInt(v, 10)`: leading white space, an optional sign, then the longest run of digits. */
  function ParseInt(v: Value): (r: Value)
    ensures r.Num? || r.NaN?
    ensures v.Num? ==> r == v
  {
    match v
    case Num(_) => v
    case Str(s) => ParseIntString(TrimStart(s))
    case _ => NaN
  }

  /** `parseInt` of a string without leading white space. */
  function ParseIntString(t: string): (r: Value)
    ensures r.Num? || r.NaN?
  {
    var negative := |t| > 0 && t[0] == '-';
    var unsigned := if |t| > 0 && (t[0] == '-' || t[0] == '+') then t[1..] else t;
    var digits := DigitPrefix(unsigned);
    var value: int := if |digits| == 0 then 0 else DigitsValue(digits);
    if |digits| == 0 then NaN else Num(if negative then -value else value)
  }

  /** `parseInt` reads the number a decimal string starts with and ignores what follows the digits. */
  lemma {:induction false} ParseIntOfDecimal(n: nat, rest: string)
    requires |rest| == 0 || !IsDigit(rest[0])
    ensures ParseInt(Str(NatToString(n) + rest)) == Num(n)
  {
    var d := NatToString(n);
    var s := d + rest;
    assert s[0] == d[0] && IsDigit(d[0]) && !IsSpace(s[0]);
    assert TrimStart(s) == s;
    DigitPrefixOfDigits(d, rest);
  }

  /** `a === b` where `a` may be undefined; objects are never identical to a flag's value. */
  predicate StrictEquals(a: Option<Value>, b: Value) {
    a.Some? && !a.value.Obj? && !a.value.NaN? && a.value == b
  }

  /** `String(v)` for the values error messages print. */
  function Display(v: Value): string {
    match v
    case Null => "null"
    case Bool(b) => if b then "true" else "false"
    case Num(n) => IntToString(n)
    case NaN => "NaN"
    case Str(s) => s
    case Obj(_, _) => "[object Object]"
  }
}
