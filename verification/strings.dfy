/** The string primitives the flag converter relies on: `indexOf`, suffix tests,
    splitting a `name=value` pair at its first `=`, regular-expression escaping,
    splitting on a comma and the white space after it, and decimal digits. */
module Strings {
  import opened Wrappers

  /** `s.indexOf(c)` for a one-character search string: the first position of `c`, or -1. */
  function IndexOf(s: string, c: char): (r: int)
    ensures -1 <= r < |s|
    ensures r == -1 <==> c !in s
    ensures 0 <= r ==> s[r] == c && c !in s[..r]
  {
    if |s| == 0 then -1
    else if s[0] == c then 0
    else
      var k := IndexOf(s[1..], c);
      assert s == [s[0]] + s[1..];
      if k < 0 then -1
      else
        assert s[..k + 1] == [s[0]] + s[1..][..k];
        k + 1
  }

  predicate EndsWith(s: string, suffix: string) {
    |suffix| <= |s| && s[|s| - |suffix|..] == suffix
  }

  /** `sub` occurs in `s` at position `j`. */
  predicate OccursAt(s: string, sub: string, j: int) {
    0 <= j && j + |sub| <= |s| && s[j..j + |sub|] == sub
  }

  /** `s.indexOf(sub, from)`: the least position at or after `from` (clamped to `[0, |s|]`)
      where `sub` occurs, or -1 when it occurs nowhere from there on. */
  function IndexOfFrom(s: string, sub: string, from: int): (r: int)
    ensures r == -1 || OccursAt(s, sub, r)
    ensures 0 <= r ==> from <= r || from > |s|
    ensures r == -1 <==> forall j :: Clamp(from, |s|) <= j ==> !OccursAt(s, sub, j)
    ensures 0 <= r ==> forall j :: Clamp(from, |s|) <= j < r ==> !OccursAt(s, sub, j)
  {
    SearchFrom(s, sub, Clamp(from, |s|))
  }

  /** A start position clamped to `[0, n]`, as `indexOf` clamps it. */
  function Clamp(from: int, n: nat): (k: nat)
    ensures k <= n
    ensures 0 <= from <= n ==> k == from
    ensures from < 0 ==> k == 0
    ensures from > n ==> k == n
  {
    if from < 0 then 0 else if from > n then n else from
  }

  /** The least position at or after `k` where `sub` occurs, or -1 when there is none. */
  function SearchFrom(s: string, sub: string, k: nat): (r: int)
    requires k <= |s|
    ensures r == -1 || (k <= r && OccursAt(s, sub, r))
    ensures r == -1 <==> forall j :: k <= j ==> !OccursAt(s, sub, j)
    ensures 0 <= r ==> forall j :: k <= j < r ==> !OccursAt(s, sub, j)
    decreases |s| - k
  {
    if k + |sub| > |s| then -1
    else if s[k..k + |sub|] == sub then
      assert OccursAt(s, sub, k);
      k
    else SearchFrom(s, sub, k + 1)
  }

  /** The probe `path.indexOf(ext, path.length - ext.length) > -1` is exactly a suffix test. */
  lemma SuffixProbe(s: string, suffix: string)
    ensures IndexOfFrom(s, suffix, |s| - |suffix|) > -1 <==> EndsWith(s, suffix)
  {
    if EndsWith(s, suffix) {
      assert SearchFrom(s, suffix, |s| - |suffix|) == |s| - |suffix|;
    }
  }

  /** The two sides of a `name=value` value; `key` is None when there is no `=` at all. */
  datatype Pair = Pair(key: Option<string>, value: string)

  /** Splits at the FIRST `=`: the right-hand side keeps every later `=`. */
  function SplitPair(s: string): (p: Pair)
    ensures p.key.None? <==> '=' !in s
    ensures p.key.None? ==> p.value == s
    ensures p.key.Some? ==> '=' !in p.key.value && s == p.key.value + "=" + p.value
  {
    var i := IndexOf(s, '=');
    if i < 0 then Pair(None, s)
    else
      assert s == s[..i] + "=" + s[i + 1..];
      Pair(Some(s[..i]), s[i + 1..])
  }

  /** The first `c` of `a + [c] + b` is the one after `a` when `a` holds none. */
  lemma IndexOfAfter(a: string, c: char, b: string)
    requires c !in a
    ensures IndexOf(a + [c] + b, c) == |a|
  {
    assert (a + [c] + b)[|a|] == c;
  }

  /** Splitting a joined pair gives back its key and value, whatever `=` the value holds. */
  lemma {:induction false} SplitPairJoin(key: string, value: string)
    requires '=' !in key
    ensures SplitPair(key + "=" + value) == Pair(Some(key), value)
  {
    var s := key + "=" + value;
    IndexOfAfter(key, '=', value);
    assert s[..|key|] == key;
    assert s[|key| + 1..] == value;
  }

  /** The characters the module-bind handler escapes with a backslash. */
  predicate IsRegExpSpecial(c: char) {
    c in "-[]/{}()*+?.\\^$|"
  }

  /** A regular-expression source in which every special character is quoted by a backslash
      and nothing else is quoted. */
  predicate Quoted(r: string) {
    if |r| == 0 then true
    else if r[0] == '\\' then |r| >= 2 && IsRegExpSpecial(r[1]) && Quoted(r[2..])
    else !IsRegExpSpecial(r[0]) && Quoted(r[1..])
  }

  /** `name.replace(/[\-\[\]\/\{\}\(\)\*\+\?\.\\\^\$\|]/g, "\\$&")`. */
  function EscapeRegExp(s: string): (r: string)
    ensures Quoted(r)
    ensures UnescapeRegExp(r) == s
    ensures (forall i :: 0 <= i < |s| ==> !IsRegExpSpecial(s[i])) ==> r == s
  {
    if |s| == 0 then ""
    else
      var head := if IsRegExpSpecial(s[0]) then ['\\', s[0]] else [s[0]];
      var tail := EscapeRegExp(s[1..]);
      assert (head + tail)[|head|..] == tail;
      if IsRegExpSpecial(s[0]) then
        assert (head + tail)[0] == '\\' && (head + tail)[1] == s[0];
        assert (head + tail)[2..] == tail;
        head + tail
      else
        assert (head + tail)[0] == s[0] && (head + tail)[1..] == tail;
        assert s == [s[0]] + s[1..];
        head + tail
  }

  /** Reads a regular-expression source literally: a backslash quotes the character after it. */
  function UnescapeRegExp(r: string): string {
    if |r| == 0 then ""
    else if r[0] == '\\' && |r| >= 2 then [r[1]] + UnescapeRegExp(r[2..])
    else [r[0]] + UnescapeRegExp(r[1..])
  }

  /** `\s` of a JavaScript regular expression (WhiteSpace and LineTerminator). */
  predicate IsSpace(c: char) {
    c in {' ', '\t', '\n', '\r', '\U{B}', '\U{C}', '\U{A0}', '\U{1680}', '\U{2000}', '\U{2001}',
          '\U{2002}', '\U{2003}', '\U{2004}', '\U{2005}', '\U{2006}', '\U{2007}', '\U{2008}',
          '\U{2009}', '\U{200A}', '\U{2028}', '\U{2029}', '\U{202F}', '\U{205F}', '\U{3000}',
          '\U{FEFF}'}
  }

  /** `s` without its leading white space. */
  function TrimStart(s: string): (r: string)
    ensures |r| <= |s| && r == s[|s| - |r|..]
    ensures forall i :: 0 <= i < |s| - |r| ==> IsSpace(s[i])
    ensures |r| == 0 || !IsSpace(r[0])
  {
    if |s| == 0 || !IsSpace(s[0]) then s else TrimStart(s[1..])
  }

  /** `s` without its trailing white space. */
  function TrimEnd(s: string): (r: string)
    ensures |r| <= |s| && r == s[..|r|]
    ensures forall i :: |r| <= i < |s| ==> IsSpace(s[i])
    ensures |r| == 0 || !IsSpace(r[|r| - 1])
  {
    if |s| == 0 || !IsSpace(s[|s| - 1]) then s else TrimEnd(s[..|s| - 1])
  }

  lemma TrimStartOfSpaces(ws: string, t: string)
    requires forall i :: 0 <= i < |ws| ==> IsSpace(ws[i])
    requires |t| == 0 || !IsSpace(t[0])
    ensures TrimStart(ws + t) == t
  {
    if |ws| > 0 {
      assert (ws + t)[1..] == ws[1..] + t;
      TrimStartOfSpaces(ws[1..], t);
    }
  }

  /** `value.split` on the pattern comma-then-white-space: cut at every comma, dropping the
      white space that follows it. */
  function SplitExtensions(s: string): (r: seq<string>)
    ensures |r| >= 1
    ensures forall i :: 0 <= i < |r| ==> ',' !in r[i]
    ensures ',' !in s ==> r == [s]
    decreases |s|
  {
    var i := IndexOf(s, ',');
    if i < 0 then [s] else [s[..i]] + SplitExtensions(TrimStart(s[i + 1..]))
  }

  function Join(xs: seq<string>, sep: string): string {
    if |xs| == 0 then ""
    else if |xs| == 1 then xs[0]
    else xs[0] + sep + Join(xs[1..], sep)
  }

  lemma JoinStart(xs: seq<string>, ws: string)
    requires |xs| >= 1
    requires |xs[0]| == 0 || !IsSpace(xs[0][0])
    ensures var j := Join(xs, "," + ws); |j| == 0 || !IsSpace(j[0])
  {
    if |xs| > 1 && |xs[0]| == 0 {
      assert Join(xs, "," + ws)[0] == ',';
    } else if |xs| > 1 {
      assert Join(xs, "," + ws)[0] == xs[0][0];
    }
  }

  /** Splitting a join of two or more pieces: the first piece comes off whole. */
  lemma SplitJoinStep(xs: seq<string>, ws: string)
    requires |xs| > 1 && ',' !in xs[0]
    ensures SplitExtensions(Join(xs, "," + ws))
         == [xs[0]] + SplitExtensions(TrimStart(ws + Join(xs[1..], "," + ws)))
  {
    var rest := Join(xs[1..], "," + ws);
    var s := xs[0] + [','] + (ws + rest);
    assert Join(xs, "," + ws) == s;
    IndexOfAfter(xs[0], ',', ws + rest);
    assert s[..|xs[0]|] == xs[0];
    assert s[|xs[0]| + 1..] == ws + rest;
  }

  /** Concatenation regrouped. */
  lemma ConcatAssoc<T>(a: seq<T>, b: seq<T>, c: seq<T>)
    ensures a + (b + c) == (a + b) + c
  {
  }

  lemma HeadTail<T>(xs: seq<T>)
    requires |xs| >= 1
    ensures [xs[0]] + xs[1..] == xs
  {
  }

  /** Joining comma-free pieces with `,` and any white space, then splitting, gives the pieces back. */
  lemma {:induction false} SplitJoinExtensions(xs: seq<string>, ws: string)
    requires |xs| >= 1
    requires forall i :: 0 <= i < |xs| ==> ',' !in xs[i]
    requires forall i :: 1 <= i < |xs| ==> |xs[i]| == 0 || !IsSpace(xs[i][0])
    requires forall i :: 0 <= i < |ws| ==> IsSpace(ws[i])
    ensures SplitExtensions(Join(xs, "," + ws)) == xs
    decreases |xs|
  {
    if |xs| > 1 {
      var tail := xs[1..];
      var rest := Join(tail, "," + ws);
      assert forall i :: 0 <= i < |tail| ==> ',' !in tail[i];
      assert forall i :: 1 <= i < |tail| ==> |tail[i]| == 0 || !IsSpace(tail[i][0]);
      SplitJoinExtensions(tail, ws);
      SplitJoinStep(xs, ws);
      JoinStart(tail, ws);
      TrimStartOfSpaces(ws, rest);
      HeadTail(xs);
    }
  }

  predicate IsDigit(c: char) {
    '0' <= c <= '9'
  }

  predicate AllDigits(s: string) {
    forall i :: 0 <= i < |s| ==> IsDigit(s[i])
  }

  function DigitValue(c: char): nat
    requires IsDigit(c)
  {
    (c as int) - ('0' as int)
  }

  /** The number a decimal digit string denotes. */
  function DigitsValue(s: string): nat
    requires AllDigits(s)
  {
    if |s| == 0 then 0 else 10 * DigitsValue(s[..|s| - 1]) + DigitValue(s[|s| - 1])
  }

  /** The decimal representation of `n`, which reads back as `n`. */
  function NatToString(n: nat): (r: string)
    ensures |r| >= 1 && AllDigits(r)
    ensures DigitsValue(r) == n
  {
    var d := [(('0' as int) + n % 10) as char];
    if n < 10 then d
    else
      var front := NatToString(n / 10);
      assert (front + d)[..|front|] == front;
      front + d
  }

  function IntToString(i: int): string {
    if i < 0 then "-" + NatToString(-i) else NatToString(i)
  }

  /** The longest prefix of `s` made of decimal digits. */
  function DigitPrefix(s: string): (r: string)
    ensures |r| <= |s| && r == s[..|r|] && AllDigits(r)
    ensures |r| == |s| || !IsDigit(s[|r|])
  {
    if |s| == 0 || !IsDigit(s[0]) then ""
    else
      var rest := DigitPrefix(s[1..]);
      assert ([s[0]] + rest) == s[..|rest| + 1];
      [s[0]] + rest
  }

  lemma {:induction false} DigitPrefixOfDigits(d: string, rest: string)
    requires AllDigits(d)
    requires |rest| == 0 || !IsDigit(rest[0])
    ensures DigitPrefix(d + rest) == d
    decreases |d|
  {
    if |d| > 0 {
      assert (d + rest)[1..] == d[1..] + rest;
      DigitPrefixOfDigits(d[1..], rest);
      HeadTail(d);
    }
  }
}
