/** The order in which config file extensions are tried: the keys of `interpret.extensions`
    sorted with the comparator "`.js` first, then shorter before longer". The sort is stable,
    so extensions of equal length keep their registration order. */
module ExtensionOrder {
  import opened Strings

  /** Lengths never decrease along the list. */
  predicate ByLength(xs: seq<string>) {
    forall i, j :: 0 <= i < j < |xs| ==> |xs[i]| <= |xs[j]|
  }

  /** The elements of length `n`, in order. */
  function OfLength(xs: seq<string>, n: nat): (r: seq<string>)
    ensures |r| <= |xs|
  {
    if |xs| == 0 then []
    else OfLength(xs[..|xs| - 1], n) + (if |xs[|xs| - 1]| == n then [xs[|xs| - 1]] else [])
  }

  /** The elements other than `.js`, in order. */
  function Others(xs: seq<string>): (r: seq<string>)
    ensures forall i :: 0 <= i < |r| ==> r[i] != ".js"
  {
    if |xs| == 0 then []
    else Others(xs[..|xs| - 1]) + (if xs[|xs| - 1] == ".js" then [] else [xs[|xs| - 1]])
  }

  /** `x` placed after every element no longer than it. */
  function Insert(x: string, s: seq<string>): (r: seq<string>)
    ensures multiset(r) == multiset(s) + multiset{x}
  {
    if |s| == 0 then [x]
    else if |x| < |s[0]| then [x] + s
    else
      assert s == [s[0]] + s[1..];
      [s[0]] + Insert(x, s[1..])
  }

  /** Inserting into a list sorted by length keeps it sorted. */
  lemma {:induction false} InsertSorted(x: string, s: seq<string>)
    requires ByLength(s)
    ensures ByLength(Insert(x, s))
    decreases |s|
  {
    if |s| > 0 {
      if |x| < |s[0]| {
        assert forall i :: 0 <= i < |s| ==> |s[0]| <= |s[i]|;
        ConsSorted(x, s);
      } else {
        var rest := s[1..];
        assert ByLength(rest);
        InsertSorted(x, rest);
        InsertKeepsBound(x, rest, |s[0]|);
        ConsSorted(s[0], Insert(x, rest));
      }
    }
  }

  /** A sorted list stays sorted with an element no longer than any of its own in front. */
  lemma ConsSorted(h: string, t: seq<string>)
    requires ByLength(t) && forall i :: 0 <= i < |t| ==> |h| <= |t[i]|
    ensures ByLength([h] + t)
  {
    var r := [h] + t;
    forall i, j | 0 <= i < j < |r| ensures |r[i]| <= |r[j]| {
      assert r[j] == t[j - 1];
      if i > 0 {
        assert r[i] == t[i - 1];
      }
    }
  }

  /** Inserting an element at least `b` long into a list whose elements are all at least `b`
      long gives such a list. */
  lemma {:induction false} InsertKeepsBound(x: string, s: seq<string>, b: nat)
    requires |x| >= b && forall i :: 0 <= i < |s| ==> |s[i]| >= b
    ensures forall i :: 0 <= i < |Insert(x, s)| ==> |Insert(x, s)[i]| >= b
    decreases |s|
  {
    if |s| > 0 && |x| >= |s[0]| {
      var rest := Insert(x, s[1..]);
      InsertKeepsBound(x, s[1..], b);
      assert Insert(x, s) == [s[0]] + rest;
    }
  }

  /** Stable insertion sort by length. */
  function SortByLength(xs: seq<string>): (r: seq<string>)
    ensures multiset(r) == multiset(xs)
    ensures ByLength(r)
  {
    if |xs| == 0 then []
    else
      var front := xs[..|xs| - 1];
      assert xs == front + [xs[|xs| - 1]];
      InsertSorted(xs[|xs| - 1], SortByLength(front));
      Insert(xs[|xs| - 1], SortByLength(front))
  }

  /** Inserting `x` into a sorted list appends it to the run of its own length. */
  lemma {:induction false} InsertOfLength(x: string, s: seq<string>, n: nat)
    requires ByLength(s)
    ensures OfLength(Insert(x, s), n) == OfLength(s, n) + (if |x| == n then [x] else [])
    decreases |s|
  {
    if |s| == 0 {
      assert OfLength([x], n) == OfLength([], n) + (if |x| == n then [x] else []);
    } else if |x| < |s[0]| {
      InsertFrontOfLength(x, s, n);
    } else {
      var rest := s[1..];
      var tail := if |x| == n then [x] else [];
      assert s == [s[0]] + rest;
      assert ByLength(rest);
      assert Insert(x, s) == [s[0]] + Insert(x, rest);
      InsertOfLength(x, rest, n);
      PrependOfLength(s[0], Insert(x, rest), n);
      PrependOfLength(s[0], rest, n);
      var head := if |s[0]| == n then [s[0]] else [];
      ConcatAssoc(head, OfLength(rest, n), tail);
    }
  }

  /** The case where `x` goes in front: every element of `s` is longer than `x`. */
  lemma InsertFrontOfLength(x: string, s: seq<string>, n: nat)
    requires ByLength(s) && |s| > 0 && |x| < |s[0]|
    ensures OfLength(Insert(x, s), n) == OfLength(s, n) + (if |x| == n then [x] else [])
  {
    assert Insert(x, s) == [x] + s;
    PrependOfLength(x, s, n);
    if |x| == n {
      assert forall i :: 0 <= i < |s| ==> |s[i]| > n by {
        assert forall i :: 0 <= i < |s| ==> |s[0]| <= |s[i]|;
      }
      OfLengthAbove(s, n);
    }
  }

  /** The run of length `n` of a list whose every element is longer than `n` is empty. */
  lemma {:induction false} OfLengthAbove(s: seq<string>, n: nat)
    requires forall i :: 0 <= i < |s| ==> |s[i]| > n
    ensures OfLength(s, n) == []
    decreases |s|
  {
    if |s| > 0 {
      OfLengthAbove(s[..|s| - 1], n);
    }
  }

  /** A list's run of length `n` after putting `y` in front. */
  lemma {:induction false} PrependOfLength(y: string, s: seq<string>, n: nat)
    ensures OfLength([y] + s, n) == (if |y| == n then [y] else []) + OfLength(s, n)
    decreases |s|
  {
    if |s| == 0 {
      assert [y] + s == [y];
      assert OfLength([y], n) == OfLength([], n) + (if |y| == n then [y] else []);
    } else {
      var t := [y] + s;
      assert t[..|t| - 1] == [y] + s[..|s| - 1];
      PrependOfLength(y, s[..|s| - 1], n);
    }
  }

  /** The sort is stable: the elements of any one length keep their order. */
  lemma {:induction false} SortIsStable(xs: seq<string>, n: nat)
    ensures OfLength(SortByLength(xs), n) == OfLength(xs, n)
    decreases |xs|
  {
    if |xs| > 0 {
      var front := xs[..|xs| - 1];
      SortIsStable(front, n);
      InsertOfLength(xs[|xs| - 1], SortByLength(front), n);
    }
  }

  /** `Object.keys(interpret.extensions).sort(...)`: `.js` first, then the rest by length. */
  function SortExtensions(keys: seq<string>): (r: seq<string>)
    ensures ".js" in keys ==> |r| > 0 && r[0] == ".js"
    ensures ".js" in keys ==> ByLength(r[1..])
    ensures ".js" !in keys ==> ByLength(r)
  {
    OthersDropJs(keys);
    if ".js" in keys then [".js"] + SortByLength(Others(keys)) else SortByLength(Others(keys))
  }

  /** Without `.js`, nothing is dropped. */
  lemma {:induction false} OthersDropJs(xs: seq<string>)
    ensures ".js" !in xs ==> Others(xs) == xs
    ensures multiset(Others(xs)) == multiset(xs)[".js" := 0]
    decreases |xs|
  {
    if |xs| > 0 {
      var front := xs[..|xs| - 1];
      assert xs == front + [xs[|xs| - 1]];
      OthersDropJs(front);
    }
  }

  /** For keys that hold `.js` once, the sort is a permutation. */
  lemma SortExtensionsPermutes(keys: seq<string>)
    requires multiset(keys)[".js"] <= 1
    ensures multiset(SortExtensions(keys)) == multiset(keys)
  {
    OthersDropJs(keys);
    var sorted := SortByLength(Others(keys));
    var m := multiset(keys);
    assert multiset(sorted) == m[".js" := 0];
    if ".js" in keys {
      assert SortExtensions(keys) == [".js"] + sorted;
      assert multiset([".js"] + sorted) == multiset{".js"} + multiset(sorted);
      assert m == m[".js" := 0] + multiset{".js"};
    } else {
      assert SortExtensions(keys) == sorted;
      assert m[".js" := 0] == m;
    }
  }

  /** Extensions of the same length keep the order they were registered in. */
  lemma SortExtensionsStable(keys: seq<string>, n: nat)
    ensures OfLength(SortExtensions(keys), n) == OfLength(if ".js" in keys then [".js"] + Others(keys) else Others(keys), n)
  {
    SortIsStable(Others(keys), n);
    if ".js" in keys {
      PrependOfLength(".js", SortByLength(Others(keys)), n);
      PrependOfLength(".js", Others(keys), n);
    }
  }
}
