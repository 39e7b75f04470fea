/**
  Ordered maps, as the archive code walks them: keys are natural-number positions in
  some total order, and a walk visits them in increasing order.
 */
module Ordered {
  ghost predicate Increasing(s: seq<nat>) {
    forall i, j :: 0 <= i < j < |s| ==> s[i] < s[j]
  }

  predicate IsLeast(k: nat, keys: set<nat>) {
    k in keys && forall x :: x in keys ==> k <= x
  }

  lemma {:induction false} LeastExists(keys: set<nat>)
    requires keys != {}
    ensures exists k :: IsLeast(k, keys)
    decreases |keys|
  {
    var k :| k in keys;
    var rest := keys - {k};
    assert forall x :: x in keys ==> x == k || x in rest;
    if rest == {} {
      assert IsLeast(k, keys);
    } else {
      LeastExists(rest);
      var l :| IsLeast(l, rest);
      assert IsLeast(if l < k then l else k, keys);
    }
  }

  /** The key a walk visits first. */
  function Least(keys: set<nat>): (k: nat)
    requires keys != {}
    ensures IsLeast(k, keys)
  {
    LeastExists(keys);
    var k :| IsLeast(k, keys);
    k
  }

  /** The order in which a walk visits the keys. */
  function Ascending(keys: set<nat>): (s: seq<nat>)
    ensures Increasing(s) && |s| == |keys|
    ensures forall x :: x in s <==> x in keys
    decreases |keys|
  {
    if keys == {} then [] else [Least(keys)] + Ascending(keys - {Least(keys)})
  }

  /** A walk's order is the only increasing one over its keys. */
  lemma {:induction false} IncreasingIsUnique(s: seq<nat>, t: seq<nat>)
    requires Increasing(s) && Increasing(t) && forall x :: x in s <==> x in t
    ensures s == t
    decreases |s|
  {
    assert |t| > 0 ==> t[0] in s;
    assert |s| > 0 ==> s[0] in t;
    if s != [] {
      assert s[0] == t[0];
      forall x ensures x in s[1..] <==> x in t[1..] {
        if x in s[1..] { assert x in t && x != t[0]; }
        if x in t[1..] { assert x in s && x != s[0]; }
      }
      IncreasingIsUnique(s[1..], t[1..]);
      assert s == [s[0]] + s[1..] && t == [t[0]] + t[1..];
    }
  }

  /** Nothing lies between two neighbours of a walk. */
  lemma NoneBetween(s: seq<nat>, i: nat, x: nat)
    requires Increasing(s) && i < |s| && x in s
    ensures s[i] <= x || (i > 0 && x <= s[i - 1])
  {
    var j :| 0 <= j < |s| && s[j] == x;
    assert j < i - 1 ==> s[j] < s[i - 1];
  }

  lemma LastIsGreatest(s: seq<nat>, x: nat)
    requires Increasing(s) && x in s
    ensures x <= s[|s| - 1]
  {
  }

  /** What follows position `n` of a walk is what lies above it. */
  lemma TailIsAbove(s: seq<nat>, n: nat, x: nat)
    requires Increasing(s) && n < |s|
    ensures x in s[n + 1..] <==> x in s && x > s[n]
  {
    if x in s && x > s[n] {
      var i :| 0 <= i < |s| && s[i] == x;
      assert i > n;
      assert s[n + 1..][i - n - 1] == x;
    }
  }

  lemma ConsIncreasing(x: nat, s: seq<nat>)
    requires Increasing(s) && forall y :: y in s ==> x < y
    ensures Increasing([x] + s)
  {
    var t := [x] + s;
    forall i, j | 0 <= i < j < |t| ensures t[i] < t[j] {
      assert t[j] == s[j - 1] && s[j - 1] in s;
      assert i > 0 ==> t[i] == s[i - 1];
    }
  }

  lemma AscendingIsThe(s: seq<nat>, keys: set<nat>)
    requires Increasing(s) && forall x :: x in s <==> x in keys
    ensures Ascending(keys) == s
  {
    IncreasingIsUnique(s, Ascending(keys));
  }

  /** The numbers below `n`, as a walk and as a set. */
  function UpTo(n: nat): (s: seq<nat>)
    ensures |s| == n && (forall i :: 0 <= i < n ==> s[i] == i) && forall x: nat :: x in s <==> x < n
  {
    if n == 0 then [] else UpTo(n - 1) + [n - 1]
  }

  function Below(n: nat): (s: set<nat>)
    ensures |s| == n && forall x: nat :: x in s <==> x < n
  {
    if n == 0 then {} else Below(n - 1) + {n - 1}
  }

  /** The values of a map along some of its keys. */
  function ValuesAt<V>(m: map<nat, V>, keys: seq<nat>): (s: seq<V>)
    requires forall p :: p in keys ==> p in m
    ensures |s| == |keys|
    ensures forall i :: 0 <= i < |keys| ==> keys[i] in m && s[i] == m[keys[i]]
  {
    if keys == [] then [] else assert keys[0] in keys; [m[keys[0]]] + ValuesAt(m, keys[1..])
  }
}
