/** Sequence operations several components share. */
module Sequences {
  /** The last `k` entries, or all of them if there are fewer. */
  function LastK<T>(k: nat, s: seq<T>): seq<T> {
    if |s| <= k then s else s[|s| - k..]
  }

  /** It is the end of the sequence, and as long as it may be. */
  lemma LastKIs<T>(k: nat, s: seq<T>)
    ensures |LastK(k, s)| == if |s| < k then |s| else k
    ensures LastK(k, s) == s[|s| - |LastK(k, s)|..]
  {
    assert s[0..] == s;
  }

  lemma LastOfSuffix<T>(k: nat, s: seq<T>, first: nat)
    requires first == 0 || first + k <= |s|
    ensures LastK(k, s[first..]) == LastK(k, s)
  {
    if first == 0 {
      assert s[0..] == s;
    } else {
      assert s == s[..first] + s[first..];
    }
  }

  lemma SameAddition<T>(s: seq<T>, a: seq<T>, b: seq<T>)
    ensures s + a == s + b <==> a == b
  {
    assert (s + a)[|s|..] == a && (s + b)[|s|..] == b;
  }

  lemma Associate<T>(a: seq<T>, b: seq<T>, c: seq<T>)
    ensures a + (b + c) == (a + b) + c
  {}

  /** At most one entry is added, in place of `t`: that is adding `r` iff `t` was nothing. */
  lemma OneAdded<T>(s: seq<T>, t: seq<T>, x: seq<T>, r: T)
    requires |x| <= 1
    ensures s + x == s + t + [r] <==> t == [] && x == [r]
  {
    Associate(s, t, [r]);
    SameAddition(s, x, t + [r]);
    if x == t + [r] {
      assert |t| == 0;
    }
  }

  /** Two sums with no part longer than its counterpart are equal only part by part. */
  lemma LongerByParts<T>(a: seq<T>, b: seq<T>, c: seq<T>, d: seq<T>)
    requires |a| <= |c| && |b| <= |d|
    ensures a + b == c + d ==> a == c && b == d
  {
    if a + b == c + d {
      assert a == (a + b)[..|a|] && b == (a + b)[|a|..];
      assert c == (c + d)[..|c|] && d == (c + d)[|c|..];
    }
  }

  /** The parts one after another. */
  function Flatten<T>(parts: seq<seq<T>>): seq<T> {
    if parts == [] then [] else Flatten(parts[..|parts| - 1]) + parts[|parts| - 1]
  }

  lemma FlattenOne<T>(p: seq<T>)
    ensures Flatten([p]) == p
  {
    assert [p][..0] == [] && [] + p == p;
  }

  lemma FlattenOneMore<T>(parts: seq<seq<T>>, p: seq<T>)
    ensures Flatten(parts + [p]) == Flatten(parts) + p
  {
    assert (parts + [p])[..|parts|] == parts;
  }

  /** Sums that grow part by part are those of the parts. */
  lemma {:induction false} FlattenOfSums<T>(sums: seq<seq<T>>, parts: seq<seq<T>>, n: nat)
    requires n <= |parts| && |sums| == |parts| + 1 && sums[0] == []
    requires forall i :: 0 <= i < |parts| ==> sums[i + 1] == sums[i] + parts[i]
    ensures sums[n] == Flatten(parts[..n])
  {
    if n > 0 {
      FlattenOfSums(sums, parts, n - 1);
      assert parts[..n] == parts[..n - 1] + [parts[n - 1]];
      FlattenOneMore(parts[..n - 1], parts[n - 1]);
      assert sums[n - 1 + 1] == sums[n - 1] + parts[n - 1];
    }
  }

  /** How many of the first `n` parts are not empty. */
  function FullBefore<T>(parts: seq<seq<T>>, n: nat): nat
    requires n <= |parts|
  {
    if n == 0 then 0 else FullBefore(parts, n - 1) + if parts[n - 1] == [] then 0 else 1
  }

  lemma {:induction false} FlattenCount<T>(parts: seq<seq<T>>, n: nat)
    requires n <= |parts| && forall i :: 0 <= i < |parts| ==> |parts[i]| <= 1
    ensures |Flatten(parts[..n])| == FullBefore(parts, n)
  {
    if n > 0 {
      FlattenCount(parts, n - 1);
      assert parts[..n][..n - 1] == parts[..n - 1];
    }
  }

  /** Where the entry of a part stands in all. */
  lemma {:induction false} FlattenAt<T>(parts: seq<seq<T>>, n: nat, p: nat)
    requires p < n <= |parts| && (forall i :: 0 <= i < |parts| ==> |parts[i]| <= 1) && parts[p] != []
    ensures FullBefore(parts, p) < |Flatten(parts[..n])| && Flatten(parts[..n])[FullBefore(parts, p)] == parts[p][0]
    decreases n
  {
    assert parts[..n][..n - 1] == parts[..n - 1];
    if p < n - 1 {
      FlattenAt(parts, n - 1, p);
    } else {
      FlattenCount(parts, p);
    }
  }

  lemma {:induction false} FullAscends<T>(parts: seq<seq<T>>, p: nat, q: nat)
    requires p < q <= |parts| && parts[p] != []
    ensures FullBefore(parts, p) < FullBefore(parts, q)
    decreases q
  {
    if p < q - 1 {
      FullAscends(parts, p, q - 1);
    }
  }

  /** The entries of which `p` holds, in order. */
  function Filter<T>(s: seq<T>, p: T -> bool): (r: seq<T>)
    ensures |r| <= |s|
  {
    if s == [] then []
    else
      var last := s[|s| - 1];
      Filter(s[..|s| - 1], p) + if p(last) then [last] else []
  }

  lemma {:induction false} FilterOfParts<T>(a: seq<T>, b: seq<T>, p: T -> bool)
    ensures Filter(a + b, p) == Filter(a, p) + Filter(b, p)
  {
    if b == [] {
      assert a + b == a;
    } else {
      FilterOfParts(a, b[..|b| - 1], p);
      assert (a + b)[..|a + b| - 1] == a + b[..|b| - 1];
    }
  }

  lemma {:induction false} FilterNone<T>(s: seq<T>, p: T -> bool)
    requires forall x :: x in s ==> !p(x)
    ensures Filter(s, p) == []
  {
    if s != [] {
      FilterNone(s[..|s| - 1], p);
    }
  }

  lemma FilterOne<T>(x: T, p: T -> bool)
    ensures Filter([x], p) == if p(x) then [x] else []
  {
    assert [x][..0] == [];
  }

  lemma IndexOfSum<T>(s: seq<T>, t: seq<T>, n: nat)
    ensures n < |s| ==> (s + t)[n] == s[n]
    ensures |s| <= n < |s| + |t| ==> (s + t)[n] == t[n - |s|]
  {}

  // ----- Selections ------------------------------------------------------------------------

  ghost predicate Ascending(s: seq<nat>) {
    forall j, k :: 0 <= j < k < |s| ==> s[j] < s[k]
  }

  /** `out` is the entries of `source` from `from` on whose positions are in `keep`, in order: they come
      from the positions `at`. */
  ghost predicate Picks<T>(source: seq<T>, from: nat, keep: set<nat>, out: seq<T>, at: seq<nat>) {
    |at| == |out| && Ascending(at) &&
    (forall k :: 0 <= k < |at| ==> from <= at[k] < |source| && out[k] == source[at[k]]) &&
    forall c :: from <= c < |source| ==> (c in at <==> c in keep)
  }

  lemma PicksNothing<T>(source: seq<T>, from: nat, keep: set<nat>)
    requires from >= |source|
    ensures Picks(source, from, keep, [], [])
  {}

  lemma PicksPast<T>(source: seq<T>, from: nat, keep: set<nat>, out: seq<T>, at: seq<nat>)
    requires Picks(source, from + 1, keep, out, at) && from !in keep
    ensures Picks(source, from, keep, out, at)
  {
    assert from !in at;
  }

  lemma PicksOneMore<T>(source: seq<T>, from: nat, keep: set<nat>, out: seq<T>, at: seq<nat>)
    requires from < |source| && Picks(source, from + 1, keep, out, at) && from in keep
    ensures Picks(source, from, keep, [source[from]] + out, [from] + at)
  {
    var more, where := [source[from]] + out, [from] + at;
    forall j, k | 0 <= j < k < |where| ensures where[j] < where[k] {
      assert where[k] == at[k - 1] && (j > 0 ==> where[j] == at[j - 1]);
    }
    forall k | 0 <= k < |where| ensures from <= where[k] < |source| && more[k] == source[where[k]] {
      assert k > 0 ==> where[k] == at[k - 1] && more[k] == out[k - 1];
    }
    forall c | from <= c < |source| ensures c in where <==> c in keep {
      assert c in where <==> c == from || c in at;
    }
  }

  lemma AscendingEnd(s: seq<nat>, x: nat)
    requires Ascending(s) && forall y :: y in s ==> y < x
    ensures Ascending(s + [x])
  {
    var more := s + [x];
    forall j, k | 0 <= j < k < |more| ensures more[j] < more[k] {
      assert more[j] == s[j] && s[j] in s;
    }
  }

  /** Where the entries of parts of at most one entry come from. */
  lemma {:induction false} FlattenSelects<T>(parts: seq<seq<T>>, n: nat) returns (at: seq<nat>)
    requires n <= |parts| && forall i :: 0 <= i < |parts| ==> |parts[i]| <= 1
    ensures |at| == |Flatten(parts[..n])| && Ascending(at)
    ensures forall i :: i in at <==> 0 <= i < n && parts[i] != []
    ensures forall k :: 0 <= k < |at| ==> at[k] < n && parts[at[k]] != [] && Flatten(parts[..n])[k] == parts[at[k]][0]
  {
    at := [];
    if n > 0 {
      at := FlattenSelects(parts, n - 1);
      assert parts[..n][..n - 1] == parts[..n - 1];
      if parts[n - 1] != [] {
        AscendingEnd(at, n - 1);
        at := at + [n - 1];
      }
    }
  }
}
