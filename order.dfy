/**
 * The order `List<string>.Sort()` keeps the path list in, taken ordinally:
 * lexicographic by character code. `Sort` is a reference sort with the two
 * properties that determine its result: sorted, and a permutation.
 */
module Order {

  /** `a` comes no later than `b` in ordinal lexicographic order. */
  predicate LessEq(a: string, b: string)
    decreases |a|
  {
    |a| == 0 || (|b| > 0 && (a[0] < b[0] || (a[0] == b[0] && LessEq(a[1..], b[1..]))))
  }

  lemma {:induction false} LessEqTotal(a: string, b: string)
    ensures LessEq(a, b) || LessEq(b, a)
    decreases |a|
  {
    if |a| > 0 && |b| > 0 && a[0] == b[0] {
      LessEqTotal(a[1..], b[1..]);
    }
  }

  lemma {:induction false} LessEqTransitive(a: string, b: string, c: string)
    requires LessEq(a, b) && LessEq(b, c)
    ensures LessEq(a, c)
    decreases |a|
  {
    if |a| > 0 && a[0] == b[0] && b[0] == c[0] {
      LessEqTransitive(a[1..], b[1..], c[1..]);
    }
  }

  lemma {:induction false} LessEqAntisymmetric(a: string, b: string)
    requires LessEq(a, b) && LessEq(b, a)
    ensures a == b
    decreases |a|
  {
    if |a| > 0 {
      LessEqAntisymmetric(a[1..], b[1..]);
      assert a == [a[0]] + a[1..] && b == [b[0]] + b[1..];
    }
  }

  predicate Sorted(s: seq<string>) {
    forall i, j :: 0 <= i < j < |s| ==> LessEq(s[i], s[j])
  }

  /** `x` placed into the sorted `s` before the first element it does not follow. */
  function Insert(x: string, s: seq<string>): (r: seq<string>)
    requires Sorted(s)
    ensures Sorted(r)
    ensures multiset(r) == multiset(s) + multiset{x}
    ensures |r| == |s| + 1 && (r[0] == x || (|s| > 0 && r[0] == s[0]))
  {
    if s == [] || LessEq(x, s[0]) then
      BelowAll(x, s);
      [x] + s
    else
      LessEqTotal(x, s[0]);
      var t := Insert(x, s[1..]);
      assert s == [s[0]] + s[1..];
      BelowInserted(x, s, t);
      SortedCons(s[0], t);
      [s[0]] + t
  }

  /** An element that precedes all of a sorted sequence can be put in front of it. */
  lemma SortedCons(h: string, t: seq<string>)
    requires Sorted(t) && forall j :: 0 <= j < |t| ==> LessEq(h, t[j])
    ensures Sorted([h] + t)
  {
  }

  /** What does not follow the head of a sorted sequence precedes all of it. */
  lemma BelowAll(x: string, s: seq<string>)
    requires Sorted(s) && (s == [] || LessEq(x, s[0]))
    ensures forall j :: 0 <= j < |s| ==> LessEq(x, s[j])
  {
    forall j | 0 < j < |s| ensures LessEq(x, s[j]) {
      LessEqTransitive(x, s[0], s[j]);
    }
  }

  /** The head of a sorted sequence precedes whatever a following element is inserted into its tail. */
  lemma BelowInserted(x: string, s: seq<string>, t: seq<string>)
    requires Sorted(s) && |s| > 0 && LessEq(s[0], x)
    requires multiset(t) == multiset(s[1..]) + multiset{x}
    ensures forall j :: 0 <= j < |t| ==> LessEq(s[0], t[j])
  {
    forall j | 0 <= j < |t| ensures LessEq(s[0], t[j]) {
      assert t[j] in multiset(t);
      if t[j] != x {
        assert t[j] in multiset(s[1..]);
        var k :| 0 <= k < |s[1..]| && s[1..][k] == t[j];
        assert s[k + 1] == t[j];
      }
    }
  }

  /** `List.Sort()`, modelled as insertion sort. */
  function Sort(s: seq<string>): (r: seq<string>)
    ensures Sorted(r)
    ensures multiset(r) == multiset(s)
  {
    if s == [] then []
    else
      assert s == [s[0]] + s[1..];
      Insert(s[0], Sort(s[1..]))
  }

  /** `e` lists, in increasing order, positions of `s` that spell out `t`. */
  predicate Embeds<T(==)>(e: seq<int>, t: seq<T>, s: seq<T>) {
    && |e| == |t|
    && (forall k :: 0 <= k < |e| ==> 0 <= e[k] < |s| && s[e[k]] == t[k])
    && (forall k, l :: 0 <= k < l < |e| ==> e[k] < e[l])
  }

  /** `t` is a subsequence of `s`: its elements occur in `s` in order, not necessarily together. */
  ghost predicate IsSubsequence<T>(t: seq<T>, s: seq<T>) {
    exists e :: Embeds(e, t, s)
  }

  /** Appending to `s` keeps a subsequence one, and appending to both extends it. */
  lemma {:induction false} SubsequenceExtend<T>(t: seq<T>, s: seq<T>, x: T)
    requires IsSubsequence(t, s)
    ensures IsSubsequence(t, s + [x])
    ensures IsSubsequence(t + [x], s + [x])
  {
    var e :| Embeds(e, t, s);
    assert Embeds(e, t, s + [x]);
    assert Embeds(e + [|s|], t + [x], s + [x]);
  }

  /** Every subsequence of a sorted sequence (what removals leave) is sorted. */
  lemma {:induction false} SubsequenceKeepsSorted(t: seq<string>, s: seq<string>)
    requires Sorted(s) && IsSubsequence(t, s)
    ensures Sorted(t)
  {
    var e :| Embeds(e, t, s);
  }
}
