/**
  Order-preserving filtering of sequences, the `Array.prototype.filter` that the
  table of contents and the repository statistics both rely on, together with the
  facts about it that those modules use.
 */
module Seqs {
  import opened Wrappers

  /** The elements of `s` that satisfy `p`, in their original order. */
  function Filter<T>(s: seq<T>, p: T -> bool): (r: seq<T>)
    ensures |r| <= |s|
    ensures forall i :: 0 <= i < |r| ==> r[i] in s && p(r[i])
    ensures forall i :: 0 <= i < |s| && p(s[i]) ==> s[i] in r
    decreases |s|
  {
    if |s| == 0 then []
    else (if p(s[0]) then [s[0]] else []) + Filter(s[1..], p)
  }

  /** The filter keeps every qualifying element as often as it occurs in `s`,
      and nothing else. */
  lemma {:induction false} FilterMultiset<T>(s: seq<T>, p: T -> bool)
    ensures forall x :: multiset(Filter(s, p))[x] == if p(x) then multiset(s)[x] else 0
    decreases |s|
  {
    if |s| > 0 {
      FilterMultiset(s[1..], p);
      assert s == [s[0]] + s[1..];
    }
  }

  /** The positions of `s` whose element satisfies `p`. */
  function IndicesWhere<T>(s: seq<T>, p: T -> bool): set<int> {
    set i | 0 <= i < |s| && p(s[i])
  }

  /** Appending one element adds its position when it qualifies. */
  lemma IndicesSnoc<T>(a: seq<T>, x: T, p: T -> bool)
    ensures IndicesWhere(a + [x], p) == IndicesWhere(a, p) + (if p(x) then {|a|} else {})
    ensures |a| !in IndicesWhere(a, p)
  {
    var s := a + [x];
    forall i | 0 <= i < |a| ensures s[i] == a[i] { }
  }

  /** The filter keeps one element per qualifying position: its length is the
      number of positions whose element satisfies `p`. */
  lemma {:induction false} FilterCount<T>(s: seq<T>, p: T -> bool)
    ensures |Filter(s, p)| == |IndicesWhere(s, p)|
    decreases |s|
  {
    if |s| == 0 {
      assert IndicesWhere(s, p) == {};
    } else {
      var n := |s| - 1;
      var a := s[..n];
      var x := s[n];
      assert s == a + [x];
      FilterAppend(a, [x], p);
      assert [x][1..] == [];
      FilterCount(a, p);
      IndicesSnoc(a, x, p);
    }
  }

  /** `k` is the position of the last element of `s` that satisfies `p`. */
  predicate IsLastWhere<T>(s: seq<T>, p: T -> bool, k: int) {
    && 0 <= k < |s|
    && p(s[k])
    && forall j :: k < j < |s| ==> !p(s[j])
  }

  /** The position of the last element of `s` that satisfies `p`, if any,
      found by scanning from the end. */
  function LastWhere<T>(s: seq<T>, p: T -> bool): (r: Option<nat>)
    ensures r.None? <==> forall i :: 0 <= i < |s| ==> !p(s[i])
    ensures r.Some? ==> IsLastWhere(s, p, r.value)
    decreases |s|
  {
    if |s| == 0 then None
    else if p(s[|s| - 1]) then Some(|s| - 1)
    else
      var r := LastWhere(s[..|s| - 1], p);
      assert forall j :: 0 <= j < |s| - 1 ==> s[..|s| - 1][j] == s[j];
      r
  }

  /** There is only one last qualifying position. */
  lemma LastWhereUnique<T>(s: seq<T>, p: T -> bool, k: int)
    requires IsLastWhere(s, p, k)
    ensures LastWhere(s, p) == Some(k)
  {
  }

  /** The filtered sequence is non-empty exactly when some element qualifies,
      and its last element is the last qualifying element of `s`. */
  lemma {:induction false} FilterLast<T>(s: seq<T>, p: T -> bool)
    ensures |Filter(s, p)| > 0 <==> LastWhere(s, p).Some?
    ensures |Filter(s, p)| > 0 ==> Filter(s, p)[|Filter(s, p)| - 1] == s[LastWhere(s, p).value]
    decreases |s|
  {
    if |s| == 0 {
    } else {
      var n := |s| - 1;
      var a := s[..n];
      var x := s[n];
      assert s == a + [x];
      FilterAppend(a, [x], p);
      assert [x][1..] == [];
      if !p(x) {
        FilterLast(a, p);
        if |Filter(a, p)| > 0 {
          var k := LastWhere(a, p).value;
          assert a[k] == s[k];
        }
      }
    }
  }

  /** When no element satisfies both `p` and `q`, the two filters together are
      no longer than `s`. */
  lemma {:induction false} FilterDisjoint<T>(s: seq<T>, p: T -> bool, q: T -> bool)
    requires forall i :: 0 <= i < |s| ==> !(p(s[i]) && q(s[i]))
    ensures |Filter(s, p)| + |Filter(s, q)| <= |s|
    decreases |s|
  {
    if |s| > 0 {
      assert forall i :: 0 <= i < |s[1..]| ==> !(p(s[1..][i]) && q(s[1..][i])) by {
        forall i | 0 <= i < |s[1..]| ensures !(p(s[1..][i]) && q(s[1..][i])) {
          assert s[1..][i] == s[i + 1];
        }
      }
      FilterDisjoint(s[1..], p, q);
    }
  }

  /** Filtering distributes over concatenation. */
  lemma {:induction false} FilterAppend<T>(a: seq<T>, b: seq<T>, p: T -> bool)
    ensures Filter(a + b, p) == Filter(a, p) + Filter(b, p)
    decreases |a|
  {
    if |a| > 0 {
      assert (a + b)[1..] == a[1..] + b;
      FilterAppend(a[1..], b, p);
    } else {
      assert a + b == b;
    }
  }

  /** Filtering by `p` after filtering by a weaker `q` is filtering by `p`. */
  lemma {:induction false} FilterFilter<T>(s: seq<T>, p: T -> bool, q: T -> bool)
    requires forall i :: 0 <= i < |s| && p(s[i]) ==> q(s[i])
    ensures Filter(Filter(s, q), p) == Filter(s, p)
    decreases |s|
  {
    if |s| > 0 {
      assert forall i :: 0 <= i < |s[1..]| && p(s[1..][i]) ==> q(s[1..][i]) by {
        forall i | 0 <= i < |s[1..]| && p(s[1..][i]) ensures q(s[1..][i]) {
          assert s[1..][i] == s[i + 1];
        }
      }
      FilterFilter(s[1..], p, q);
      var head := if q(s[0]) then [s[0]] else [];
      FilterAppend(head, Filter(s[1..], q), p);
    }
  }
}
