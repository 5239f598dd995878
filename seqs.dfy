/** Order-preserving selection over sequences: `Array.prototype.filter`, `find` and `length` of a filter. */
module Seqs {
  import opened Wrappers

  /** The elements of `s` that satisfy `p`, in their original order (`s.filter(p)`). */
  function Filter<T>(s: seq<T>, p: T -> bool): (r: seq<T>)
    ensures |r| <= |s|
    ensures forall i | 0 <= i < |r| :: r[i] in s && p(r[i])
    ensures forall i | 0 <= i < |s| :: p(s[i]) ==> s[i] in r
    decreases |s|
  {
    if s == [] then []
    else Filter(s[..|s| - 1], p) + (if p(s[|s| - 1]) then [s[|s| - 1]] else [])
  }

  /** Filtering keeps a passing element exactly as often as it occurs, and drops every other. */
  lemma {:induction false} FilterMultiplicity<T>(s: seq<T>, p: T -> bool, x: T)
    ensures multiset(Filter(s, p))[x] == if p(x) then multiset(s)[x] else 0
    decreases |s|
  {
    if s != [] {
      var init, last := s[..|s| - 1], s[|s| - 1];
      FilterMultiplicity(init, p, x);
      PrefixLast(s);
      FilterSnoc(init, last, p);
      assert multiset(s) == multiset(init) + multiset{last};
    }
  }

  /** Filtering one more element appends it exactly when it passes. */
  lemma FilterSnoc<T>(s: seq<T>, x: T, p: T -> bool)
    ensures Filter(s + [x], p) == Filter(s, p) + (if p(x) then [x] else [])
  {
    LastSplit(s, x);
  }

  /** The number of elements of `s` that satisfy `p` (`s.filter(p).length`). */
  function Count<T>(s: seq<T>, p: T -> bool): nat
  {
    |Filter(s, p)|
  }

  /** Some element passes exactly when the count is positive. */
  lemma CountPositive<T>(s: seq<T>, p: T -> bool)
    ensures Count(s, p) > 0 <==> exists i | 0 <= i < |s| :: p(s[i])
  {
    var r := Filter(s, p);
    if |r| > 0 {
      assert r[0] in s;
      var j :| 0 <= j < |s| && s[j] == r[0];
      assert p(s[j]);
    }
  }

  /** `a` is obtained from `b` by deleting elements, without reordering the rest. */
  ghost predicate IsSubsequence<T>(a: seq<T>, b: seq<T>)
    decreases |b|
  {
    a == [] ||
    (b != [] &&
     (IsSubsequence(a, b[..|b| - 1]) ||
      (a[|a| - 1] == b[|b| - 1] && IsSubsequence(a[..|a| - 1], b[..|b| - 1]))))
  }

  /** The index of the first element of `s` satisfying `p` (`s.findIndex(p)`, or `find` when the element is used). */
  function FirstIndex<T>(s: seq<T>, p: T -> bool): (r: Option<nat>)
    ensures r.Some? ==> r.value < |s| && p(s[r.value]) && forall j | 0 <= j < r.value :: !p(s[j])
    ensures r.None? ==> forall j | 0 <= j < |s| :: !p(s[j])
  {
    if s == [] then None
    else if p(s[0]) then Some(0)
    else match FirstIndex(s[1..], p)
      case None => None
      case Some(k) => Some(k + 1)
  }

  /** The first index is the one before which no element satisfies `p`. */
  lemma FirstIndexIs<T>(s: seq<T>, p: T -> bool, h: nat)
    requires h < |s| && p(s[h])
    requires forall j | 0 <= j < h :: !p(s[j])
    ensures FirstIndex(s, p) == Some(h)
  {
    assert FirstIndex(s, p).Some?;
  }

  lemma {:induction false} FilterIsSubsequence<T>(s: seq<T>, p: T -> bool)
    ensures IsSubsequence(Filter(s, p), s)
    decreases |s|
  {
    if s != [] {
      var init := s[..|s| - 1];
      FilterIsSubsequence(init, p);
      if p(s[|s| - 1]) {
        var f := Filter(s, p);
        assert f[..|f| - 1] == Filter(init, p);
      } else {
        assert Filter(s, p) == Filter(init, p);
      }
    }
  }

  /** Every element of a subsequence occurs in the sequence. */
  lemma {:induction false} SubsequenceMembers<T>(a: seq<T>, b: seq<T>)
    requires IsSubsequence(a, b)
    ensures forall i | 0 <= i < |a| :: a[i] in b
    decreases |b|
  {
    if a != [] {
      var init := b[..|b| - 1];
      if IsSubsequence(a, init) {
        SubsequenceMembers(a, init);
      } else {
        SubsequenceMembers(a[..|a| - 1], init);
        assert a == a[..|a| - 1] + [a[|a| - 1]];
      }
    }
  }

  /** Filtering keeps the whole sequence exactly when every element passes. */
  lemma {:induction false} FilterKeepsAll<T>(s: seq<T>, p: T -> bool)
    ensures Filter(s, p) == s <==> forall i | 0 <= i < |s| :: p(s[i])
    decreases |s|
  {
    if s != [] {
      var init := s[..|s| - 1];
      FilterKeepsAll(init, p);
      if forall i | 0 <= i < |s| :: p(s[i]) {
        assert forall i | 0 <= i < |init| :: p(init[i]);
        PrefixLast(s);
      }
      if Filter(s, p) == s {
        forall i | 0 <= i < |s| ensures p(s[i]) {
          assert Filter(s, p)[i] == s[i];
        }
      }
    }
  }

  /** A non-empty sequence is all but its last element followed by that element. */
  lemma PrefixLast<T>(s: seq<T>)
    requires s != []
    ensures s[..|s| - 1] + [s[|s| - 1]] == s
  {
  }

  /** Filters whose predicates agree on every element select the same elements. */
  lemma {:induction false} FilterCongruent<T>(s: seq<T>, p: T -> bool, q: T -> bool)
    requires forall i | 0 <= i < |s| :: p(s[i]) == q(s[i])
    ensures Filter(s, p) == Filter(s, q)
    decreases |s|
  {
    if s != [] {
      FilterCongruent(s[..|s| - 1], p, q);
    }
  }

  /** Two filters applied one after the other select what one filter on the conjunction selects. */
  lemma {:induction false} FilterTwice<T>(s: seq<T>, p: T -> bool, q: T -> bool, both: T -> bool)
    requires forall i | 0 <= i < |s| :: both(s[i]) == (p(s[i]) && q(s[i]))
    ensures Filter(Filter(s, p), q) == Filter(s, both)
    decreases |s|
  {
    if s != [] {
      var init := s[..|s| - 1];
      var x := s[|s| - 1];
      FilterTwice(init, p, q, both);
      var fp := Filter(s, p);
      if p(x) {
        assert fp[..|fp| - 1] == Filter(init, p);
        assert fp[|fp| - 1] == x;
      } else {
        assert fp == Filter(init, p);
      }
    }
  }

  /** Counting is monotone in the predicate, and a predicate covered by two others counts at most their sum. */
  lemma {:induction false} CountCovered<T>(s: seq<T>, p: T -> bool, q: T -> bool, r: T -> bool)
    requires forall i | 0 <= i < |s| :: p(s[i]) ==> q(s[i]) || r(s[i])
    ensures Count(s, p) <= Count(s, q) + Count(s, r)
    decreases |s|
  {
    if s != [] {
      CountCovered(s[..|s| - 1], p, q, r);
    }
  }

  /** Appending one element adds one to the count exactly when it passes. */
  lemma CountSnoc<T>(s: seq<T>, x: T, p: T -> bool)
    ensures Count(s + [x], p) == Count(s, p) + (if p(x) then 1 else 0)
  {
    assert (s + [x])[..|s|] == s;
  }

  /** Taking one more element of a sequence appends that element. */
  lemma TakeOneMore<T>(s: seq<T>, i: nat)
    requires i < |s|
    ensures s[..i + 1] == s[..i] + [s[i]]
  {
  }

  /** A non-empty sequence is its prefix followed by its last element, and appending an
      element leaves the old sequence as the prefix. */
  lemma LastSplit<T>(s: seq<T>, x: T)
    ensures (s + [x])[..|s|] == s && (s + [x])[|s|] == x
  {
  }
}
