/**
 * The array operations the hooks use, stated on sequences: `includes` on
 * strings, `filter`, `map` and the de-duplication `[...new Set(xs)]`.
 */
module Sequences {

  /** `s.includes(t)` on strings: `t` occurs in `s` at some position. */
  predicate HasInfix<T(==)>(s: seq<T>, t: seq<T>)
    decreases |s|
  {
    if |s| < |t| then false
    else s[..|t|] == t || HasInfix(s[1..], t)
  }

  /** `t` occurs in `s` starting at position `i`. */
  predicate InfixAt<T(==)>(s: seq<T>, t: seq<T>, i: int) {
    0 <= i <= |s| - |t| && s[i..i + |t|] == t
  }

  lemma {:induction false} HasInfixIff<T>(s: seq<T>, t: seq<T>)
    ensures HasInfix(s, t) <==> exists i :: InfixAt(s, t, i)
    decreases |s|
  {
    if |s| >= |t| && s[..|t|] != t {
      HasInfixIff(s[1..], t);
      if HasInfix(s[1..], t) {
        var i :| InfixAt(s[1..], t, i);
        assert s[1..][i..i + |t|] == s[i + 1..i + 1 + |t|];
        assert InfixAt(s, t, i + 1);
      }
      if exists i :: InfixAt(s, t, i) {
        var i :| InfixAt(s, t, i);
        assert i != 0;
        assert s[1..][i - 1..i - 1 + |t|] == s[i..i + |t|];
        assert InfixAt(s[1..], t, i - 1);
      }
    } else if |s| >= |t| {
      assert InfixAt(s, t, 0);
    }
  }

  /** `s.filter(p)`: the elements satisfying `p`, in their original order. */
  function Filter<T>(p: T -> bool, s: seq<T>): (r: seq<T>)
    ensures |r| <= |s|
    ensures forall i :: 0 <= i < |r| ==> p(r[i])
  {
    if s == [] then [] else (if p(s[0]) then [s[0]] else []) + Filter(p, s[1..])
  }

  /** `a` is `b` with some elements deleted, the rest kept in order. */
  predicate IsSubsequence<T(==)>(a: seq<T>, b: seq<T>)
    decreases |b|
  {
    if a == [] then true
    else if b == [] then false
    else (a[0] == b[0] && IsSubsequence(a[1..], b[1..])) || IsSubsequence(a, b[1..])
  }

  lemma {:induction false} FilterIsSubsequence<T>(p: T -> bool, s: seq<T>)
    ensures IsSubsequence(Filter(p, s), s)
  {
    if s != [] {
      FilterIsSubsequence(p, s[1..]);
      var a := Filter(p, s);
      if p(s[0]) {
        assert a == [s[0]] + Filter(p, s[1..]);
        assert a[0] == s[0] && a[1..] == Filter(p, s[1..]);
      } else {
        assert a == Filter(p, s[1..]);
      }
    }
  }

  /** The filter drops exactly the elements failing `p` and keeps every occurrence of the others. */
  lemma {:induction false} FilterCount<T>(p: T -> bool, s: seq<T>, x: T)
    ensures multiset(Filter(p, s))[x] == if p(x) then multiset(s)[x] else 0
  {
    if s != [] {
      FilterCount(p, s[1..], x);
      assert s == [s[0]] + s[1..];
      assert multiset(s) == multiset([s[0]]) + multiset(s[1..]);
    }
  }

  lemma FilterMembership<T>(p: T -> bool, s: seq<T>, x: T)
    ensures x in Filter(p, s) <==> x in s && p(x)
  {
    FilterCount(p, s, x);
    assert x in Filter(p, s) <==> x in multiset(Filter(p, s));
    assert x in s <==> x in multiset(s);
  }

  lemma FilterMembershipAll<T>(p: T -> bool, s: seq<T>)
    ensures forall x :: x in Filter(p, s) <==> x in s && p(x)
  {
    forall x ensures x in Filter(p, s) <==> x in s && p(x) {
      FilterMembership(p, s, x);
    }
  }

  /** Filtering distributes over concatenation, so appending a page appends its filtered part. */
  lemma {:induction false} FilterAppend<T>(p: T -> bool, a: seq<T>, b: seq<T>)
    ensures Filter(p, a + b) == Filter(p, a) + Filter(p, b)
  {
    if a != [] {
      assert (a + b)[1..] == a[1..] + b;
      FilterAppend(p, a[1..], b);
    } else {
      assert a + b == b;
    }
  }

  predicate NoDup<T(==)>(s: seq<T>) {
    forall i, j :: 0 <= i < j < |s| ==> s[i] != s[j]
  }

  lemma {:induction false} FilterKeepsNoDup<T>(p: T -> bool, s: seq<T>)
    requires NoDup(s)
    ensures NoDup(Filter(p, s))
  {
    if s != [] {
      var rest := Filter(p, s[1..]);
      FilterKeepsNoDup(p, s[1..]);
      if p(s[0]) {
        FilterMembership(p, s[1..], s[0]);
        assert s[0] !in s[1..] by {
          forall k | 0 <= k < |s[1..]| ensures s[1..][k] != s[0] {
            assert s[1..][k] == s[k + 1];
          }
        }
        var r := [s[0]] + rest;
        forall i, j | 0 <= i < j < |r| ensures r[i] != r[j] {
          assert r[j] == rest[j - 1] && r[j] in rest;
          if i > 0 {
            assert r[i] == rest[i - 1];
          }
        }
      }
    }
  }

  /**
   * `[...new Set(xs)]` with the values already in `seen` skipped: every
   * value once, at the place where it first occurs.
   */
  function DedupAfter<T(==)>(xs: seq<T>, seen: set<T>): seq<T> {
    if xs == [] then []
    else if xs[0] in seen then DedupAfter(xs[1..], seen)
    else [xs[0]] + DedupAfter(xs[1..], seen + {xs[0]})
  }

  function Dedup<T(==)>(xs: seq<T>): seq<T> {
    DedupAfter(xs, {})
  }

  lemma {:induction false} DedupAfterSpec<T>(xs: seq<T>, seen: set<T>)
    ensures NoDup(DedupAfter(xs, seen))
    ensures forall x :: x in DedupAfter(xs, seen) <==> x in xs && x !in seen
    ensures IsSubsequence(DedupAfter(xs, seen), xs)
  {
    if xs != [] {
      var rest := DedupAfter(xs[1..], if xs[0] in seen then seen else seen + {xs[0]});
      DedupAfterSpec(xs[1..], if xs[0] in seen then seen else seen + {xs[0]});
      if xs[0] !in seen {
        var r := [xs[0]] + rest;
        assert r[1..] == rest;
        forall i, j | 0 <= i < j < |r| ensures r[i] != r[j] {
          if i == 0 {
            assert r[j] == rest[j - 1];
          } else {
            assert r[i] == rest[i - 1] && r[j] == rest[j - 1];
          }
        }
      }
    }
  }

  /** The position of the first occurrence of `x` in `xs`. */
  function FirstIndex<T(==)>(xs: seq<T>, x: T): (r: nat)
    requires x in xs
    ensures r < |xs| && xs[r] == x && x !in xs[..r]
  {
    if xs[0] == x then 0 else 1 + FirstIndex(xs[1..], x)
  }

  /** Values of the tail other than the head keep their relative order, one position further on. */
  lemma FirstIndexPastHead<T>(xs: seq<T>, ys: seq<T>)
    requires |xs| > 0
    requires forall y :: y in ys ==> y in xs[1..] && y != xs[0]
    requires forall i, j :: 0 <= i < j < |ys| ==> FirstIndex(xs[1..], ys[i]) < FirstIndex(xs[1..], ys[j])
    ensures forall y :: y in ys ==> y in xs && 0 < FirstIndex(xs, y)
    ensures forall i, j :: 0 <= i < j < |ys| ==> FirstIndex(xs, ys[i]) < FirstIndex(xs, ys[j])
  {
    assert xs == [xs[0]] + xs[1..];
    forall y | y in ys ensures y in xs && FirstIndex(xs, y) == 1 + FirstIndex(xs[1..], y) {
    }
  }

  /** Putting the head in front of values that come later in `xs` keeps first-occurrence order. */
  lemma HeadFirst<T>(xs: seq<T>, ys: seq<T>)
    requires |xs| > 0
    requires forall y :: y in ys ==> y in xs && 0 < FirstIndex(xs, y)
    requires forall i, j :: 0 <= i < j < |ys| ==> FirstIndex(xs, ys[i]) < FirstIndex(xs, ys[j])
    ensures forall i, j :: 0 <= i < j < |[xs[0]] + ys| ==>
      FirstIndex(xs, ([xs[0]] + ys)[i]) < FirstIndex(xs, ([xs[0]] + ys)[j])
  {
    var r := [xs[0]] + ys;
    forall i, j | 0 <= i < j < |r|
      ensures FirstIndex(xs, r[i]) < FirstIndex(xs, r[j])
    {
      assert r[j] == ys[j - 1];
      if i > 0 {
        assert r[i] == ys[i - 1];
      }
    }
  }

  /** `DedupAfter` keeps only values of `xs` that are not in `seen`. */
  lemma {:induction false} DedupAfterMembers<T>(xs: seq<T>, seen: set<T>)
    ensures forall x :: x in DedupAfter(xs, seen) ==> x in xs && x !in seen
  {
    if xs != [] {
      DedupAfterMembers(xs[1..], if xs[0] in seen then seen else seen + {xs[0]});
    }
  }

  /** The values `DedupAfter` keeps appear in the order of their first occurrences in `xs`. */
  lemma {:induction false} DedupAfterOrder<T>(xs: seq<T>, seen: set<T>)
    ensures forall x :: x in DedupAfter(xs, seen) ==> x in xs
    ensures forall i, j :: 0 <= i < j < |DedupAfter(xs, seen)| ==>
      FirstIndex(xs, DedupAfter(xs, seen)[i]) < FirstIndex(xs, DedupAfter(xs, seen)[j])
  {
    DedupAfterMembers(xs, seen);
    if xs != [] {
      if xs[0] in seen {
        DedupAfterOrder(xs[1..], seen);
        DedupAfterMembers(xs[1..], seen);
        FirstIndexPastHead(xs, DedupAfter(xs[1..], seen));
      } else {
        var rest := DedupAfter(xs[1..], seen + {xs[0]});
        DedupAfterOrder(xs[1..], seen + {xs[0]});
        DedupAfterMembers(xs[1..], seen + {xs[0]});
        FirstIndexPastHead(xs, rest);
        HeadFirst(xs, rest);
        assert DedupAfter(xs, seen) == [xs[0]] + rest;
      }
    }
  }

  /** `[...new Set(xs)]` holds each value of `xs` once, in first-occurrence order. */
  lemma DedupSpec<T>(xs: seq<T>)
    ensures NoDup(Dedup(xs))
    ensures forall x :: x in Dedup(xs) <==> x in xs
    ensures IsSubsequence(Dedup(xs), xs)
    ensures forall i, j :: 0 <= i < j < |Dedup(xs)| ==> FirstIndex(xs, Dedup(xs)[i]) < FirstIndex(xs, Dedup(xs)[j])
  {
    DedupAfterSpec(xs, {});
    DedupAfterOrder(xs, {});
  }
}
