/** Sequence operations shared by the pages: JavaScript's `Array.prototype.filter`,
    `reverse`, `slice`, de-duplication through `new Set(...)`, and counting. */
module Seqs {

  /** `xs.filter(p)`: the elements of `xs` that satisfy `p`, in their original order. */
  function Filter<T(!new)>(p: T -> bool, xs: seq<T>): (r: seq<T>)
    ensures |r| <= |xs|
    ensures forall i :: 0 <= i < |r| ==> r[i] in xs && p(r[i])
    ensures forall i :: 0 <= i < |xs| && p(xs[i]) ==> xs[i] in r
  {
    if xs == [] then [] else (if p(xs[0]) then [xs[0]] else []) + Filter(p, xs[1..])
  }

  /** The filter keeps every element that passes as many times as it occurs, and drops
      every other element entirely. */
  lemma {:induction false} FilterMultiset<T(!new)>(p: T -> bool, xs: seq<T>)
    ensures forall x :: multiset(Filter(p, xs))[x] == if p(x) then multiset(xs)[x] else 0
  {
    if xs != [] {
      FilterMultiset(p, xs[1..]);
      var head: seq<T> := if p(xs[0]) then [xs[0]] else [];
      assert Filter(p, xs) == head + Filter(p, xs[1..]);
      assert xs == [xs[0]] + xs[1..];
      assert multiset(xs) == multiset([xs[0]]) + multiset(xs[1..]);
      assert multiset(Filter(p, xs)) == multiset(head) + multiset(Filter(p, xs[1..]));
    }
  }

  /** `xs` can be obtained from `ys` by deleting elements; the order is kept. */
  predicate IsSubsequence<T(==)>(xs: seq<T>, ys: seq<T>)
  {
    if xs == [] then true
    else if ys == [] then false
    else (xs[0] == ys[0] && IsSubsequence(xs[1..], ys[1..])) || IsSubsequence(xs, ys[1..])
  }

  /** `Filter` one element at a time. */
  lemma FilterCons<T(!new)>(p: T -> bool, xs: seq<T>)
    requires xs != []
    ensures Filter(p, xs) == (if p(xs[0]) then [xs[0]] else []) + Filter(p, xs[1..])
  {
  }

  /** A filtered list is an order-preserving subsequence of its input. */
  lemma {:induction false} FilterIsSubsequence<T(!new)>(p: T -> bool, xs: seq<T>)
    ensures IsSubsequence(Filter(p, xs), xs)
  {
    if xs != [] {
      FilterIsSubsequence(p, xs[1..]);
      var rest := Filter(p, xs[1..]);
      if p(xs[0]) {
        assert Filter(p, xs) == [xs[0]] + rest;
        assert ([xs[0]] + rest)[1..] == rest;
      } else {
        assert Filter(p, xs) == rest;
        SubsequenceOfTail(rest, xs);
      }
    }
  }

  /** Anything that is a subsequence of the tail of `ys` is a subsequence of `ys`. */
  lemma SubsequenceOfTail<T>(xs: seq<T>, ys: seq<T>)
    requires ys != [] && IsSubsequence(xs, ys[1..])
    ensures IsSubsequence(xs, ys)
  {
  }

  /** When every element passes, the filter keeps the list as it is. */
  lemma {:induction false} FilterAll<T(!new)>(p: T -> bool, xs: seq<T>)
    requires forall i :: 0 <= i < |xs| ==> p(xs[i])
    ensures Filter(p, xs) == xs
  {
    if xs != [] {
      FilterAll(p, xs[1..]);
    }
  }

  /** Filtering with a stronger predicate keeps a subsequence of what the weaker one keeps. */
  lemma {:induction false} FilterMonotone<T(!new)>(strong: T -> bool, weak: T -> bool, xs: seq<T>)
    requires forall i :: 0 <= i < |xs| && strong(xs[i]) ==> weak(xs[i])
    ensures IsSubsequence(Filter(strong, xs), Filter(weak, xs))
  {
    if xs != [] {
      var tail := xs[1..];
      assert forall i :: 0 <= i < |tail| ==> tail[i] == xs[i + 1];
      FilterMonotone(strong, weak, tail);
      var s, w := Filter(strong, tail), Filter(weak, tail);
      assert Filter(strong, xs) == (if strong(xs[0]) then [xs[0]] else []) + s;
      assert Filter(weak, xs) == (if weak(xs[0]) then [xs[0]] else []) + w;
      if strong(xs[0]) {
        SubsequenceCons(s, w, xs[0]);
      } else if weak(xs[0]) {
        assert [] + s == s;
        assert ([xs[0]] + w)[1..] == w;
        SubsequenceOfTail(s, [xs[0]] + w);
      } else {
        assert [] + s == s;
        assert [] + w == w;
      }
    }
  }

  /** A common first element can be added to both sides. */
  lemma SubsequenceCons<T>(xs: seq<T>, ys: seq<T>, y: T)
    requires IsSubsequence(xs, ys)
    ensures IsSubsequence([y] + xs, [y] + ys)
  {
    assert ([y] + xs)[1..] == xs;
    assert ([y] + ys)[1..] == ys;
  }

  /** No element occurs twice. */
  predicate NoDuplicates<T(==)>(xs: seq<T>)
  {
    forall i, j :: 0 <= i < j < |xs| ==> xs[i] != xs[j]
  }

  /** `[...new Set(xs)]`: each distinct element once, in order of first appearance. */
  function Dedupe<T(==,!new)>(xs: seq<T>): (r: seq<T>)
    ensures forall x :: x in r <==> x in xs
    ensures NoDuplicates(r)
    decreases |xs|
  {
    if xs == [] then []
    else
      var d := Dedupe(xs[..|xs| - 1]);
      assert forall x :: x in xs <==> x in xs[..|xs| - 1] || x == xs[|xs| - 1];
      if xs[|xs| - 1] in d then d else d + [xs[|xs| - 1]]
  }

  /** De-duplicating one more element adds it at the end exactly when it is new. */
  lemma DedupeSnoc<T(!new)>(xs: seq<T>, x: T)
    ensures Dedupe(xs + [x]) == if x in Dedupe(xs) then Dedupe(xs) else Dedupe(xs) + [x]
  {
    assert (xs + [x])[..|xs|] == xs;
  }

  /** Position of the first occurrence of `x` in `xs`. */
  function IndexOf<T(==)>(xs: seq<T>, x: T): (k: nat)
    requires x in xs
    ensures k < |xs| && xs[k] == x && x !in xs[..k]
  {
    if xs[0] == x then 0 else 1 + IndexOf(xs[1..], x)
  }

  lemma {:induction false} IndexOfPrefix<T>(a: seq<T>, b: seq<T>, x: T)
    requires x in a
    ensures IndexOf(a + b, x) == IndexOf(a, x)
  {
    if a[0] != x {
      assert (a + b)[1..] == a[1..] + b;
      IndexOfPrefix(a[1..], b, x);
    }
  }

  /** The de-duplicated list follows the order in which elements first appear. */
  lemma {:induction false} DedupeFirstAppearance<T(!new)>(xs: seq<T>)
    ensures forall i, j :: 0 <= i < j < |Dedupe(xs)| ==>
      IndexOf(xs, Dedupe(xs)[i]) < IndexOf(xs, Dedupe(xs)[j])
    decreases |xs|
  {
    if xs != [] {
      var init, last := xs[..|xs| - 1], xs[|xs| - 1];
      assert xs == init + [last];
      DedupeFirstAppearance(init);
      var d := Dedupe(init);
      forall x | x in init ensures IndexOf(xs, x) == IndexOf(init, x) {
        IndexOfPrefix(init, [last], x);
      }
      if last !in d {
        assert last !in init;
        assert IndexOf(xs, last) == |xs| - 1;
        forall i | 0 <= i < |d| ensures IndexOf(xs, d[i]) < |xs| - 1 {
          assert d[i] in init;
        }
        assert Dedupe(xs) == d + [last];
      }
    }
  }

  /** Number of occurrences of `x` in `xs`. */
  function Count<T(==,!new)>(xs: seq<T>, x: T): (n: nat)
    ensures n <= |xs|
    ensures n > 0 <==> x in xs
    decreases |xs|
  {
    if xs == [] then 0
    else
      assert forall y :: y in xs <==> y in xs[..|xs| - 1] || y == xs[|xs| - 1];
      Count(xs[..|xs| - 1], x) + (if xs[|xs| - 1] == x then 1 else 0)
  }

  /** Sum of the occurrence counts in `xs` of every key of `keys`. */
  function SumOfCounts<T(==,!new)>(keys: seq<T>, xs: seq<T>): nat
    decreases |keys|
  {
    if keys == [] then 0 else SumOfCounts(keys[..|keys| - 1], xs) + Count(xs, keys[|keys| - 1])
  }

  /** Appending one element adds one to the sum exactly when that element is a key. */
  lemma {:induction false} SumOfCountsAppend<T(!new)>(keys: seq<T>, xs: seq<T>, y: T)
    requires NoDuplicates(keys)
    ensures SumOfCounts(keys, xs + [y]) == SumOfCounts(keys, xs) + (if y in keys then 1 else 0)
    decreases |keys|
  {
    if keys != [] {
      var init := keys[..|keys| - 1];
      assert (xs + [y])[..|xs + [y]| - 1] == xs;
      assert forall z :: z in keys <==> z in init || z == keys[|keys| - 1];
      SumOfCountsAppend(init, xs, y);
    }
  }

  /** Counting every distinct element of `xs` once accounts for every position of `xs`. */
  lemma {:induction false} DedupeCountsSum<T(!new)>(xs: seq<T>)
    ensures SumOfCounts(Dedupe(xs), xs) == |xs|
    decreases |xs|
  {
    if xs != [] {
      var init, last := xs[..|xs| - 1], xs[|xs| - 1];
      assert xs == init + [last];
      var d := Dedupe(init);
      DedupeCountsSum(init);
      SumOfCountsAppend(d, init, last);
      if last !in d {
        assert Dedupe(xs) == d + [last];
        assert (d + [last])[..|d + [last]| - 1] == d;
        assert Count(init, last) == 0;
      }
    }
  }

  /** `[...xs].reverse()`. */
  function Reverse<T>(xs: seq<T>): (r: seq<T>)
    ensures |r| == |xs|
    ensures forall i :: 0 <= i < |xs| ==> r[i] == xs[|xs| - 1 - i]
  {
    if xs == [] then [] else Reverse(xs[1..]) + [xs[0]]
  }

  /** `xs.slice(0, n)` for `n >= 0`: the first `n` elements, or all of them. */
  function Take<T>(xs: seq<T>, n: nat): (r: seq<T>)
    ensures |r| == if |xs| <= n then |xs| else n
    ensures r <= xs
  {
    if |xs| <= n then xs else xs[..n]
  }

  /** `xs.slice(-n)` for `n > 0`: the last `n` elements, or all of them. */
  function TakeLast<T>(xs: seq<T>, n: nat): (r: seq<T>)
    ensures |r| == if |xs| <= n then |xs| else n
    ensures forall i :: 0 <= i < |r| ==> r[i] == xs[|xs| - |r| + i]
  {
    if |xs| <= n then xs else xs[|xs| - n..]
  }
}
