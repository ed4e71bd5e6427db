/** Small facts about Python lists, modelled as sequences. */
module Seqs {
  import opened Wrappers

  /** No element occurs twice. */
  predicate NoDup<T(==)>(xs: seq<T>) {
    forall i, j :: 0 <= i < j < |xs| ==> xs[i] != xs[j]
  }

  /** Python's `set(xs)`. */
  function Elems<T(==)>(xs: seq<T>): set<T> {
    set x | x in xs
  }

  function Last<T>(xs: seq<T>): T
    requires |xs| > 0
  {
    xs[|xs| - 1]
  }

  /** A non-empty list is its front followed by its last element. */
  lemma SplitLast<T>(xs: seq<T>)
    requires |xs| > 0
    ensures xs == xs[..|xs| - 1] + [Last(xs)]
  {
  }

  /** Python's `xs.index(x)`, with `None` for the `ValueError` case. */
  function IndexOf<T(==)>(xs: seq<T>, x: T): (r: Option<nat>)
    ensures r.None? <==> x !in xs
    ensures r.Some? ==> r.value < |xs| && xs[r.value] == x && x !in xs[..r.value]
    decreases |xs|
  {
    if xs == [] then None
    else if xs[0] == x then Some(0)
    else
      match IndexOf(xs[1..], x)
      case None => None
      case Some(i) =>
        assert xs[..i + 1] == [xs[0]] + xs[1..][..i];
        Some(i + 1)
  }

  /** The elements of `xs` outside `drop`, in their original order. */
  function Without<T(==)>(xs: seq<T>, drop: set<T>): (r: seq<T>)
    ensures forall x | x in r :: x in xs && x !in drop
    ensures forall x | x in xs && x !in drop :: x in r
    decreases |xs|
  {
    if xs == [] then []
    else if xs[0] in drop then Without(xs[1..], drop)
    else [xs[0]] + Without(xs[1..], drop)
  }

  /** Filtering a list without duplicates leaves a list without duplicates. */
  lemma {:induction false} WithoutNoDup<T>(xs: seq<T>, drop: set<T>)
    requires NoDup(xs)
    ensures NoDup(Without(xs, drop))
    decreases |xs|
  {
    if xs != [] {
      WithoutNoDup(xs[1..], drop);
    }
  }

  lemma NoDupCardinality<T>(xs: seq<T>)
    requires NoDup(xs)
    ensures |Elems(xs)| == |xs|
    decreases |xs|
  {
    if xs != [] {
      NoDupCardinality(xs[1..]);
      assert Elems(xs) == {xs[0]} + Elems(xs[1..]);
      assert xs[0] !in xs[1..];
    }
  }

  /** Two duplicate-free lists with no common element join into a duplicate-free list. */
  lemma NoDupConcat<T>(xs: seq<T>, ys: seq<T>)
    requires NoDup(xs) && NoDup(ys) && forall y | y in ys :: y !in xs
    ensures NoDup(xs + ys)
  {
    forall i, j | 0 <= i < j < |xs + ys|
      ensures (xs + ys)[i] != (xs + ys)[j]
    {
      if j >= |xs| {
        assert (xs + ys)[j] == ys[j - |xs|];
        if i >= |xs| {
          assert (xs + ys)[i] == ys[i - |xs|];
        } else {
          assert ys[j - |xs|] in ys;
        }
      }
    }
  }

  /** Appending a fresh element keeps a list duplicate free. */
  lemma NoDupAppend<T>(xs: seq<T>, x: T)
    requires NoDup(xs) && x !in xs
    ensures NoDup(xs + [x])
    ensures Elems(xs + [x]) == Elems(xs) + {x}
  {
  }

  /** A set holding exactly the members of `a` and the elements of `xs` is their union. */
  lemma UnionElems<T>(a: set<T>, b: set<T>, xs: seq<T>)
    requires forall m :: m in b <==> m in a || m in xs
    ensures b == a + Elems(xs)
  {
  }

  /** Appending two elements one at a time appends the pair. */
  lemma AppendPair<T>(s: seq<T>, a: T, b: T)
    ensures s + [a] + [b] == s + [a, b]
  {
  }

  /** Marking one more element of `all` as done leaves fewer to do. */
  lemma FewerLeft<T>(all: set<T>, before: set<T>, after: set<T>, x: T)
    requires before <= after <= all && x in after && x !in before
    ensures |all - after| < |all - before|
  {
    var left, was := all - after, all - before;
    assert x in was;
    assert left <= was - {x};
    assert |was - {x}| == |was| - 1;
    SubsetCard(left, was - {x});
  }

  lemma {:induction false} SubsetCard<T>(a: set<T>, b: set<T>)
    requires a <= b
    ensures |a| <= |b|
    decreases |a|
  {
    if a != {} {
      var y :| y in a;
      SubsetCard(a - {y}, b - {y});
    }
  }

  /** Counting what is left of `all` once `seen` is taken out of it; all of it is seen exactly when the counts agree. */
  lemma SubsetCounts<T>(all: set<T>, seen: set<T>)
    requires seen <= all
    ensures |all - seen| == |all| - |seen|
    ensures |seen| == |all| <==> seen == all
  {
    assert all == seen + (all - seen);
    assert seen * (all - seen) == {};
    if |seen| == |all| {
      assert |all - seen| == 0;
    }
  }

  /** The elements of a concatenation. */
  lemma ElemsConcat<T>(xs: seq<T>, ys: seq<T>)
    ensures Elems(xs + ys) == Elems(xs) + Elems(ys)
  {
  }

  /** Moving the front of `q` to the end of `v` and appending `a` to `q` keeps `v + q + a`. */
  lemma MoveFront<T>(v: seq<T>, q: seq<T>, a: seq<T>)
    requires q != []
    ensures (v + [q[0]]) + (q[1..] + a) == v + q + a
  {
    assert q == [q[0]] + q[1..];
  }

  /** Two maps with the same keys and the same value at each key are equal. */
  lemma SameMap<K, V>(a: map<K, V>, b: map<K, V>)
    requires forall k :: k in a <==> k in b
    requires forall k | k in a :: a[k] == b[k]
    ensures a == b
  {
  }

  /** Where the one or two appended elements sit. */
  lemma Appended<T>(s: seq<T>, a: T, b: Option<T>, t: seq<T>)
    requires b.None? ==> t == s + [a]
    requires b.Some? ==> t == s + [a, b.value]
    ensures |t| == |s| + (if b.None? then 1 else 2)
    ensures t[..|s|] == s && t[|s|] == a && (b.Some? ==> t[|s| + 1] == b.value)
    ensures Last(t) == (if b.None? then a else b.value)
  {
  }

  /** Python's `sum(xs)`. */
  function Sum(xs: seq<nat>): nat {
    if xs == [] then 0 else xs[0] + Sum(xs[1..])
  }

  lemma {:induction false} SumZeros(xs: seq<nat>)
    requires forall i | 0 <= i < |xs| :: xs[i] == 0
    ensures Sum(xs) == 0
  {
    if xs != [] {
      SumZeros(xs[1..]);
    }
  }

  /** Adding one to one entry adds one to the sum. */
  lemma {:induction false} SumBump(xs: seq<nat>, j: nat)
    requires j < |xs|
    ensures Sum(xs[j := xs[j] + 1]) == Sum(xs) + 1
  {
    if j == 0 {
      assert xs[j := xs[j] + 1][1..] == xs[1..];
    } else {
      assert xs[j := xs[j] + 1][1..] == xs[1..][j - 1 := xs[j] + 1];
      SumBump(xs[1..], j - 1);
    }
  }
}
