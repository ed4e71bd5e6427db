/**
 Node identifiers and the order the search puts on them.

 Node ids are strings and the searches sort neighbour lists with Python's
 string comparison: code point by code point, a proper prefix first.
 */
module NodeOrder {
  import opened Seqs

  type Node = string

  /** Python's `a < b` on strings. */
  predicate Below(a: Node, b: Node)
    decreases |a|
  {
    if |a| == 0 then |b| > 0
    else if |b| == 0 then false
    else if a[0] != b[0] then a[0] < b[0]
    else Below(a[1..], b[1..])
  }

  lemma {:induction false} BelowIrreflexive(a: Node)
    ensures !Below(a, a)
    decreases |a|
  {
    if |a| > 0 {
      BelowIrreflexive(a[1..]);
    }
  }

  lemma {:induction false} BelowTransitive(a: Node, b: Node, c: Node)
    requires Below(a, b) && Below(b, c)
    ensures Below(a, c)
    decreases |a|
  {
    if |a| > 0 && a[0] == b[0] && b[0] == c[0] {
      BelowTransitive(a[1..], b[1..], c[1..]);
    }
  }

  /** Any two distinct ids are comparable, so sorting is well defined. */
  lemma {:induction false} BelowTotal(a: Node, b: Node)
    ensures a == b || Below(a, b) || Below(b, a)
    decreases |a|
  {
    if |a| > 0 && |b| > 0 && a[0] == b[0] {
      BelowTotal(a[1..], b[1..]);
      if a[1..] == b[1..] {
        assert a == [a[0]] + a[1..] && b == [b[0]] + b[1..];
      }
    }
  }

  lemma BelowAsymmetric(a: Node, b: Node)
    requires Below(a, b)
    ensures !Below(b, a)
  {
    if Below(b, a) {
      BelowTransitive(a, b, a);
      BelowIrreflexive(a);
    }
  }

  /** Every element is below every later one (so there are no duplicates). */
  predicate Ascending(xs: seq<Node>) {
    forall i, j :: 0 <= i < j < |xs| ==> Below(xs[i], xs[j])
  }

  /** Every element is above every later one. */
  predicate Descending(xs: seq<Node>) {
    forall i, j :: 0 <= i < j < |xs| ==> Below(xs[j], xs[i])
  }

  lemma LeastExists(s: set<Node>)
    requires s != {}
    ensures exists m :: m in s && forall y | y in s :: !Below(y, m)
    decreases |s|
  {
    var x :| x in s;
    if s != {x} {
      LeastExists(s - {x});
      var m :| m in s - {x} && forall y | y in s - {x} :: !Below(y, m);
      if Below(x, m) {
        forall y | y in s
          ensures !Below(y, x)
        {
          if y == x {
            BelowIrreflexive(x);
          } else if Below(y, x) {
            BelowTransitive(y, x, m);
          }
        }
      } else {
        assert forall y | y in s :: !Below(y, m);
      }
    } else {
      BelowIrreflexive(x);
    }
  }

  /** The smallest id of a non-empty set. */
  function Least(s: set<Node>): (m: Node)
    requires s != {}
    ensures m in s && forall y | y in s && y != m :: Below(m, y)
  {
    LeastExists(s);
    assert forall a, b | a in s && b in s && !Below(a, b) && !Below(b, a) :: a == b by {
      forall a, b | a in s && b in s && !Below(a, b) && !Below(b, a)
        ensures a == b
      {
        BelowTotal(a, b);
      }
    }
    var m :| m in s && forall y | y in s :: !Below(y, m);
    assert forall y | y in s && y != m :: Below(m, y) by {
      forall y | y in s && y != m
        ensures Below(m, y)
      {
        BelowTotal(m, y);
      }
    }
    m
  }

  /**
   The ids of `s` in ascending order: what `sorted()` makes of a node's
   neighbour list, which never holds an id twice.
   */
  function SortAscending(s: set<Node>): (r: seq<Node>)
    ensures |r| == |s|
    ensures forall x :: x in r <==> x in s
    decreases |s|
  {
    if s == {} then []
    else
      var m := Least(s);
      [m] + SortAscending(s - {m})
  }

  lemma {:induction false} SortAscendingAscending(s: set<Node>)
    ensures Ascending(SortAscending(s))
    decreases |s|
  {
    if s != {} {
      SortAscendingAscending(s - {Least(s)});
    }
  }

  /** `xs` back to front. */
  function Reverse(xs: seq<Node>): (r: seq<Node>)
    ensures |r| == |xs|
    ensures forall i | 0 <= i < |xs| :: r[i] == xs[|xs| - 1 - i]
  {
    if xs == [] then [] else Reverse(xs[1..]) + [xs[0]]
  }

  /** The ids of `s` in descending order, as `sort(reverse=True)` leaves them. */
  function SortDescending(s: set<Node>): (r: seq<Node>)
    ensures |r| == |s|
    ensures forall x :: x in r <==> x in s
  {
    var up := SortAscending(s);
    var down := Reverse(up);
    assert forall x :: x in down <==> x in up by {
      forall x
        ensures x in down <==> x in up
      {
        if x in up {
          var k :| 0 <= k < |up| && up[k] == x;
          assert down[|up| - 1 - k] == x;
        }
      }
    }
    down
  }

  lemma SortDescendingDescending(s: set<Node>)
    ensures Descending(SortDescending(s))
  {
    SortAscendingAscending(s);
  }

  /**
   An ascending listing of a set is unique: it is `SortAscending` of the set,
   whatever order the elements were listed in before sorting.
   */
  lemma {:induction false} AscendingUnique(xs: seq<Node>, s: set<Node>)
    requires Ascending(xs)
    requires forall x :: x in xs <==> x in s
    ensures xs == SortAscending(s)
    decreases |xs|
  {
    if xs == [] {
      assert s == {};
    } else {
      assert xs[0] in s;
      var m := Least(s);
      assert xs[0] == m by {
        var k :| 0 <= k < |xs| && xs[k] == m;
      }
      AscendingTail(xs, s);
      AscendingUnique(xs[1..], s - {m});
      assert xs == [xs[0]] + xs[1..];
    }
  }

  /** Behind the first element of an ascending listing of `s` comes a listing of the rest of `s`. */
  lemma AscendingTail(xs: seq<Node>, s: set<Node>)
    requires Ascending(xs) && xs != []
    requires forall x :: x in xs <==> x in s
    ensures forall x :: x in xs[1..] <==> x in s - {xs[0]}
  {
    forall x
      ensures x in xs[1..] <==> x in s - {xs[0]}
    {
      if x in xs[1..] {
        var k :| 1 <= k < |xs| && xs[k] == x;
        BelowIrreflexive(x);
      }
      if x in s - {xs[0]} {
        var k :| 0 <= k < |xs| && xs[k] == x;
        assert k != 0;
        assert xs[1..][k - 1] == x;
      }
    }
  }

  /** A strictly ascending list has no repeated element. */
  lemma AscendingNoDup(xs: seq<Node>)
    requires Ascending(xs)
    ensures NoDup(xs)
  {
    forall i, j | 0 <= i < j < |xs|
      ensures xs[i] != xs[j]
    {
      if xs[i] == xs[j] {
        BelowIrreflexive(xs[i]);
      }
    }
  }

  /** A strictly descending list has no repeated element. */
  lemma DescendingNoDup(xs: seq<Node>)
    requires Descending(xs)
    ensures NoDup(xs)
  {
    forall i, j | 0 <= i < j < |xs|
      ensures xs[i] != xs[j]
    {
      if xs[i] == xs[j] {
        BelowIrreflexive(xs[i]);
      }
    }
  }

  /** A descending listing of a set is unique, like an ascending one. */
  lemma {:induction false} DescendingUnique(xs: seq<Node>, ys: seq<Node>)
    requires Descending(xs) && Descending(ys)
    requires forall x :: x in xs <==> x in ys
    ensures xs == ys
    decreases |xs|
  {
    if xs == [] {
      DescendingNoDup(ys);
      NoDupCardinality(ys);
      assert Elems(ys) == {};
    } else {
      assert xs[0] in xs;
      assert xs[0] == ys[0] by {
        if xs[0] != ys[0] {
          assert ys[0] in ys && xs[0] in xs;
          var k :| 0 <= k < |xs| && xs[k] == ys[0];
          var j :| 0 <= j < |ys| && ys[j] == xs[0];
          BelowAsymmetric(ys[0], xs[0]);
        }
      }
      forall x
        ensures x in xs[1..] <==> x in ys[1..]
      {
        if x in xs[1..] {
          var k :| 1 <= k < |xs| && xs[k] == x;
          BelowIrreflexive(x);
          assert x in xs && x in ys;
          var j :| 0 <= j < |ys| && ys[j] == x;
          assert j != 0;
          assert ys[1..][j - 1] == x;
        }
        if x in ys[1..] {
          var k :| 1 <= k < |ys| && ys[k] == x;
          BelowIrreflexive(x);
          assert x in ys && x in xs;
          var j :| 0 <= j < |xs| && xs[j] == x;
          assert j != 0;
          assert xs[1..][j - 1] == x;
        }
      }
      DescendingUnique(xs[1..], ys[1..]);
      assert xs == [xs[0]] + xs[1..] && ys == [ys[0]] + ys[1..];
    }
  }
}
