/** Small facts about finite sets and duplicate-free sequences. */
module Collections {

  predicate NoDuplicates<T(==)>(s: seq<T>) {
    forall i, j :: 0 <= i < j < |s| ==> s[i] != s[j]
  }

  lemma {:induction false} SubsetCardinality<T>(a: set<T>, b: set<T>)
    requires a <= b
    ensures |a| <= |b|
    decreases |b|
  {
    if a != {} {
      var x :| x in a;
      SubsetCardinality(a - {x}, b - {x});
    }
  }

  /** Taking away more of a universe leaves strictly less of it. */
  lemma ShrinkingRemainder<T>(u: set<T>, small: set<T>, large: set<T>, x: T)
    requires small <= large && x in u && x !in small && x in large
    ensures |u - large| < |u - small|
  {
    assert u - large <= (u - small) - {x};
    SubsetCardinality(u - large, (u - small) - {x});
  }

  lemma {:induction false} NoDuplicatesConcat<T>(a: seq<T>, b: seq<T>)
    requires NoDuplicates(a) && NoDuplicates(b)
    requires forall x :: x in a ==> x !in b
    ensures NoDuplicates(a + b)
  {
    forall i, j | 0 <= i < j < |a + b| ensures (a + b)[i] != (a + b)[j] {
      if j < |a| {
      } else if i < |a| {
        assert (a + b)[i] in a && (a + b)[j] in b;
      } else {
        assert (a + b)[i] == b[i - |a|] && (a + b)[j] == b[j - |a|];
      }
    }
  }

  /** `order` lists every member of `s` exactly once: one order in which a loop over `s` can visit it. */
  ghost predicate Enumerates<T(!new)>(order: seq<T>, s: set<T>) {
    NoDuplicates(order) && forall x :: x in order <==> x in s
  }

  /** Some enumeration of a finite set. */
  ghost function EnumerationOf<T(!new)>(s: set<T>): (order: seq<T>)
    ensures Enumerates(order, s)
    decreases |s|
  {
    if s == {} then []
    else
      var x :| x in s;
      var rest := EnumerationOf(s - {x});
      NoDuplicatesConcat([x], rest);
      [x] + rest
  }

  /** Dropping the last element of an enumeration enumerates the rest of the set. */
  lemma EnumerationFront<T(!new)>(order: seq<T>, s: set<T>)
    requires Enumerates(order, s) && order != []
    ensures order[|order| - 1] in s
    ensures Enumerates(order[..|order| - 1], s - {order[|order| - 1]})
  {
    var x := order[|order| - 1];
    var front := order[..|order| - 1];
    assert NoDuplicates(front) by {
      forall i, j | 0 <= i < j < |front| ensures front[i] != front[j] {
        assert front[i] == order[i] && front[j] == order[j];
      }
    }
    forall y ensures y in front <==> y in s - {x} {
      if y in front {
        var k :| 0 <= k < |front| && front[k] == y;
        assert order[k] == y;
      }
      if y in s - {x} {
        assert y in order;
        var k :| 0 <= k < |order| && order[k] == y;
        assert k != |order| - 1;
        assert front[k] == y;
      }
    }
  }

  /** An enumeration is as long as the set it enumerates. */
  lemma {:induction false} EnumerationLength<T(!new)>(order: seq<T>, s: set<T>)
    requires Enumerates(order, s)
    ensures |order| == |s|
    decreases |order|
  {
    if order != [] {
      EnumerationFront(order, s);
      EnumerationLength(order[..|order| - 1], s - {order[|order| - 1]});
    } else {
      assert forall y :: y !in s by {
        forall y ensures y !in s { assert y !in order; }
      }
      assert s == {};
    }
  }

}
