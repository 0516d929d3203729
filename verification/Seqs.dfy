/** Facts about the kernel's linked lists, modelled as sequences, that every other module uses. */
module Seqs {

  ghost predicate Distinct<T>(q: seq<T>) {
    forall i, j :: 0 <= i < j < |q| ==> q[i] != q[j]
  }

  /** `list_del` of one node: the first occurrence of `x` is unlinked, the rest keeps its order. */
  function Remove<T(==)>(q: seq<T>, x: T): (r: seq<T>)
    ensures x !in q ==> r == q
    ensures x in q ==> |r| == |q| - 1
  {
    if q == [] then []
    else if q[0] == x then q[1..] else [q[0]] + Remove(q[1..], x)
  }

  /** Removing from a list without repeats removes the element and nothing else, and keeps order. */
  lemma {:induction false} RemoveDistinct<T>(q: seq<T>, x: T)
    requires Distinct(q)
    ensures Distinct(Remove(q, x))
    ensures forall y :: y in Remove(q, x) <==> y in q && y != x
  {
    if q != [] {
      assert q == [q[0]] + q[1..];
      RemoveDistinct(q[1..], x);
      if q[0] == x {
        assert x !in q[1..];
      } else {
        var r := Remove(q[1..], x);
        assert Remove(q, x) == [q[0]] + r;
        assert q[0] !in q[1..];
      }
    }
  }

  /** Removing is what it is at the first position of the element. */
  lemma {:induction false} RemoveAt<T>(q: seq<T>, x: T, k: nat)
    requires k < |q| && q[k] == x && x !in q[..k]
    ensures Remove(q, x) == q[..k] + q[k + 1..]
  {
    if k > 0 {
      assert q[0] in q[..k];
      var t := q[1..];
      assert t[..k - 1] == q[..k][1..];
      RemoveAt(t, x, k - 1);
      assert [q[0]] + t[..k - 1] == q[..k];
    }
  }

  lemma DistinctSplit<T>(q: seq<T>, x: T) returns (k: nat)
    requires Distinct(q) && x in q
    ensures k < |q| && q[k] == x && x !in q[..k] && x !in q[k + 1..]
    ensures Remove(q, x) == q[..k] + q[k + 1..]
  {
    k :| k < |q| && q[k] == x;
    RemoveAt(q, x, k);
  }

  lemma DistinctAppend<T>(q: seq<T>, x: T)
    requires Distinct(q) && x !in q
    ensures Distinct(q + [x]) && Distinct([x] + q)
  {
  }

  /** A list of `n` different numbers below `n` holds every number below `n`. */
  lemma {:induction false} Pigeonhole(q: seq<nat>, n: nat)
    requires Distinct(q) && |q| == n
    requires forall x :: x in q ==> x < n
    ensures forall x: nat :: x < n ==> x in q
    decreases n
  {
    if n > 0 {
      var top: nat := n - 1;
      if top !in q {
        // n different numbers below n - 1: too many.
        assert q[0] in q && q[0] !in q[1..] && forall x :: x in q[1..] ==> x in q;
        Pigeonhole(q[1..], top);
        assert false;
      } else {
        RemoveDistinct(q, top);
        Pigeonhole(Remove(q, top), top);
      }
    }
  }

  ghost function ToSet<T(!new)>(q: seq<T>): (r: set<T>)
    ensures forall x :: x in r <==> x in q
  {
    set x | x in q
  }

  lemma {:induction false} DistinctCard<T(!new)>(q: seq<T>)
    requires Distinct(q)
    ensures |ToSet(q)| == |q|
  {
    if q == [] {
      assert ToSet(q) == {};
    } else {
      var t := q[..|q| - 1];
      DistinctCard(t);
      assert ToSet(q) == ToSet(t) + {q[|q| - 1]};
      assert q[|q| - 1] !in ToSet(t);
    }
  }

  lemma {:induction false} DistinctCount<T>(q: seq<T>, x: T)
    requires Distinct(q)
    ensures multiset(q)[x] == if x in q then 1 else 0
  {
    if q != [] {
      assert q == [q[0]] + q[1..];
      DistinctCount(q[1..], x);
    }
  }

  lemma {:induction false} SubsetCard<T>(a: set<T>, b: set<T>)
    requires a <= b
    ensures |a| <= |b|
    decreases a
  {
    if a != {} {
      var x :| x in a;
      SubsetCard(a - {x}, b - {x});
    }
  }
}
