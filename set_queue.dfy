/** The insertion-ordered, duplicate-free queue the master keeps its task ids in
    (a HashSetQueue: a hash set that remembers insertion order). Its value is the
    sequence of its elements, oldest first. */
module SetQueues {

  /** No element occurs twice. */
  ghost predicate NoDup<T>(q: seq<T>)
  {
    forall i, j :: 0 <= i < j < |q| ==> q[i] != q[j]
  }

  /** The elements of a queue, as a set. */
  function Elems<T>(q: seq<T>): set<T>
  {
    set y | y in q
  }

  lemma ElemsCons<T>(q: seq<T>)
    requires q != []
    ensures Elems(q) == {q[0]} + Elems(q[1..])
  {
    assert forall y :: y in q <==> y == q[0] || y in q[1..];
  }

  lemma Prepend<T>(a: T, q: seq<T>)
    ensures Elems([a] + q) == {a} + Elems(q)
    ensures NoDup(q) && a !in q ==> NoDup([a] + q)
  {
    ElemsCons([a] + q);
    assert ([a] + q)[1..] == q;
  }

  /** Appending an absent element keeps a queue duplicate-free. */
  lemma AppendFresh<T>(q: seq<T>, x: T)
    requires NoDup(q) && x !in q
    ensures NoDup(q + [x]) && Elems(q + [x]) == Elems(q) + {x}
  {
  }

  /** A duplicate-free queue has as many elements as entries. */
  lemma {:induction false} ElemsCard<T>(q: seq<T>)
    requires NoDup(q)
    ensures |Elems(q)| == |q|
  {
    if q != [] {
      ElemsCard(q[1..]);
      ElemsCons(q);
      assert q[0] !in Elems(q[1..]);
    }
  }

  /** add: appends x unless it is already present, in which case nothing changes. */
  function Add<T(==)>(q: seq<T>, x: T): (r: seq<T>)
    ensures NoDup(q) ==> NoDup(r)
    ensures Elems(r) == Elems(q) + {x}
    ensures x !in q ==> |r| == |q| + 1 && r[..|q|] == q && r[|q|] == x
    ensures x in q ==> r == q
  {
    if x in q then q else q + [x]
  }

  /** remove: takes x out wherever it is; every other element keeps its relative order. */
  function Remove<T(==)>(q: seq<T>, x: T): (r: seq<T>)
    ensures NoDup(q) ==> NoDup(r)
    ensures Elems(r) == Elems(q) - {x}
    ensures x !in q ==> r == q
    ensures NoDup(q) && x in q ==> |r| == |q| - 1
  {
    if q == [] then []
    else
      var rest := Remove(q[1..], x);
      ElemsCons(q);
      if q[0] == x then rest
      else
        assert NoDup(q) ==> q[0] !in Elems(q[1..]);
        Prepend(q[0], rest);
        [q[0]] + rest
  }

  /** Removing the oldest element of a duplicate-free queue is dropping its head. */
  lemma {:induction false} RemoveHead<T>(q: seq<T>)
    requires NoDup(q) && q != []
    ensures Remove(q, q[0]) == q[1..]
  {
    NotInRemove(q[1..], q[0]);
  }

  /** Removing an absent element changes nothing (stated for the recursion of RemoveHead). */
  lemma {:induction false} NotInRemove<T>(q: seq<T>, x: T)
    requires x !in q
    ensures Remove(q, x) == q
  {
    if q != [] {
      NotInRemove(q[1..], x);
    }
  }

  /** add, once per element of xs, in order. */
  function AddAll<T(==)>(q: seq<T>, xs: seq<T>): (r: seq<T>)
    ensures NoDup(q) ==> NoDup(r)
    ensures Elems(r) == Elems(q) + Elems(xs)
    ensures |r| >= |q| && r[..|q|] == q
  {
    if xs == [] then q
    else
      var init := xs[..|xs| - 1];
      assert Elems(xs) == Elems(init) + {xs[|xs| - 1]} by {
        assert xs == init + [xs[|xs| - 1]];
      }
      var prev := AddAll(q, init);
      assert prev[..|q|] == q;
      var r := Add(prev, xs[|xs| - 1]);
      assert r[..|q|] == prev[..|q|];
      r
  }

  /** One more element of xs: the step of a loop that adds xs in order. */
  lemma AddAllStep<T>(q: seq<T>, xs: seq<T>, i: nat)
    requires i < |xs|
    ensures AddAll(q, xs[..i + 1]) == Add(AddAll(q, xs[..i]), xs[i])
    ensures Elems(xs[..i + 1]) == Elems(xs[..i]) + {xs[i]}
  {
    assert xs[..i + 1][..i] == xs[..i];
    assert xs[..i + 1] == xs[..i] + [xs[i]];
  }
}
