/**
  Results gathered in completion order. A thread pool's `as_completed`
  yields tasks in an order the program does not control; the loops of
  this model pick the next finished task nondeterministically and record
  that order. These lemmas show that the gathered results, compared as
  multisets, do not depend on the order.
 */
module CompletionOrder {

  /** The results of tasks `order[0]`, `order[1]`, … concatenated in that order. */
  function Gathered<T>(order: seq<nat>, result: nat -> seq<T>): seq<T>
  {
    if order == [] then [] else result(order[0]) + Gathered(order[1..], result)
  }

  /** Tasks `0 .. n-1` in submission order. */
  function Submitted(n: nat): (r: seq<nat>)
    ensures |r| == n
    ensures forall i :: 0 <= i < n ==> r[i] == i
  {
    seq(n, i => i)
  }

  lemma {:induction false} GatheredAppend<T>(a: seq<nat>, b: seq<nat>, result: nat -> seq<T>)
    ensures Gathered(a + b, result) == Gathered(a, result) + Gathered(b, result)
    decreases |a|
  {
    if a == [] {
      assert a + b == b;
    } else {
      assert (a + b)[1..] == a[1..] + b;
      GatheredAppend(a[1..], b, result);
    }
  }

  /** Gathering in any permutation of an order gives the same multiset of results. */
  lemma {:induction false} GatheredPermutation<T>(a: seq<nat>, b: seq<nat>, result: nat -> seq<T>)
    requires multiset(a) == multiset(b)
    ensures multiset(Gathered(a, result)) == multiset(Gathered(b, result))
    decreases |a|
  {
    if a == [] {
      assert |b| == |multiset(b)| == 0;
    } else {
      var x := a[0];
      assert x in multiset(b);
      var i :| 0 <= i < |b| && b[i] == x;
      var rest := b[..i] + b[i + 1..];
      RemoveAt(a, b, i);
      GatheredPermutation(a[1..], rest, result);
      assert b == b[..i] + ([x] + b[i + 1..]);
      GatheredAppend(b[..i], [x] + b[i + 1..], result);
      GatheredAppend([x], b[i + 1..], result);
      GatheredAppend(b[..i], b[i + 1..], result);
      assert Gathered([x], result) == result(x);
    }
  }

  /** Taking the first element of `a` out of `b` at a position where it occurs keeps the two equal as multisets. */
  lemma RemoveAt(a: seq<nat>, b: seq<nat>, i: nat)
    requires |a| >= 1 && i < |b| && b[i] == a[0]
    requires multiset(a) == multiset(b)
    ensures multiset(a[1..]) == multiset(b[..i] + b[i + 1..])
  {
    assert a == [a[0]] + a[1..];
    assert b == b[..i] + [b[i]] + b[i + 1..];
    assert multiset(a) == multiset{a[0]} + multiset(a[1..]);
    assert multiset(b) == multiset(b[..i]) + multiset{b[i]} + multiset(b[i + 1..]);
    assert multiset(b[..i] + b[i + 1..]) == multiset(b[..i]) + multiset(b[i + 1..]);
    var x := multiset{a[0]};
    calc {
      multiset(a[1..]) + x;
      multiset(a);
      multiset(b);
      multiset(b[..i]) + x + multiset(b[i + 1..]);
      multiset(b[..i] + b[i + 1..]) + x;
    }
    assert multiset(a[1..]) == multiset(a[1..]) + x - x;
    assert multiset(b[..i] + b[i + 1..]) == multiset(b[..i] + b[i + 1..]) + x - x;
  }

  /** One more finished task extends the gathered results. */
  lemma GatheredSnoc<T>(order: seq<nat>, k: nat, result: nat -> seq<T>)
    ensures Gathered(order + [k], result) == Gathered(order, result) + result(k)
  {
    GatheredAppend(order, [k], result);
    assert Gathered([k], result) == result(k);
  }

  /** Moving a finished task from the pending set to the completion order keeps the tally of all tasks. */
  lemma Complete(order: seq<nat>, pending: set<nat>, k: nat)
    requires k in pending
    ensures multiset(order + [k]) + multiset(pending - {k}) == multiset(order) + multiset(pending)
  {
    assert multiset(pending) == multiset(pending - {k}) + multiset{k};
  }

  /** Completing one pending task keeps `pending` and `done` a partition of all tasks. */
  lemma TakeOne<T>(pending: set<T>, done: set<T>, all: set<T>, x: T)
    requires pending + done == all && pending !! done
    requires x in pending
    ensures (pending - {x}) + (done + {x}) == all && (pending - {x}) !! (done + {x})
    ensures |pending - {x}| < |pending|
  {
  }

  /** The indices still pending at the start: every submitted task, once. */
  lemma SubmittedAsSet(n: nat)
    ensures multiset(set k | k in Submitted(n)) == multiset(Submitted(n))
  {
    var s := set k | k in Submitted(n);
    forall k ensures multiset(s)[k] == multiset(Submitted(n))[k] {
      if k in s {
        assert Submitted(n)[k] == k;
        DistinctCount(Submitted(n), k);
      } else {
        assert k !in Submitted(n);
      }
    }
  }

  lemma {:induction false} DistinctCount(order: seq<nat>, k: nat)
    requires forall i, j :: 0 <= i < j < |order| ==> order[i] != order[j]
    requires k in order
    ensures multiset(order)[k] == 1
    decreases |order|
  {
    assert order == [order[0]] + order[1..];
    if order[0] == k {
      assert k !in order[1..];
    } else {
      DistinctCount(order[1..], k);
    }
  }
}
