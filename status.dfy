/** The three outcome counters of a restore job (class Status of unarchive.py). */
module Status {

  /** The value of a Status: what restore_object returns for one object, and the job's totals. */
  datatype Tally = Tally(error: int, restored: int, alreadyRestored: int) {

    /** Adds every counter of `other` to the matching counter of this one. */
    function Plus(other: Tally): Tally {
      Tally(error + other.error, restored + other.restored, alreadyRestored + other.alreadyRestored)
    }

    /** The number of outcomes this tally records. */
    function Count(): int {
      error + restored + alreadyRestored
    }
  }

  const Zero := Tally(0, 0, 0)

  lemma {:induction false} PlusAssociative(x: Tally, y: Tally, z: Tally)
    ensures x.Plus(y).Plus(z) == x.Plus(y.Plus(z))
  {
  }

  /** The outcome of one object: exactly one counter is 1. */
  predicate IsOutcome(t: Tally) {
    t == Tally(1, 0, 0) || t == Tally(0, 1, 0) || t == Tally(0, 0, 1)
  }

  /** The counters reached by adding `ts` to a zero Status, one after the other. */
  function Sum(ts: seq<Tally>): Tally {
    if ts == [] then Zero else Sum(ts[..|ts| - 1]).Plus(ts[|ts| - 1])
  }

  lemma {:induction false} SumAppend(a: seq<Tally>, b: seq<Tally>)
    ensures Sum(a + b) == Sum(a).Plus(Sum(b))
    decreases |b|
  {
    if b == [] {
      assert a + b == a;
    } else {
      assert (a + b)[..|a + b| - 1] == a + b[..|b| - 1];
      SumAppend(a, b[..|b| - 1]);
    }
  }

  /** Adding outcomes only: the totals count one per outcome, split by kind. */
  lemma {:induction false} SumOfOutcomes(ts: seq<Tally>)
    requires forall i :: 0 <= i < |ts| ==> IsOutcome(ts[i])
    ensures Sum(ts).Count() == |ts|
    ensures 0 <= Sum(ts).error && 0 <= Sum(ts).restored && 0 <= Sum(ts).alreadyRestored
  {
    if ts != [] {
      SumOfOutcomes(ts[..|ts| - 1]);
    }
  }

  /** The tally at position `i`, or no outcome at all when there is no task `i`. */
  function At(ts: seq<Tally>, i: nat): Tally {
    if i < |ts| then ts[i] else Zero
  }

  /** The counters reached by adding the tallies of `ts` in the order `order` gives. */
  function SumInOrder(ts: seq<Tally>, order: seq<nat>): Tally {
    if order == [] then Zero
    else SumInOrder(ts, order[..|order| - 1]).Plus(At(ts, order[|order| - 1]))
  }

  /** The positions 0 .. n-1 in increasing order: submission order. */
  function Range(n: nat): (r: seq<nat>)
    ensures |r| == n && forall k :: 0 <= k < n ==> r[k] == k
  {
    seq(n, k => k)
  }

  lemma {:induction false} SumInOrderAppend(ts: seq<Tally>, a: seq<nat>, b: seq<nat>)
    ensures SumInOrder(ts, a + b) == SumInOrder(ts, a).Plus(SumInOrder(ts, b))
    decreases |b|
  {
    if b == [] {
      assert a + b == a;
      assert SumInOrder(ts, b) == Zero;
    } else {
      var b', x := b[..|b| - 1], b[|b| - 1];
      assert (a + b)[..|a + b| - 1] == a + b';
      assert (a + b)[|a + b| - 1] == x;
      SumInOrderAppend(ts, a, b');
      assert SumInOrder(ts, a + b) == SumInOrder(ts, a + b').Plus(At(ts, x));
      assert SumInOrder(ts, b) == SumInOrder(ts, b').Plus(At(ts, x));
      PlusAssociative(SumInOrder(ts, a), SumInOrder(ts, b'), At(ts, x));
    }
  }

  /** Adding the tasks in submission order gives their sum. */
  lemma {:induction false} SumInSubmissionOrder(ts: seq<Tally>, m: nat)
    requires m <= |ts|
    ensures SumInOrder(ts, Range(m)) == Sum(ts[..m])
  {
    if m > 0 {
      assert Range(m)[..m - 1] == Range(m - 1);
      assert ts[..m][..m - 1] == ts[..m - 1];
      SumInSubmissionOrder(ts, m - 1);
    }
  }

  lemma {:induction false} MultisetRemove(o: seq<nat>, i: nat)
    requires i < |o|
    ensures multiset(o[..i] + o[i + 1..]) == multiset(o) - multiset{o[i]}
  {
    assert o == o[..i] + [o[i]] + o[i + 1..];
  }

  /** Taking one position out of the middle of an order takes its tally out of the sum. */
  lemma {:induction false} SumInOrderRemove(ts: seq<Tally>, o: seq<nat>, i: nat)
    requires i < |o|
    ensures SumInOrder(ts, o) == SumInOrder(ts, o[..i] + o[i + 1..]).Plus(At(ts, o[i]))
  {
    var a, b := o[..i], o[i + 1..];
    assert o == (a + [o[i]]) + b;
    SumInOrderAppend(ts, a + [o[i]], b);
    SumInOrderAppend(ts, a, [o[i]]);
    SumInOrderAppend(ts, a, b);
    assert SumInOrder(ts, [o[i]]) == At(ts, o[i]) by { assert [o[i]][..0] == []; }
  }

  /**
   * The totals do not depend on the order in which outcomes are added: any two orders
   * that add each position equally often give the same counters.
   */
  lemma {:induction false} OrderIrrelevant(ts: seq<Tally>, order: seq<nat>, order': seq<nat>)
    requires multiset(order) == multiset(order')
    ensures SumInOrder(ts, order) == SumInOrder(ts, order')
    decreases |order|
  {
    if order != [] {
      var i := Match(order, order');
      OrderIrrelevant(ts, order[1..], order'[..i] + order'[i + 1..]);
      SumInOrderRemove(ts, order, 0);
      assert order[..0] + order[1..] == order[1..];
      SumInOrderRemove(ts, order', i);
    } else {
      assert |order'| == |multiset(order')| == 0;
    }
  }

  /** Where the first position of `order` sits in a reordering of it, and what is left. */
  lemma {:induction false} Match(order: seq<nat>, order': seq<nat>) returns (i: nat)
    requires order != [] && multiset(order) == multiset(order')
    ensures i < |order'| && order'[i] == order[0]
    ensures multiset(order[1..]) == multiset(order'[..i] + order'[i + 1..])
  {
    assert order[0] in multiset(order');
    i :| 0 <= i < |order'| && order'[i] == order[0];
    RemoveMatched(order, order', i);
  }

  /** Taking the same position value out of two reorderings of each other leaves reorderings. */
  lemma {:induction false} RemoveMatched(order: seq<nat>, order': seq<nat>, i: nat)
    requires order != [] && multiset(order) == multiset(order')
    requires i < |order'| && order'[i] == order[0]
    ensures multiset(order[1..]) == multiset(order'[..i] + order'[i + 1..])
  {
    MultisetRemove(order, 0);
    MultisetRemove(order', i);
    assert order[..0] + order[1..] == order[1..];
  }

  /** Adding the outcomes in any completion order gives the totals of submission order. */
  lemma {:induction false} CompletionOrderIrrelevant(ts: seq<Tally>, order: seq<nat>)
    requires multiset(order) == multiset(Range(|ts|))
    ensures SumInOrder(ts, order) == Sum(ts)
  {
    SumInSubmissionOrder(ts, |ts|);
    assert ts[..|ts|] == ts;
    OrderIrrelevant(ts, Range(|ts|), order);
  }

  /** The mutable job status of restore_objects. */
  class Status {
    var error: int
    var restored: int
    var alreadyRestored: int

    function Value(): Tally
      reads this
    {
      Tally(error, restored, alreadyRestored)
    }

    constructor (error: int, restored: int, alreadyRestored: int)
      ensures Value() == Tally(error, restored, alreadyRestored)
    {
      this.error := error;
      this.restored := restored;
      this.alreadyRestored := alreadyRestored;
    }

    method IncrementError(increment: int)
      modifies this
      ensures error == old(error) + increment
      ensures restored == old(restored) && alreadyRestored == old(alreadyRestored)
    {
      error := error + increment;
    }

    method IncrementRestored(increment: int)
      modifies this
      ensures restored == old(restored) + increment
      ensures error == old(error) && alreadyRestored == old(alreadyRestored)
    {
      restored := restored + increment;
    }

    method IncrementAlreadyRestored(increment: int)
      modifies this
      ensures alreadyRestored == old(alreadyRestored) + increment
      ensures error == old(error) && restored == old(restored)
    {
      alreadyRestored := alreadyRestored + increment;
    }

    /** The three increments restore_objects makes for one completed task. */
    method Add(result: Tally)
      modifies this
      ensures Value() == old(Value()).Plus(result)
    {
      IncrementError(result.error);
      IncrementAlreadyRestored(result.alreadyRestored);
      IncrementRestored(result.restored);
    }
  }
}
