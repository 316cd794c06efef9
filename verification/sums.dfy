/** Sums over sequences, and what reordering does to them. */
module Sums {

  function Sum<E>(gain: E -> real, events: seq<E>): (total: real) {
    if events == [] then 0.0 else Sum(gain, events[..|events| - 1]) + gain(events[|events| - 1])
  }

  lemma {:induction false} SumConcat<E>(gain: E -> real, a: seq<E>, b: seq<E>)
    ensures Sum(gain, a + b) == Sum(gain, a) + Sum(gain, b)
    decreases |b|
  {
    if b == [] {
      assert a + b == a;
    } else {
      assert (a + b)[..|a + b| - 1] == a + b[..|b| - 1];
      SumConcat(gain, a, b[..|b| - 1]);
    }
  }

  function Without<E>(events: seq<E>, i: nat): (rest: seq<E>)
    requires i < |events|
    ensures |rest| == |events| - 1
  {
    events[..i] + events[i + 1..]
  }

  lemma SplitAt<E>(events: seq<E>, i: nat)
    requires i < |events|
    ensures events == events[..i] + [events[i]] + events[i + 1..]
  {
  }

  lemma WithoutMultiset<E>(events: seq<E>, i: nat)
    requires i < |events|
    ensures multiset(Without(events, i)) == multiset(events) - multiset{events[i]}
  {
    SplitAt(events, i);
  }

  lemma SumSnoc<E>(gain: E -> real, events: seq<E>, last: E)
    ensures Sum(gain, events + [last]) == Sum(gain, events) + gain(last)
  {
    assert (events + [last])[..|events|] == events;
  }

  lemma SumInsert<E>(gain: E -> real, before: seq<E>, e: E, after: seq<E>)
    ensures Sum(gain, before + [e] + after) == Sum(gain, before + after) + gain(e)
  {
    SumConcat(gain, before + [e], after);
    SumConcat(gain, before, after);
    SumSnoc(gain, before, e);
  }

  lemma WithoutSum<E>(gain: E -> real, events: seq<E>, i: nat)
    requires i < |events|
    ensures Sum(gain, events) == Sum(gain, Without(events, i)) + gain(events[i])
  {
    hide Sum;
    SplitAt(events, i);
    SumInsert(gain, events[..i], events[i], events[i + 1..]);
  }

  lemma {:induction false} SumPermutes<E>(gain: E -> real, a: seq<E>, b: seq<E>)
    requires multiset(a) == multiset(b)
    ensures Sum(gain, a) == Sum(gain, b)
    decreases |a|
  {
    if a == [] {
      assert |b| == |multiset(b)| == 0;
    } else {
      assert a[0] in multiset(a);
      var i :| 0 <= i < |b| && b[i] == a[0];
      WithoutMultiset(a, 0);
      WithoutMultiset(b, i);
      WithoutSum(gain, a, 0);
      WithoutSum(gain, b, i);
      SumPermutes(gain, Without(a, 0), Without(b, i));
    }
  }
}
