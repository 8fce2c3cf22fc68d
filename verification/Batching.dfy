/** What both batch samplers share: `drop_last`, the advertised length, and indices in batches
    (mmcrawler_datasets/sampling.py:85-91, 155-173). */
module Batching {
  import Arithmetic
  import Sorting

  /** `drop_last` keeps full batches only. */
  function Yielded(batches: seq<seq<nat>>, size: nat, dropLast: bool): seq<seq<nat>> {
    if batches == [] then []
    else (if |batches[0]| == size || !dropLast then [batches[0]] else []) + Yielded(batches[1..], size, dropLast)
  }

  function Length(n: nat, size: nat, dropLast: bool): nat
    requires size > 0
  {
    if dropLast then n / size else (n + size - 1) / size
  }

  function Flatten(batches: seq<seq<nat>>): seq<nat> {
    if batches == [] then [] else batches[0] + Flatten(batches[1..])
  }

  lemma FlattenStep(batch: seq<nat>, later: seq<seq<nat>>)
    ensures Flatten([batch] + later) == batch + Flatten(later)
  {
    assert ([batch] + later)[1..] == later;
  }

  function Range(n: nat): (r: seq<nat>)
    ensures |r| == n && forall i :: 0 <= i < n ==> r[i] == i
  {
    seq(n, i requires 0 <= i < n => i)
  }

  ghost predicate Permutation(order: seq<nat>, n: nat) { multiset(order) == multiset(Range(n)) }

  lemma {:induction false} AllYielded(batches: seq<seq<nat>>, size: nat)
    ensures Yielded(batches, size, false) == batches
  {
    if batches != [] { AllYielded(batches[1..], size); }
  }

  lemma YieldedFirst(batches: seq<seq<nat>>, size: nat)
    requires batches != []
    ensures var later := Yielded(batches[1..], size, true);
      Yielded(batches, size, true) == if |batches[0]| == size then [batches[0]] + later else later
  {}

  lemma FlattenMembers(batch: seq<nat>, later: seq<seq<nat>>)
    ensures multiset(Flatten([batch] + later)) == multiset(batch) + multiset(Flatten(later))
    ensures |Flatten([batch] + later)| == |batch| + |Flatten(later)|
  {
    FlattenStep(batch, later);
  }

  /** What `drop_last` yields was there before. */
  lemma {:induction false} FullBatchesWithin(batches: seq<seq<nat>>, size: nat)
    ensures multiset(Flatten(Yielded(batches, size, true))) <= multiset(Flatten(batches))
  {
    if batches != [] {
      hide Yielded, Flatten;
      FullBatchesWithin(batches[1..], size);
      YieldedFirst(batches, size);
      assert batches == [batches[0]] + batches[1..];
      FlattenMembers(batches[0], batches[1..]);
      FlattenMembers(batches[0], Yielded(batches[1..], size, true));
    }
  }

  /** And every batch of it is full. */
  lemma {:induction false} FullBatchesSize(batches: seq<seq<nat>>, size: nat)
    ensures |Flatten(Yielded(batches, size, true))| == size * |Yielded(batches, size, true)|
  {
    if batches != [] {
      hide Yielded, Flatten;
      FullBatchesSize(batches[1..], size);
      YieldedFirst(batches, size);
      var later := Yielded(batches[1..], size, true);
      FlattenMembers(batches[0], later);
      OneBatchMore(size, |later|);
    }
  }

  lemma OneBatchMore(size: nat, k: nat)
    ensures size * (k + 1) == size + size * k
  {}

  lemma KeptCount(n: nat, kept: nat, size: nat)
    requires size > 0 && kept == size * (n / size)
    ensures n - kept == n % size < size
  {}

  lemma OneMore(m: nat, size: nat)
    requires size > 0
    ensures (size + m) / size == 1 + m / size && (size + m + size - 1) / size == 1 + (m + size - 1) / size
  {
    Arithmetic.AddOneTurn(m, size);
    Arithmetic.AddOneTurn(m + size - 1, size);
    assert size + m == m + size && size + m + size - 1 == (m + size - 1) + size;
  }

  lemma SmallQuotient(k: nat, size: nat)
    requires k < size
    ensures k / size == 0 && (k + size - 1) / size == if k == 0 then 0 else 1
  {}

  lemma JoinDistinct(a: seq<nat>, b: seq<nat>, r: seq<nat>)
    requires Sorting.Distinct(a) && Sorting.Distinct(b) && forall x :: x in b ==> x !in a
    requires |a| <= |r| && r[..|a|] == a && r[|a|..] == b
    ensures Sorting.Distinct(r) && Sorting.Elements(r) == Sorting.Elements(a) + Sorting.Elements(b)
  {
    assert r == a + b;
    forall i, j | 0 <= i < j < |r| ensures r[i] != r[j] {
      if i < |a| <= j { assert r[j] in b; }
    }
  }
}
