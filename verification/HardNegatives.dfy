/** Batches that keep an anchor together with its hard negatives
    (mmcrawler_datasets/sampling.py:27-118). The shuffled order is any permutation. */
module HardNegatives {
  import opened Options
  import opened Batching
  import Sorting

  type Negatives = map<nat, seq<nat>>

  function NegativesOf(negatives: Negatives, anchor: nat): seq<nat> {
    if anchor in negatives then negatives[anchor] else []
  }

  // ---- the schedule as a function ----

  datatype Filling = Filling(batch: seq<nat>, used: set<nat>, rest: seq<nat>)

  /** Unused members of `queue`, in order, until the batch is full. */
  function Fill(batch: seq<nat>, used: set<nat>, queue: seq<nat>, size: nat): (f: Filling)
    ensures |f.rest| <= |queue|
    decreases |queue|
  {
    if queue == [] || |batch| >= size then Filling(batch, used, queue)
    else if queue[0] in used then Fill(batch, used, queue[1..], size)
    else Fill(batch + [queue[0]], used + {queue[0]}, queue[1..], size)
  }

  /** The anchor, then its negatives, then whatever comes next. */
  function Form(pending: seq<nat>, used: set<nat>, negatives: Negatives, size: nat): (f: Filling)
    requires pending != []
    ensures |f.rest| < |pending|
  {
    var near := Fill([pending[0]], used + {pending[0]}, NegativesOf(negatives, pending[0]), size);
    Fill(near.batch, near.used, pending[1..], size)
  }

  function Schedule(pending: seq<nat>, used: set<nat>, negatives: Negatives, size: nat): seq<seq<nat>>
    decreases |pending|
  {
    if pending == [] then []
    else if pending[0] in used then Schedule(pending[1..], used, negatives, size)
    else
      var f := Form(pending, used, negatives, size);
      [f.batch] + Schedule(f.rest, f.used, negatives, size)
  }

  // ---- the loops ----

  method Batches(order: seq<nat>, negatives: Negatives, size: nat, dropLast: bool) returns (batches: seq<seq<nat>>)
    requires size > 0
    ensures batches == Yielded(Schedule(order, {}, negatives, size), size, dropLast)
  {
    hide Form, Left;
    batches := [];
    var pending, used := order, {};
    while pending != []
      invariant batches + Left(pending, used, negatives, size, dropLast) == Left(order, {}, negatives, size, dropLast)
      decreases |pending|
    {
      YieldedStep(pending, used, negatives, size, dropLast);
      if pending[0] in used {
        pending := pending[1..];
        continue;
      }
      var batch;
      batch, used, pending := NextBatch(pending, used, negatives, size);
      if |batch| == size || !dropLast {
        batches := batches + [batch];
      }
    }
    NothingLeft(order, used, negatives, size, dropLast);
  }

  /** What is still to be yielded. */
  function Left(pending: seq<nat>, used: set<nat>, negatives: Negatives, size: nat, dropLast: bool): seq<seq<nat>> {
    Yielded(Schedule(pending, used, negatives, size), size, dropLast)
  }

  lemma NothingLeft(order: seq<nat>, used: set<nat>, negatives: Negatives, size: nat, dropLast: bool)
    ensures Left([], used, negatives, size, dropLast) == []
    ensures Left(order, {}, negatives, size, dropLast) == Yielded(Schedule(order, {}, negatives, size), size, dropLast)
  {}

  lemma YieldedStep(pending: seq<nat>, used: set<nat>, negatives: Negatives, size: nat, dropLast: bool)
    requires pending != []
    ensures var f := Form(pending, used, negatives, size);
      Left(pending, used, negatives, size, dropLast)
      == if pending[0] in used then Left(pending[1..], used, negatives, size, dropLast)
         else Yielded([f.batch], size, dropLast) + Left(f.rest, f.used, negatives, size, dropLast)
  {
    hide Form, Fill;
    var f := Form(pending, used, negatives, size);
    var later := Schedule(f.rest, f.used, negatives, size);
    assert ([f.batch] + later)[1..] == later;
  }

  /** One turn of the outer loop: the batch of the next unused anchor. */
  method NextBatch(queue: seq<nat>, before: set<nat>, negatives: Negatives, size: nat)
    returns (batch: seq<nat>, used: set<nat>, pending: seq<nat>)
    requires queue != []
    ensures Filling(batch, used, pending) == Form(queue, before, negatives, size)
  {
    ghost var formed := Form(queue, before, negatives, size);
    pending := queue[1..];
    batch, used := AddNegatives(queue[0], before, NegativesOf(negatives, queue[0]), size);
    while pending != [] && |batch| < size
      invariant Fill(batch, used, pending, size) == formed
      decreases |pending|
    {
      var candidate := pending[0];
      pending := pending[1..];
      if candidate in used {
        continue;
      }
      batch := batch + [candidate];
      used := used + {candidate};
    }
  }

  /** The inner loop over an anchor's negatives. */
  method AddNegatives(anchor: nat, before: set<nat>, indices: seq<nat>, size: nat)
    returns (batch: seq<nat>, used: set<nat>)
    ensures var f := Fill([anchor], before + {anchor}, indices, size); batch == f.batch && used == f.used
  {
    batch, used := [anchor], before + {anchor};
    ghost var filled := Fill(batch, used, indices, size);
    for i := 0 to |indices|
      invariant Fill(batch, used, indices[i..], size) == filled
    {
      if |batch| >= size {
        return;
      }
      assert indices[i..][1..] == indices[i + 1..];
      if indices[i] !in used {
        batch := batch + [indices[i]];
        used := used + {indices[i]};
      }
    }
  }

  // ---- what one filling does ----

  /** Filling appends new, distinct, unused members of the queue and marks exactly those used;
      it stops only when the batch is full or nothing unused is left. */
  lemma {:induction false} FillAppends(batch: seq<nat>, used: set<nat>, queue: seq<nat>, size: nat)
    requires |batch| <= size
    ensures var f := Fill(batch, used, queue, size);
      && |batch| <= |f.batch| <= size && f.batch[..|batch|] == batch
      && Sorting.Distinct(f.batch[|batch|..])
      && (forall x :: x in f.batch[|batch|..] ==> x in queue && x !in used)
      && f.used == used + Sorting.Elements(f.batch[|batch|..])
      && (|f.batch| < size ==> f.rest == [])
      && (forall x :: x in queue ==> x in f.used || x in f.rest)
      && (forall x :: x in f.rest ==> x in queue)
    decreases |queue|
  {
    var f := Fill(batch, used, queue, size);
    if queue != [] && |batch| < size {
      var x := queue[0];
      if x in used {
        FillAppends(batch, used, queue[1..], size);
      } else {
        FillAppends(batch + [x], used + {x}, queue[1..], size);
        TakenNext(batch, x, f.batch);
        DistinctPrepend(x, f.batch[|batch| + 1..]);
      }
    }
  }

  lemma TakenNext(batch: seq<nat>, x: nat, all: seq<nat>)
    requires |batch| < |all| && all[..|batch| + 1] == batch + [x]
    ensures all[..|batch|] == batch && all[|batch|..] == [x] + all[|batch| + 1..]
  {
    assert all[..|batch|] == all[..|batch| + 1][..|batch|];
    assert all[|batch|] == all[..|batch| + 1][|batch|];
  }

  lemma DistinctPrepend(x: nat, s: seq<nat>)
    requires Sorting.Distinct(s) && x !in s
    ensures Sorting.Distinct([x] + s) && Sorting.Elements([x] + s) == {x} + Sorting.Elements(s)
  {}

  // ---- what one batch is ----

  ghost predicate InRange(negatives: Negatives, n: nat) {
    forall a, x :: a in negatives && x in negatives[a] ==> x < n
  }

  /** Every index is used or still pending. */
  ghost predicate Accounted(pending: seq<nat>, used: set<nat>, n: nat) {
    && (forall x :: x in used || x in pending ==> x < n)
    && (forall x: nat :: x < n ==> x in used || x in pending)
  }

  /** A batch starts with the next unused index, takes unused negatives first, is distinct, and is
      full unless nothing is pending after it. */
  ghost predicate WellFormed(f: Filling, anchor: nat, used: set<nat>, negatives: Negatives, size: nat) {
    && 0 < |f.batch| <= size && f.batch[0] == anchor
    && Sorting.Distinct(f.batch)
    && (forall x :: x in f.batch ==> x !in used)
    && f.used == used + Sorting.Elements(f.batch)
    && (|f.batch| < size ==> f.rest == [])
    && NegativesFirst(f.batch, used, NegativesOf(negatives, anchor), size)
  }

  /** A negative is left out only if it was used before, or if the anchor and its other negatives
      already fill the batch. */
  ghost predicate NegativesFirst(batch: seq<nat>, used: set<nat>, near: seq<nat>, size: nat) {
    forall x :: x in near && x !in batch ==> x in used || (|batch| == size && AllFrom(batch, near))
  }

  ghost predicate AllFrom(batch: seq<nat>, near: seq<nat>) {
    forall i :: 0 < i < |batch| ==> batch[i] in near
  }

  lemma NearIsWellFormed(anchor: nat, used: set<nat>, negatives: Negatives, size: nat)
    requires size > 0 && anchor !in used
    ensures var near := NegativesOf(negatives, anchor);
      var f := Fill([anchor], used + {anchor}, near, size);
      && 0 < |f.batch| <= size && f.batch[0] == anchor && Sorting.Distinct(f.batch)
      && f.used == used + Sorting.Elements(f.batch)
      && (forall x :: x in f.batch ==> x !in used)
      && AllFrom(f.batch, near)
      && (|f.batch| < size ==> forall x :: x in near ==> x in f.used)
  {
    hide Fill;
    var near := NegativesOf(negatives, anchor);
    var f := Fill([anchor], used + {anchor}, near, size);
    FillAppends([anchor], used + {anchor}, near, size);
    assert f.batch[..1][0] == f.batch[0];
    var added := f.batch[1..];
    JoinDistinct([anchor], added, f.batch);
    forall x | x in f.batch ensures x !in used { if x != anchor { assert x in added; } }
    forall i | 0 < i < |f.batch| ensures f.batch[i] in near { assert f.batch[i] == added[i - 1]; }
  }

  lemma FormWellFormed(pending: seq<nat>, used: set<nat>, negatives: Negatives, size: nat)
    requires size > 0 && pending != [] && pending[0] !in used
    ensures WellFormed(Form(pending, used, negatives, size), pending[0], used, negatives, size)
  {
    hide Fill, AllFrom;
    var anchor := pending[0];
    var near := NegativesOf(negatives, anchor);
    var g := Fill([anchor], used + {anchor}, near, size);
    var f := Fill(g.batch, g.used, pending[1..], size);
    NearIsWellFormed(anchor, used, negatives, size);
    FillAppends(g.batch, g.used, pending[1..], size);
    var added := f.batch[|g.batch|..];
    JoinDistinct(g.batch, added, f.batch);
    assert f.batch[..|g.batch|][0] == f.batch[0];
    forall x | x in f.batch ensures x !in used { if x !in g.batch { assert x in added; } }
    if |g.batch| == size { assert f.batch == g.batch; }
  }

  /** Whoever is used after a filling was used before or was in the queue. */
  lemma FillWithin(batch: seq<nat>, used: set<nat>, queue: seq<nat>, size: nat)
    requires |batch| <= size
    ensures var f := Fill(batch, used, queue, size);
      && (forall x :: x in f.used ==> x in used || x in queue)
      && used <= f.used && (forall x :: x in queue ==> x in f.used || x in f.rest)
      && (forall x :: x in f.rest ==> x in queue) && |f.batch| <= size
  {
    hide Fill;
    FillAppends(batch, used, queue, size);
  }

  lemma NegativesInRange(negatives: Negatives, anchor: nat, n: nat)
    requires InRange(negatives, n)
    ensures forall x :: x in NegativesOf(negatives, anchor) ==> x < n
  {}

  /** Forming a batch loses no index. */
  lemma FormAccounted(pending: seq<nat>, used: set<nat>, negatives: Negatives, size: nat, n: nat)
    requires size > 0 && pending != [] && pending[0] !in used && Accounted(pending, used, n) && InRange(negatives, n)
    ensures var f := Form(pending, used, negatives, size); Accounted(f.rest, f.used, n)
  {
    hide Fill, InRange, NegativesOf;
    var anchor := pending[0];
    var near := NegativesOf(negatives, anchor);
    var g := Fill([anchor], used + {anchor}, near, size);
    NegativesInRange(negatives, anchor, n);
    FillWithin([anchor], used + {anchor}, near, size);
    FillWithin(g.batch, g.used, pending[1..], size);
    assert pending == [anchor] + pending[1..];
    assert forall x :: x in pending <==> x == anchor || x in pending[1..];
    var f := Form(pending, used, negatives, size);
    forall x: nat | x < n ensures x in f.used || x in f.rest { assert x in used || x in pending; }
    forall x | x in f.used || x in f.rest ensures x < n {
      assert x in used || x in pending || x in near;
    }
  }

  // ---- whole schedules ----

  /** Each batch is well formed for the indices that no earlier batch holds. */
  ghost predicate AllWellFormed(batches: seq<seq<nat>>, used: set<nat>, negatives: Negatives, size: nat) {
    batches != [] ==>
      && 0 < |batches[0]| <= size && (|batches| > 1 ==> |batches[0]| == size)
      && NegativesFirst(batches[0], used, NegativesOf(negatives, batches[0][0]), size)
      && AllWellFormed(batches[1..], used + Sorting.Elements(batches[0]), negatives, size)
  }

  lemma {:induction false} ScheduleWellFormed(pending: seq<nat>, used: set<nat>, negatives: Negatives, size: nat)
    requires size > 0
    ensures AllWellFormed(Schedule(pending, used, negatives, size), used, negatives, size)
    decreases |pending|
  {
    hide Form, NegativesFirst;
    if pending != [] {
      if pending[0] in used {
        ScheduleWellFormed(pending[1..], used, negatives, size);
      } else {
        FormWellFormed(pending, used, negatives, size);
        var f := Form(pending, used, negatives, size);
        ScheduleWellFormed(f.rest, f.used, negatives, size);
        var later := Schedule(f.rest, f.used, negatives, size);
        var all := [f.batch] + later;
        assert all[1..] == later && all[0] == f.batch;
        if |f.batch| < size { assert later == []; }
      }
    }
  }

  lemma {:induction false} SchedulePartitions(pending: seq<nat>, used: set<nat>, negatives: Negatives, size: nat,
                                              n: nat)
    requires size > 0 && Accounted(pending, used, n) && InRange(negatives, n)
    ensures var flat := Flatten(Schedule(pending, used, negatives, size));
      && Sorting.Distinct(flat)
      && (forall x :: x in flat ==> x < n && x !in used)
      && (forall x: nat :: x < n ==> x in used || x in flat)
    decreases |pending|
  {
    hide Form, NegativesFirst;
    if pending != [] {
      if pending[0] in used {
        assert pending == [pending[0]] + pending[1..];
        assert forall x :: x in pending <==> x == pending[0] || x in pending[1..];
        SchedulePartitions(pending[1..], used, negatives, size, n);
      } else {
        FormWellFormed(pending, used, negatives, size);
        FormAccounted(pending, used, negatives, size, n);
        var f := Form(pending, used, negatives, size);
        SchedulePartitions(f.rest, f.used, negatives, size, n);
        var later := Flatten(Schedule(f.rest, f.used, negatives, size));
        FlattenStep(f.batch, Schedule(f.rest, f.used, negatives, size));
        JoinDistinct(f.batch, later, f.batch + later);
        forall x | x in f.batch ensures x < n { assert x in f.used; }
      }
    }
  }

  lemma PermutationMembers(order: seq<nat>, n: nat)
    requires Permutation(order, n)
    ensures |order| == n && Sorting.Distinct(order)
    ensures forall x: nat :: x in order <==> x < n
    ensures Accounted(order, {}, n)
  {
    Sorting.SameMembers(order, Range(n));
    forall x: nat ensures x in order <==> x < n {
      if x < n { assert Range(n)[x] == x; }
    }
    Sorting.DistinctByCount(Range(n));
    Sorting.DistinctByCount(order);
  }

  /** Without `drop_last` the batches hold every index exactly once, whatever the order and the
      negatives. */
  lemma EveryIndexOnce(order: seq<nat>, n: nat, negatives: Negatives, size: nat)
    requires size > 0 && Permutation(order, n) && InRange(negatives, n)
    ensures multiset(Flatten(Yielded(Schedule(order, {}, negatives, size), size, false))) == multiset(order)
  {
    PermutationMembers(order, n);
    SchedulePartitions(order, {}, negatives, size, n);
    AllYielded(Schedule(order, {}, negatives, size), size);
    var flat := Flatten(Schedule(order, {}, negatives, size));
    forall x ensures x in flat <==> x in order {}
    Sorting.DistinctSameElements(flat, order);
  }

  // ---- counting ----

  lemma {:induction false} CountFromSizes(batches: seq<seq<nat>>, used: set<nat>, negatives: Negatives, size: nat)
    requires size > 0 && AllWellFormed(batches, used, negatives, size)
    ensures var n := |Flatten(batches)|;
      && |Yielded(batches, size, true)| == n / size
      && |Yielded(batches, size, false)| == (n + size - 1) / size
  {
    if batches != [] {
      var later := batches[1..];
      CountFromSizes(later, used + Sorting.Elements(batches[0]), negatives, size);
      var m := |Flatten(later)|;
      assert |Flatten(batches)| == |batches[0]| + m;
      if |batches[0]| == size {
        OneMore(m, size);
      } else {
        assert later == [];
        SmallQuotient(|batches[0]|, size);
      }
    } else {
      SmallQuotient(0, size);
    }
  }

  /** The number of batches yielded is the advertised length, for both settings of `drop_last`. */
  lemma LengthIsExact(order: seq<nat>, n: nat, negatives: Negatives, size: nat, dropLast: bool)
    requires size > 0 && Permutation(order, n) && InRange(negatives, n)
    ensures |Yielded(Schedule(order, {}, negatives, size), size, dropLast)| == Length(n, size, dropLast)
  {
    hide Permutation, InRange, Schedule, Yielded, Flatten, AllWellFormed;
    PermutationMembers(order, n);
    EveryIndexOnce(order, n, negatives, size);
    AllYielded(Schedule(order, {}, negatives, size), size);
    var flat := Flatten(Schedule(order, {}, negatives, size));
    Sorting.SameMembers(flat, order);
    ScheduleWellFormed(order, {}, negatives, size);
    CountFromSizes(Schedule(order, {}, negatives, size), {}, negatives, size);
  }

  /** With `drop_last` no index comes twice, and fewer indices than fill a batch are left out. */
  lemma FewDropped(order: seq<nat>, n: nat, negatives: Negatives, size: nat)
    requires size > 0 && Permutation(order, n) && InRange(negatives, n)
    ensures var kept := Flatten(Yielded(Schedule(order, {}, negatives, size), size, true));
      multiset(kept) <= multiset(Range(n)) && n - |kept| == n % size < size
  {
    hide Permutation, InRange, Schedule, Yielded, Flatten;
    var batches := Schedule(order, {}, negatives, size);
    PermutationOf(order, n);
    EveryIndexOnce(order, n, negatives, size);
    AllYielded(batches, size);
    FullBatchesWithin(batches, size);
    FullBatchesSize(batches, size);
    LengthIsExact(order, n, negatives, size, true);
    KeptCount(n, |Flatten(Yielded(batches, size, true))|, size);
  }

  lemma PermutationOf(order: seq<nat>, n: nat)
    requires Permutation(order, n)
    ensures multiset(order) == multiset(Range(n))
  {}

  lemma {:induction false} AtPosition(batches: seq<seq<nat>>, used: set<nat>, negatives: Negatives, size: nat, k: nat)
    requires AllWellFormed(batches, used, negatives, size) && k < |batches|
    ensures 0 < |batches[k]| <= size && (k < |batches| - 1 ==> |batches[k]| == size)
    ensures forall x :: x in NegativesOf(negatives, batches[k][0]) ==>
      || x in used || (exists j :: 0 <= j <= k && x in batches[j])
      || (|batches[k]| == size && AllFrom(batches[k], NegativesOf(negatives, batches[k][0])))
  {
    hide AllFrom;
    if k > 0 {
      var later := batches[1..];
      AtPosition(later, used + Sorting.Elements(batches[0]), negatives, size, k - 1);
      assert later[k - 1] == batches[k];
      forall j, x | 0 <= j <= k - 1 && x in later[j] ensures x in batches[j + 1] {}
    }
  }

  /** Every batch but the last is full. A negative of a batch's anchor is in the batch, unless an
      earlier batch took it or the batch is full of the anchor's other negatives. */
  lemma NegativesStayClose(order: seq<nat>, negatives: Negatives, size: nat, k: nat)
    requires size > 0 && k < |Schedule(order, {}, negatives, size)|
    ensures var batches := Schedule(order, {}, negatives, size);
      && 0 < |batches[k]| <= size && (k < |batches| - 1 ==> |batches[k]| == size)
      && var anchor := batches[k][0];
         forall x :: anchor in negatives && x in negatives[anchor] ==>
           || (exists j :: 0 <= j <= k && x in batches[j])
           || (|batches[k]| == size && forall i :: 0 < i < size ==> batches[k][i] in negatives[anchor])
  {
    ScheduleWellFormed(order, {}, negatives, size);
    AtPosition(Schedule(order, {}, negatives, size), {}, negatives, size, k);
  }

  // ---- resolving negative ids ----

  /** `supports` is whether the record's task is known and supports hard negatives. */
  datatype Ref = Ref(sampleId: string, positiveId: string, supports: bool, negativeIds: seq<string>)

  predicate Owns(ref: Ref, id: string) {
    ref.sampleId == id || (ref.positiveId != "" && ref.positiveId == id)
  }

  /** The last record that carries the id, as itself or as its positive. */
  function Owner(refs: seq<Ref>, id: string): (r: Option<nat>)
    ensures r.Some? ==> r.value < |refs| && Owns(refs[r.value], id)
    ensures forall i :: 0 <= i < |refs| && Owns(refs[i], id) ==> r.Some? && i <= r.value
  {
    if refs == [] then None
    else if Owns(refs[|refs| - 1], id) then Some(|refs| - 1)
    else Owner(refs[..|refs| - 1], id)
  }

  lemma OwnerStep(refs: seq<Ref>, i: nat, id: string)
    requires i < |refs|
    ensures Owner(refs[..i + 1], id) == if Owns(refs[i], id) then Some(i) else Owner(refs[..i], id)
    ensures Owner(refs[..0], id) == None
  {
    assert refs[..i + 1][..i] == refs[..i];
  }

  /** The map sends every id to its owner among the records. */
  ghost predicate Indexed(refs: seq<Ref>, index: map<string, nat>) {
    && (forall id :: id in index <==> Owner(refs, id).Some?)
    && (forall id :: id in index ==> Owner(refs, id) == Some(index[id]))
  }

  lemma IndexedNext(refs: seq<Ref>, i: nat, index: map<string, nat>, next: map<string, nat>)
    requires i < |refs| && Indexed(refs[..i], index)
    requires forall id :: id in next <==> id in index || Owns(refs[i], id)
    requires forall id :: id in next ==> next[id] == if Owns(refs[i], id) then i else index[id]
    ensures Indexed(refs[..i + 1], next)
  {
    hide Owner, Owns;
    forall id ensures Owner(refs[..i + 1], id) == if Owns(refs[i], id) then Some(i) else Owner(refs[..i], id) {
      OwnerStep(refs, i, id);
    }
  }

  lemma IndexedNone(refs: seq<Ref>)
    ensures Indexed(refs[..0], map[])
  {}

  method IndexIds(refs: seq<Ref>) returns (index: map<string, nat>)
    ensures forall id :: id in index <==> Owner(refs, id).Some?
    ensures forall id :: id in index ==> Owner(refs, id) == Some(index[id])
  {
    hide Owner, Indexed;
    index := map[];
    IndexedNone(refs);
    for i := 0 to |refs|
      invariant Indexed(refs[..i], index)
    {
      ghost var before := index;
      index := index[refs[i].sampleId := i];
      if refs[i].positiveId != "" {
        index := index[refs[i].positiveId := i];
      }
      IndexedNext(refs, i, before, index);
    }
    assert refs[..|refs|] == refs;
    IndexedMeans(refs, index);
  }

  lemma IndexedMeans(refs: seq<Ref>, index: map<string, nat>)
    requires Indexed(refs, index)
    ensures forall id :: id in index <==> Owner(refs, id).Some?
    ensures forall id :: id in index ==> Owner(refs, id) == Some(index[id])
  {
    hide Owner;
  }

  /** Some id resolves to x before any resolves to y. */
  ghost predicate Earlier(refs: seq<Ref>, ids: seq<string>, x: nat, y: nat) {
    exists m :: 0 <= m < |ids| && Owner(refs, ids[m]) == Some(x)
      && forall k :: 0 <= k <= m ==> Owner(refs, ids[k]) != Some(y)
  }

  ghost predicate InOrder(refs: seq<Ref>, ids: seq<string>, near: seq<nat>) {
    forall a, b :: 0 <= a < b < |near| ==> Earlier(refs, ids, near[a], near[b])
  }

  /** What `_index_negatives` must store for one record: each other record that one of its
      negative ids resolves to, once, in the order the ids first name them. */
  ghost predicate Resolved(refs: seq<Ref>, i: nat, near: seq<nat>)
    requires i < |refs|
  {
    && Sorting.Distinct(near) && InOrder(refs, refs[i].negativeIds, near)
    && forall x :: x in near <==>
         refs[i].supports && x != i && exists id :: id in refs[i].negativeIds && Owner(refs, id) == Some(x)
  }

  method IndexNegatives(refs: seq<Ref>) returns (negatives: Negatives)
    ensures forall i: nat :: i in negatives <==> i < |refs|
    ensures forall i: nat :: i < |refs| ==> Resolved(refs, i, negatives[i])
    ensures InRange(negatives, |refs|)
  {
    var index := IndexIds(refs);
    negatives := map[];
    for i := 0 to |refs|
      invariant forall j: nat :: j in negatives <==> j < i
      invariant forall j: nat :: j < i ==> Resolved(refs, j, negatives[j])
    {
      var near := [];
      if refs[i].supports {
        near := ResolveOthers(refs, i, index);
      }
      negatives := negatives[i := near];
    }
  }

  /** The distinct other records that the first k ids resolve to, in order of first mention. */
  ghost predicate FirstMentions(refs: seq<Ref>, ids: seq<string>, i: nat, k: nat, near: seq<nat>)
    requires k <= |ids|
  {
    && Sorting.Distinct(near) && InOrder(refs, ids, near)
    && forall x :: x in near <==> x != i && exists m :: 0 <= m < k && Owner(refs, ids[m]) == Some(x)
  }

  lemma NewMention(refs: seq<Ref>, ids: seq<string>, i: nat, k: nat, near: seq<nat>, x: nat)
    requires k < |ids| && FirstMentions(refs, ids, i, k, near)
    requires Owner(refs, ids[k]) == Some(x) && x != i && x !in near
    ensures FirstMentions(refs, ids, i, k + 1, near + [x])
  {
    hide Owner;
    forall a | 0 <= a < |near| ensures Earlier(refs, ids, near[a], x) {
      assert near[a] in near;
      var m :| 0 <= m < k && Owner(refs, ids[m]) == Some(near[a]);
    }
  }

  lemma NoMention(refs: seq<Ref>, ids: seq<string>, i: nat, k: nat, near: seq<nat>)
    requires k < |ids| && FirstMentions(refs, ids, i, k, near)
    requires Owner(refs, ids[k]).Some? ==> Owner(refs, ids[k]).value == i || Owner(refs, ids[k]).value in near
    ensures FirstMentions(refs, ids, i, k + 1, near)
  {
    hide Owner, Earlier;
  }

  method ResolveOthers(refs: seq<Ref>, i: nat, index: map<string, nat>) returns (near: seq<nat>)
    requires i < |refs| && refs[i].supports
    requires forall id :: id in index <==> Owner(refs, id).Some?
    requires forall id :: id in index ==> Owner(refs, id) == Some(index[id])
    ensures Resolved(refs, i, near)
  {
    hide Owner, Earlier, FirstMentions;
    var ids := refs[i].negativeIds;
    near := [];
    NothingMentioned(refs, ids, i);
    for k := 0 to |ids|
      invariant FirstMentions(refs, ids, i, k, near)
    {
      if ids[k] in index && index[ids[k]] != i && index[ids[k]] !in near {
        NewMention(refs, ids, i, k, near, index[ids[k]]);
        near := near + [index[ids[k]]];
      } else {
        NoMention(refs, ids, i, k, near);
      }
    }
    AllMentioned(refs, i, near);
  }

  lemma NothingMentioned(refs: seq<Ref>, ids: seq<string>, i: nat)
    ensures FirstMentions(refs, ids, i, 0, [])
  {}

  lemma AllMentioned(refs: seq<Ref>, i: nat, near: seq<nat>)
    requires i < |refs| && refs[i].supports
    requires FirstMentions(refs, refs[i].negativeIds, i, |refs[i].negativeIds|, near)
    ensures Resolved(refs, i, near)
  {
    hide Owner, Earlier;
  }
}
