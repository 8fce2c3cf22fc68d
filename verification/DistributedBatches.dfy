/** The batch samplers behind the distributed wrapper (mmcrawler_datasets/sampling.py:332-375): how
    many batches a rank gets in terms of the records, and which records reach some rank. */
module DistributedBatches {
  import opened Batching
  import opened DistributedSampling
  import Arithmetic
  import HardNegatives
  import TaskBatches

  /** Record i is in a batch of some rank. */
  ghost predicate Delivered(ranks: seq<seq<seq<nat>>>, i: nat) {
    exists r, k :: 0 <= r < |ranks| && 0 <= k < |ranks[r]| && i in ranks[r][k]
  }

  lemma {:induction false} InSomeBatch(batches: seq<seq<nat>>, i: nat)
    ensures i in Flatten(batches) <==> exists k :: 0 <= k < |batches| && i in batches[k]
  {
    if batches != [] {
      InSomeBatch(batches[1..], i);
      if k :| 0 <= k < |batches[1..]| && i in batches[1..][k] { assert i in batches[k + 1]; }
      if k :| 0 < k < |batches| && i in batches[k] { assert i in batches[1..][k - 1]; }
    }
  }

  /** Without `drop_last` every batch is handed to the rank of its position. */
  lemma BatchDelivered(batches: seq<seq<nat>>, replicas: nat, ranks: seq<seq<seq<nat>>>, k: nat)
    requires replicas > 0 && AllRanks(batches, replicas, false, ranks) && k < |batches|
    ensures k / replicas < |ranks[k % replicas]| && ranks[k % replicas][k / replicas] == batches[k]
  {
    hide IsRankSlice, RankLength, TotalSize;
    TotalFits(|batches|, replicas, false);
    TotalIsWholeTurns(|batches|, replicas, false);
    Split(k, replicas, RankLength(|batches|, replicas, false));
    assert IsRankSlice(batches, replicas, k % replicas, false, ranks[k % replicas]);
    SliceAt(batches, replicas, k % replicas, ranks[k % replicas], k / replicas);
    Small(k, |batches|);
  }

  lemma SliceAt(batches: seq<seq<nat>>, replicas: nat, rank: nat, items: seq<seq<nat>>, turn: nat)
    requires replicas > 0 && IsRankSlice(batches, replicas, rank, false, items)
    requires turn < RankLength(|batches|, replicas, false) && batches != []
    ensures turn < |items| && items[turn] == batches[(rank + turn * replicas) % |batches|]
  {}

  lemma RecordDelivered(batches: seq<seq<nat>>, replicas: nat, ranks: seq<seq<seq<nat>>>, i: nat)
    requires replicas > 0 && AllRanks(batches, replicas, false, ranks) && i in Flatten(batches)
    ensures Delivered(ranks, i)
  {
    hide Flatten, IsRankSlice;
    InSomeBatch(batches, i);
    var k :| 0 <= k < |batches| && i in batches[k];
    BatchDelivered(batches, replicas, ranks, k);
  }

  lemma WholeTurns(n: nat, replicas: nat)
    requires replicas > 0 && n % replicas == 0
    ensures RankLength(n, replicas, false) == n / replicas && TotalSize(n, replicas, false) == n
  {
    Arithmetic.QuotientIs(n + replicas - 1, replicas, n / replicas);
  }

  /** When the ranks divide the number of batches, going round them gives the batches back. */
  lemma RoundsAreBatches(batches: seq<seq<nat>>, replicas: nat, ranks: seq<seq<seq<nat>>>)
    requires replicas > 0 && AllRanks(batches, replicas, false, ranks) && |batches| % replicas == 0
    ensures forall r :: 0 <= r < |ranks| ==> |ranks[r]| == |batches| / replicas
    ensures Interleaved(ranks, |batches| / replicas) == batches
  {
    hide Interleaved, RankLength, TotalSize;
    WholeTurns(|batches|, replicas);
    RanksInterleave(batches, replicas, false, ranks);
    var all := Interleaved(ranks, |batches| / replicas);
    forall p | 0 <= p < |batches| ensures all[p] == batches[p] { Small(p, |batches|); }
  }

  /** Every rank makes this many turns, and together they hand out the first n records once each. */
  ghost predicate OnceEach(ranks: seq<seq<seq<nat>>>, turns: nat, n: nat) {
    && (forall r :: 0 <= r < |ranks| ==> |ranks[r]| == turns)
    && multiset(Flatten(Interleaved(ranks, turns))) == multiset(Range(n))
  }

  lemma AllDelivered(batches: seq<seq<nat>>, n: nat, replicas: nat, ranks: seq<seq<seq<nat>>>)
    requires replicas > 0 && AllRanks(batches, replicas, false, ranks)
      && multiset(Flatten(batches)) == multiset(Range(n))
    ensures forall i: nat :: i < n ==> Delivered(ranks, i)
    ensures |batches| % replicas == 0 ==> OnceEach(ranks, |batches| / replicas, n)
  {
    hide AllRanks, Flatten, Interleaved, Delivered;
    forall i: nat | i < n ensures Delivered(ranks, i) {
      assert Range(n)[i] == i && i in multiset(Range(n));
      assert i in multiset(Flatten(batches));
      RecordDelivered(batches, replicas, ranks, i);
    }
    if |batches| % replicas == 0 {
      RoundsAreBatches(batches, replicas, ranks);
    }
  }

  /** `batches` of n records over ranks: every rank gets the advertised number; if nothing is
      dropped, every record reaches some rank, and exactly once when the ranks divide the batches. */
  ghost predicate SpreadOut(ranks: seq<seq<seq<nat>>>, batches: nat, n: nat, replicas: nat, dropLast: bool,
                            rankDropLast: bool)
    requires replicas > 0
  {
    && |ranks| == replicas
    && (forall r :: 0 <= r < replicas ==> |ranks[r]| == RankLength(batches, replicas, rankDropLast))
    && (!dropLast && !rankDropLast ==>
          && (forall i: nat :: i < n ==> Delivered(ranks, i))
          && (batches % replicas == 0 ==> OnceEach(ranks, batches / replicas, n)))
  }

  lemma Spread(batches: seq<seq<nat>>, n: nat, replicas: nat, dropLast: bool, rankDropLast: bool,
               ranks: seq<seq<seq<nat>>>)
    requires replicas > 0 && AllRanks(batches, replicas, rankDropLast, ranks)
    requires !dropLast ==> multiset(Flatten(batches)) == multiset(Range(n))
    ensures SpreadOut(ranks, |batches|, n, replicas, dropLast, rankDropLast)
  {
    hide RankLength, Flatten, Delivered, OnceEach;
    if !dropLast && !rankDropLast {
      AllDelivered(batches, n, replicas, ranks);
    }
  }

  /** The hard-negative batches over ranks. */
  lemma HardNegativeRanks(order: seq<nat>, n: nat, negatives: HardNegatives.Negatives, size: nat, dropLast: bool,
                          batches: seq<seq<nat>>, replicas: nat, rankDropLast: bool, ranks: seq<seq<seq<nat>>>)
    requires size > 0 && replicas > 0 && Permutation(order, n) && HardNegatives.InRange(negatives, n)
    requires batches == Yielded(HardNegatives.Schedule(order, {}, negatives, size), size, dropLast)
    requires AllRanks(batches, replicas, rankDropLast, ranks)
    ensures SpreadOut(ranks, Length(n, size, dropLast), n, replicas, dropLast, rankDropLast)
  {
    hide HardNegatives.Schedule, Yielded, HardNegatives.InRange, AllRanks, Length, Flatten, SpreadOut;
    HardNegatives.LengthIsExact(order, n, negatives, size, dropLast);
    if !dropLast {
      HardNegatives.EveryIndexOnce(order, n, negatives, size);
    }
    Spread(batches, n, replicas, dropLast, rankDropLast, ranks);
  }

  /** The batches of the task sampler. */
  ghost predicate Scheduled(keys: seq<TaskBatches.Key>, shuffled: seq<TaskBatches.Key>,
                            arranged: map<TaskBatches.Key, seq<nat>>, curriculum: seq<string>, size: nat,
                            dropLast: bool, batches: seq<seq<nat>>)
  {
    && size > 0 && TaskBatches.Lists(keys, shuffled) && TaskBatches.Arranged(keys, arranged)
    && var ordered := TaskBatches.OrderedKeys(curriculum, shuffled);
       && (forall key :: key in ordered ==> key in arranged)
       && batches == TaskBatches.Schedule(ordered, arranged, size, dropLast)
  }

  lemma ScheduledFacts(keys: seq<TaskBatches.Key>, shuffled: seq<TaskBatches.Key>,
                       arranged: map<TaskBatches.Key, seq<nat>>, curriculum: seq<string>, size: nat, dropLast: bool,
                       batches: seq<seq<nat>>)
    requires Scheduled(keys, shuffled, arranged, curriculum, size, dropLast, batches)
    ensures size > 0 && |batches| == TaskBatches.TotalLength(keys, shuffled, size, dropLast)
    ensures !dropLast ==> multiset(Flatten(batches)) == multiset(Range(|keys|))
  {
    hide TaskBatches.Schedule, TaskBatches.Lists, TaskBatches.Arranged, TaskBatches.OrderedKeys,
      TaskBatches.TotalLength, Flatten;
    TaskBatches.LengthIsExact(keys, shuffled, arranged, curriculum, size, dropLast);
    if !dropLast {
      TaskBatches.EveryIndexOnce(keys, shuffled, arranged, curriculum, size);
    }
  }

  /** The task batches over ranks. */
  lemma TaskRanks(keys: seq<TaskBatches.Key>, shuffled: seq<TaskBatches.Key>, arranged: map<TaskBatches.Key, seq<nat>>,
                  curriculum: seq<string>, size: nat, dropLast: bool, batches: seq<seq<nat>>, replicas: nat,
                  rankDropLast: bool, ranks: seq<seq<seq<nat>>>)
    requires Scheduled(keys, shuffled, arranged, curriculum, size, dropLast, batches)
    requires size > 0 && replicas > 0 && AllRanks(batches, replicas, rankDropLast, ranks)
    ensures SpreadOut(ranks, TaskBatches.TotalLength(keys, shuffled, size, dropLast), |keys|, replicas, dropLast,
                      rankDropLast)
  {
    hide Scheduled, AllRanks, TaskBatches.TotalLength, Flatten, SpreadOut;
    ScheduledFacts(keys, shuffled, arranged, curriculum, size, dropLast, batches);
    Spread(batches, |keys|, replicas, dropLast, rankDropLast, ranks);
  }
}
