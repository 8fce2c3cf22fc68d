/** Splitting the items of a sampler, or whole batches, over the ranks of a distributed run
    (mmcrawler_datasets/sampling.py:278-375). Both wrappers do the same thing to their source. */
module DistributedSampling {
  import Arithmetic

  function Ceiling(a: nat, b: nat): nat requires b > 0 { (a + b - 1) / b }

  function TotalSize(n: nat, replicas: nat, dropLast: bool): nat
    requires replicas > 0
  {
    if dropLast then n - n % replicas else Ceiling(n, replicas) * replicas
  }

  /** `__len__` of either wrapper, the same for every rank. */
  function RankLength(n: nat, replicas: nat, dropLast: bool): nat
    requires replicas > 0
  {
    if dropLast then n / replicas else Ceiling(n, replicas)
  }

  /** What one rank must receive: every `replicas`-th item of the source, which wraps around
      only without `dropLast`. */
  ghost predicate IsRankSlice<T>(source: seq<T>, replicas: nat, rank: nat, dropLast: bool, items: seq<T>)
    requires replicas > 0
  {
    && |items| == RankLength(|source|, replicas, dropLast)
    && (forall k :: 0 <= k < |items| ==> source != [] && items[k] == source[(rank + k * replicas) % |source|])
    && (dropLast ==> forall k :: 0 <= k < |items| ==> rank + k * replicas < |source|)
  }

  function Repeated<T>(s: seq<T>, times: nat): seq<T> {
    if times == 0 then [] else s + Repeated(s, times - 1)
  }

  lemma WrapsBack(i: nat, n: nat)
    requires 0 < n <= i
    ensures (i - n) % n == i % n
  {
    var q := (i - n) / n;
    Arithmetic.AddOneTurn(i - n, n);
    assert i == (q + 1) * n + i % n && (q + 1) * n == q * n + n;
  }

  lemma {:induction false} RepeatedAt<T>(s: seq<T>, times: nat, i: nat)
    requires s != [] && i < times * |s|
    ensures |Repeated(s, times)| == times * |s| && Repeated(s, times)[i] == s[i % |s|]
  {
    var n := |s|;
    RepeatedLength(s, times);
    var rest := Repeated(s, times - 1);
    if i >= n {
      OneFewer(times, n);
      RepeatedAt(s, times - 1, i - n);
      WrapsBack(i, n);
      assert (s + rest)[i] == rest[i - n];
    } else {
      Small(i, n);
    }
  }

  lemma OneFewer(times: nat, n: nat)
    requires times > 0
    ensures (times - 1) * n == times * n - n
  {}

  lemma Small(i: nat, n: nat)
    requires i < n
    ensures i % n == i
  {}

  lemma {:induction false} RepeatedLength<T>(s: seq<T>, times: nat)
    ensures |Repeated(s, times)| == times * |s|
  {
    if times > 0 {
      RepeatedLength(s, times - 1);
      assert (times - 1) * |s| == times * |s| - |s|;
    }
  }

  lemma CeilingCovers(a: nat, b: nat)
    requires b > 0
    ensures a <= Ceiling(a, b) * b < a + b
  {
    assert a + b - 1 == Ceiling(a, b) * b + (a + b - 1) % b;
  }

  /** The list that is cut into ranks: truncated, or padded by going round the source again. */
  method Equalised<T>(source: seq<T>, replicas: nat, dropLast: bool) returns (indices: seq<T>)
    requires replicas > 0
    ensures |indices| == TotalSize(|source|, replicas, dropLast)
    ensures forall i :: 0 <= i < |indices| ==> source != [] && indices[i] == source[i % |source|]
    ensures dropLast ==> indices <= source
  {
    indices := source;
    var total := TotalSize(|source|, replicas, dropLast);
    TotalFits(|source|, replicas, dropLast);
    hide TotalSize;
    if dropLast {
      indices := indices[..total];
    } else if indices != [] && |indices| < total {
      indices := Padded(indices, total);
    }
    forall i | 0 <= i < |indices| && i < |source| ensures i % |source| == i { Small(i, |source|); }
  }

  lemma TotalFits(n: nat, replicas: nat, dropLast: bool)
    requires replicas > 0
    ensures var total := TotalSize(n, replicas, dropLast);
      if dropLast then total <= n else n <= total && (n == 0 ==> total == 0)
  {
    CeilingCovers(n, replicas);
    if n == 0 { Arithmetic.QuotientIs(replicas - 1, replicas, 0); }
  }

  method Padded<T>(source: seq<T>, total: nat) returns (indices: seq<T>)
    requires 0 < |source| < total
    ensures |indices| == total
    ensures forall i :: 0 <= i < total ==> indices[i] == source[i % |source|]
  {
    var missing := total - |source|;
    var repeats := Ceiling(missing, |source|);
    CeilingCovers(missing, |source|);
    hide Ceiling;
    RepeatedLength(source, repeats);
    indices := source + Repeated(source, repeats)[..missing];
    forall i | 0 <= i < total ensures indices[i] == source[i % |source|] {
      PaddedAt(source, repeats, missing, i);
    }
  }

  lemma PaddedAt<T>(source: seq<T>, repeats: nat, missing: nat, i: nat)
    requires source != [] && missing <= repeats * |source| && i < |source| + missing
    ensures |Repeated(source, repeats)| == repeats * |source|
    ensures (source + Repeated(source, repeats)[..missing])[i] == source[i % |source|]
  {
    hide Repeated;
    var n := |source|;
    RepeatedLength(source, repeats);
    if i >= n {
      RepeatedAt(source, repeats, i - n);
      WrapsBack(i, n);
    } else {
      Small(i, n);
    }
  }

  /** `__iter__` of either wrapper. */
  method RankItems<T>(source: seq<T>, replicas: nat, rank: nat, dropLast: bool) returns (items: seq<T>)
    requires rank < replicas
    ensures IsRankSlice(source, replicas, rank, dropLast, items)
  {
    var indices := Equalised(source, replicas, dropLast);
    var turns := RankLength(|source|, replicas, dropLast);
    TotalIsWholeTurns(|source|, replicas, dropLast);
    items := [];
    var p := rank;
    while p < |indices|
      invariant p == rank + |items| * replicas
      invariant forall k :: 0 <= k < |items| ==>
        rank + k * replicas < |indices| && items[k] == indices[rank + k * replicas]
    {
      items := items + [indices[p]];
      assert (|items| - 1) * replicas + replicas == |items| * replicas;
      p := p + replicas;
    }
    LastTurn(|items|, turns, replicas, rank);
  }

  lemma TotalIsWholeTurns(n: nat, replicas: nat, dropLast: bool)
    requires replicas > 0
    ensures TotalSize(n, replicas, dropLast) == RankLength(n, replicas, dropLast) * replicas
  {}

  lemma LastTurn(k: nat, turns: nat, replicas: nat, rank: nat)
    requires rank < replicas && k * replicas + rank >= turns * replicas
    requires k == 0 || (k - 1) * replicas + rank < turns * replicas
    ensures k == turns
  {
    Arithmetic.MultiplesApart(k, turns, replicas);
    Arithmetic.MultiplesApart(turns, k, replicas);
    if k > 0 { Arithmetic.MultiplesApart(turns, k - 1, replicas); }
  }

  // ---- all ranks together ----

  ghost predicate AllRanks<T>(source: seq<T>, replicas: nat, dropLast: bool, ranks: seq<seq<T>>) {
    && |ranks| == replicas > 0
    && forall r :: 0 <= r < replicas ==> IsRankSlice(source, replicas, r, dropLast, ranks[r])
  }

  /** Taking one item from each rank in turn. */
  ghost function Interleaved<T>(ranks: seq<seq<T>>, turns: nat): (r: seq<T>)
    requires forall k :: 0 <= k < |ranks| ==> |ranks[k]| == turns
    ensures |r| == turns * |ranks|
    decreases turns
  {
    if turns == 0 then []
    else
      OneFewer(turns, |ranks|);
      Interleaved(seq(|ranks|, k requires 0 <= k < |ranks| => ranks[k][..turns - 1]), turns - 1)
      + seq(|ranks|, k requires 0 <= k < |ranks| => ranks[k][turns - 1])
  }

  lemma {:induction false} InterleavedAt<T>(ranks: seq<seq<T>>, turns: nat, rank: nat, turn: nat)
    requires forall k :: 0 <= k < |ranks| ==> |ranks[k]| == turns
    requires rank < |ranks| && turn < turns
    ensures rank + turn * |ranks| < turns * |ranks|
    ensures Interleaved(ranks, turns)[rank + turn * |ranks|] == ranks[rank][turn]
    decreases turns
  {
    var n := |ranks|;
    OneFewer(turns, n);
    var shorter := seq(n, k requires 0 <= k < n => ranks[k][..turns - 1]);
    if turn < turns - 1 {
      InterleavedAt(shorter, turns - 1, rank, turn);
    }
  }

  lemma Split(p: nat, n: nat, turns: nat)
    requires n > 0 && p < turns * n
    ensures p % n < n && p / n < turns && p == p % n + p / n * n
  {
    assert turns > 0 by { assert turns * n > 0; }
    OneFewer(turns, n);
    Arithmetic.MultiplesApart(turns - 1, p / n, n);
  }

  /** Going round the ranks gives back the truncated source, or the source gone round until every
      rank has the same number of items. */
  lemma RanksInterleave<T>(source: seq<T>, replicas: nat, dropLast: bool, ranks: seq<seq<T>>)
    requires AllRanks(source, replicas, dropLast, ranks)
    ensures var turns := RankLength(|source|, replicas, dropLast);
      var total := TotalSize(|source|, replicas, dropLast);
      var all := Interleaved(ranks, turns);
      && |all| == total
      && (forall p :: 0 <= p < total ==> source != [] && all[p] == source[p % |source|])
      && (dropLast ==> total <= |source| && all == source[..total])
  {
    var turns := RankLength(|source|, replicas, dropLast);
    var total := TotalSize(|source|, replicas, dropLast);
    TotalIsWholeTurns(|source|, replicas, dropLast);
    TotalFits(|source|, replicas, dropLast);
    hide RankLength, TotalSize;
    forall p | 0 <= p < total ensures source != [] && Interleaved(ranks, turns)[p] == source[p % |source|] {
      Split(p, replicas, turns);
      InterleavedAt(ranks, turns, p % replicas, p / replicas);
    }
    if dropLast {
      forall p | 0 <= p < total ensures p % |source| == p { Small(p, |source|); }
    }
  }

  /** The positions at which the i-th source item is handed out. */
  ghost function Copies(n: nat, total: nat, i: nat): set<nat>
    requires n > 0
  {
    set p | 0 <= p < total && p % n == i
  }

  lemma NextQuotient(t: nat, n: nat)
    requires n > 0
    ensures if t % n == n - 1 then (t + 1) / n == t / n + 1 && (t + 1) % n == 0
            else (t + 1) / n == t / n && (t + 1) % n == t % n + 1
  {
    var q := t / n;
    assert t == q * n + t % n;
    if t % n == n - 1 {
      assert t + 1 == (q + 1) * n;
      Arithmetic.QuotientIs(t + 1, n, q + 1);
    } else {
      Arithmetic.QuotientIs(t + 1, n, q);
    }
  }

  lemma {:induction false} CopiesCount(n: nat, total: nat, i: nat)
    requires i < n
    ensures |Copies(n, total, i)| == total / n + if i < total % n then 1 else 0
  {
    hide Copies;
    if total == 0 {
      NoCopies(n, i);
    } else {
      var t := total - 1;
      CopiesCount(n, t, i);
      NextQuotient(t, n);
      NextCopies(n, t, i);
    }
  }

  lemma NoCopies(n: nat, i: nat)
    requires i < n
    ensures Copies(n, 0, i) == {} && 0 / n == 0
  {
    assert Copies(n, 0, i) == {};
  }

  lemma NextCopies(n: nat, t: nat, i: nat)
    requires i < n
    ensures |Copies(n, t + 1, i)| == |Copies(n, t, i)| + if t % n == i then 1 else 0
  {
    assert Copies(n, t + 1, i) == Copies(n, t, i) + if t % n == i then {t} else {};
  }

  /** Without `dropLast` every item is handed out, and no item more than once more than another;
      with it, exactly the first `total` items are handed out, once. */
  lemma FairShares(n: nat, replicas: nat, dropLast: bool, i: nat, j: nat)
    requires replicas > 0 && i < n && j < n
    ensures var total := TotalSize(n, replicas, dropLast);
      if dropLast then |Copies(n, total, i)| == if i < total then 1 else 0
      else |Copies(n, total, i)| >= 1 && |Copies(n, total, i)| <= |Copies(n, total, j)| + 1
  {
    var total := TotalSize(n, replicas, dropLast);
    TotalFits(n, replicas, dropLast);
    CopiesCount(n, total, i);
    CopiesCount(n, total, j);
    if total < n {
      Arithmetic.QuotientIs(total, n, 0);
    } else if dropLast {
      Arithmetic.QuotientIs(total, n, 1);
    } else {
      Arithmetic.MultiplesApart(total / n, 1, n);
    }
  }
}
