/** Batches of one task and one modality signature, task groups in curriculum order
    (mmcrawler_datasets/sampling.py:121-186, 424-445). Task names are already canonical; what the
    shuffles do is any permutation of the keys and of each group. */
module TaskBatches {
  import opened Batching
  import Sorting
  import Text

  datatype Key = Key(task: string, signature: seq<string>)

  // ---- groups ----

  /** Every key that occurs, once. */
  ghost predicate Lists(keys: seq<Key>, listed: seq<Key>) {
    Sorting.Distinct(listed) && forall key :: key in listed <==> key in keys
  }

  /** The indices of the records with the key, ascending. */
  function IndicesOf(keys: seq<Key>, key: Key): seq<nat> {
    if keys == [] then []
    else
      var n := |keys| - 1;
      IndicesOf(keys[..n], key) + (if keys[n] == key then [n] else [])
  }

  ghost predicate Ascending(keys: seq<Key>, key: Key, r: seq<nat>) {
    && (forall x: nat :: x in r <==> x < |keys| && keys[x] == key)
    && (forall i, j :: 0 <= i < j < |r| ==> r[i] < r[j])
  }

  lemma NextIndex(keys: seq<Key>, n: nat, key: Key, r: seq<nat>)
    requires |keys| == n + 1 && Ascending(keys[..n], key, r)
    ensures Ascending(keys, key, r + (if keys[n] == key then [n] else []))
  {
    forall i | 0 <= i < |r| ensures r[i] < n { assert r[i] in r; }
    forall x: nat | x < n ensures x in r <==> keys[x] == key {}
  }

  lemma {:induction false} IndicesAre(keys: seq<Key>, key: Key)
    ensures Ascending(keys, key, IndicesOf(keys, key))
    ensures key !in keys ==> IndicesOf(keys, key) == []
  {
    hide Ascending;
    if keys == [] {
      NoIndices(key);
    } else {
      var n := |keys| - 1;
      IndicesAre(keys[..n], key);
      NextIndex(keys, n, key, IndicesOf(keys[..n], key));
    }
  }

  lemma NoIndices(key: Key)
    ensures Ascending([], key, [])
  {}

  method GroupIndices(keys: seq<Key>) returns (groups: map<Key, seq<nat>>, listed: seq<Key>)
    ensures Lists(keys, listed) && Grouped(keys, groups)
  {
    groups, listed := map[], [];
    for i := 0 to |keys|
      invariant Lists(keys[..i], listed) && Grouped(keys[..i], groups)
    {
      GroupStep(keys, i, groups, listed);
      if keys[i] in groups {
        groups := groups[keys[i] := groups[keys[i]] + [i]];
      } else {
        groups := groups[keys[i] := [i]];
        listed := listed + [keys[i]];
      }
    }
    assert keys[..|keys|] == keys;
  }

  ghost predicate Grouped(keys: seq<Key>, groups: map<Key, seq<nat>>) {
    && (forall key :: key in groups <==> key in keys)
    && (forall key :: key in groups ==> groups[key] == IndicesOf(keys, key))
  }

  lemma GroupStep(keys: seq<Key>, i: nat, groups: map<Key, seq<nat>>, listed: seq<Key>)
    requires i < |keys| && Lists(keys[..i], listed) && Grouped(keys[..i], groups)
    ensures Grouped(keys[..i + 1], groups[keys[i] := (if keys[i] in groups then groups[keys[i]] else []) + [i]])
    ensures Lists(keys[..i + 1], if keys[i] in groups then listed else listed + [keys[i]])
  {
    hide IndicesOf, Ascending;
    var key, before, now := keys[i], keys[..i], keys[..i + 1];
    assert now == before + [key] && now[..i] == before;
    forall k ensures k in now <==> k == key || k in before {}
    forall k ensures IndicesOf(now, k) == IndicesOf(before, k) + (if k == key then [i] else []) {
      IndicesStep(now, i, k);
    }
    IndicesAre(before, key);
  }

  lemma IndicesStep(keys: seq<Key>, n: nat, key: Key)
    requires |keys| == n + 1
    ensures IndicesOf(keys, key) == IndicesOf(keys[..n], key) + (if keys[n] == key then [n] else [])
  {}

  // ---- curriculum order ----

  /** A dict comprehension keeps the last rank of a repeated task. */
  function Rank(schedule: seq<string>, task: string): (r: nat)
    ensures task in schedule ==> r < |schedule| && schedule[r] == task
    ensures task in schedule ==> forall i :: r < i < |schedule| ==> schedule[i] != task
    ensures task !in schedule ==> r == |Sorting.Elements(schedule)|
  {
    if task !in schedule then |Sorting.Elements(schedule)| else LastIndex(schedule, task)
  }

  function LastIndex(schedule: seq<string>, task: string): (r: nat)
    requires task in schedule
    ensures r < |schedule| && schedule[r] == task
    ensures forall i :: r < i < |schedule| ==> schedule[i] != task
  {
    if schedule[|schedule| - 1] == task then |schedule| - 1 else LastIndex(schedule[..|schedule| - 1], task)
  }

  predicate SignatureLe(a: seq<string>, b: seq<string>) {
    a == [] || (b != [] && if a[0] == b[0] then SignatureLe(a[1..], b[1..]) else Text.StringLe(a[0], b[0]))
  }

  /** The comparison of the tuples (rank, task, signature). */
  predicate KeyLe(schedule: seq<string>, a: Key, b: Key) {
    var i, j := Rank(schedule, a.task), Rank(schedule, b.task);
    if i != j then i < j
    else if a.task != b.task then Text.StringLe(a.task, b.task)
    else SignatureLe(a.signature, b.signature)
  }

  function Order(schedule: seq<string>): (Key, Key) -> bool { (a, b) => KeyLe(schedule, a, b) }

  function OrderedKeys(schedule: seq<string>, keys: seq<Key>): seq<Key> { Sorting.Sort(keys, Order(schedule)) }

  lemma {:induction false} SignatureLeTotal(a: seq<string>, b: seq<string>)
    ensures SignatureLe(a, b) || SignatureLe(b, a)
    ensures SignatureLe(a, b) && SignatureLe(b, a) ==> a == b
  {
    if a != [] && b != [] {
      if a[0] == b[0] {
        SignatureLeTotal(a[1..], b[1..]);
        assert a == [a[0]] + a[1..] && b == [b[0]] + b[1..];
      } else {
        Text.StringLeTotal(a[0], b[0]);
      }
    }
  }

  lemma {:induction false} SignatureLeTransitive(a: seq<string>, b: seq<string>, c: seq<string>)
    requires SignatureLe(a, b) && SignatureLe(b, c)
    ensures SignatureLe(a, c)
  {
    hide Text.StringLe;
    if a != [] {
      if a[0] == b[0] && b[0] == c[0] {
        SignatureLeTransitive(a[1..], b[1..], c[1..]);
      } else if a[0] != b[0] && b[0] != c[0] {
        Text.StringLeTransitive(a[0], b[0], c[0]);
        Text.StringLeTotal(a[0], b[0]);
      }
    }
  }

  lemma KeyLeTotal(schedule: seq<string>, a: Key, b: Key)
    ensures KeyLe(schedule, a, b) || KeyLe(schedule, b, a)
    ensures KeyLe(schedule, a, b) && KeyLe(schedule, b, a) ==> a == b
  {
    hide Text.StringLe, SignatureLe;
    Text.StringLeTotal(a.task, b.task);
    SignatureLeTotal(a.signature, b.signature);
  }

  lemma KeyLeTransitive(schedule: seq<string>, a: Key, b: Key, c: Key)
    requires KeyLe(schedule, a, b) && KeyLe(schedule, b, c)
    ensures KeyLe(schedule, a, c)
  {
    hide Text.StringLe, SignatureLe, Rank;
    if Rank(schedule, a.task) == Rank(schedule, b.task) == Rank(schedule, c.task) {
      if a.task == b.task == c.task {
        SignatureLeTransitive(a.signature, b.signature, c.signature);
      } else if a.task != b.task && b.task != c.task {
        Text.StringLeTransitive(a.task, b.task, c.task);
        Text.StringLeTotal(a.task, b.task);
      }
    }
  }

  lemma OrderIsTotal(schedule: seq<string>)
    ensures Sorting.TotalOrder(Order(schedule))
  {
    var le := Order(schedule);
    hide KeyLe;
    forall x, y ensures (le(x, y) || le(y, x)) && (le(x, y) && le(y, x) ==> x == y) { KeyLeTotal(schedule, x, y); }
    forall x, y, z | le(x, y) && le(y, z) ensures le(x, z) { KeyLeTransitive(schedule, x, y, z); }
  }

  /** Groups come in the one order that increases strictly under (rank, task, signature); the
      shuffle of the keys cannot change it. */
  lemma KeyOrderIgnoresShuffle(schedule: seq<string>, listed: seq<Key>, shuffled: seq<Key>)
    requires Sorting.Distinct(listed) && multiset(shuffled) == multiset(listed)
    ensures var ordered := OrderedKeys(schedule, shuffled);
      && ordered == OrderedKeys(schedule, listed) && multiset(ordered) == multiset(listed)
      && (forall i, j :: 0 <= i < j < |ordered| ==> ordered[i] != ordered[j] && KeyLe(schedule, ordered[i], ordered[j]))
      && (forall other :: multiset(other) == multiset(listed) && Sorting.Ordered(other, Order(schedule)) ==>
          other == ordered)
  {
    var ordered := OrderedKeys(schedule, shuffled);
    OrderIsTotal(schedule);
    Sorting.SortCanonical(shuffled, listed, Order(schedule));
    Sorting.SortOrdered(shuffled, Order(schedule));
    Sorting.DistinctByCount(listed);
    Sorting.DistinctByCount(ordered);
    forall other | multiset(other) == multiset(listed) && Sorting.Ordered(other, Order(schedule))
      ensures other == ordered {
      Sorting.OrderedUnique(other, ordered, Order(schedule));
    }
  }

  /** Scheduled tasks all rank before unscheduled ones exactly when the schedule repeats no task. */
  lemma ScheduledFirstIff(schedule: seq<string>, unscheduled: string)
    requires unscheduled !in schedule
    ensures (forall task :: task in schedule ==> Rank(schedule, task) < Rank(schedule, unscheduled))
            <==> Sorting.Distinct(schedule)
  {
    Sorting.DistinctCardinality(schedule);
    if schedule != [] {
      var last := schedule[|schedule| - 1];
      assert last in schedule && Rank(schedule, last) == |schedule| - 1;
    }
  }

  // ---- batches ----

  function Chunks(s: seq<nat>, size: nat): seq<seq<nat>>
    requires size > 0
  {
    if s == [] then []
    else if |s| <= size then [s]
    else [s[..size]] + Chunks(s[size..], size)
  }

  ghost predicate Arranged(keys: seq<Key>, arranged: map<Key, seq<nat>>) {
    && (forall key :: key in arranged <==> key in keys)
    && (forall key :: key in arranged ==> multiset(arranged[key]) == multiset(IndicesOf(keys, key)))
  }

  function Schedule(ordered: seq<Key>, arranged: map<Key, seq<nat>>, size: nat, dropLast: bool): seq<seq<nat>>
    requires size > 0 && forall key :: key in ordered ==> key in arranged
  {
    if ordered == [] then []
    else Yielded(Chunks(arranged[ordered[0]], size), size, dropLast) + Schedule(ordered[1..], arranged, size, dropLast)
  }

  lemma OrderedAreArranged(keys: seq<Key>, shuffled: seq<Key>, arranged: map<Key, seq<nat>>, curriculum: seq<string>)
    requires Lists(keys, shuffled) && Arranged(keys, arranged)
    ensures forall key :: key in OrderedKeys(curriculum, shuffled) ==> key in arranged
  {
    hide IndicesOf;
    Sorting.SameMembers(shuffled, OrderedKeys(curriculum, shuffled));
  }

  // ---- the order of the batches, in terms of the schedule ----

  /** The last place of a task in the schedule. */
  ghost predicate LastPlace(schedule: seq<string>, task: string, i: nat) {
    i < |schedule| && schedule[i] == task && forall k :: i < k < |schedule| ==> schedule[k] != task
  }

  /** Signatures as tuples: the first place where they differ decides; a prefix comes first. */
  ghost predicate SignaturesInOrder(a: seq<string>, b: seq<string>) {
    exists k :: 0 <= k <= |a| && k <= |b| && a[..k] == b[..k]
                && (k == |a| || (k < |b| && a[k] != b[k] && Text.Alphabetical(a[k], b[k])))
  }

  lemma {:induction false} SignatureLeSays(a: seq<string>, b: seq<string>)
    requires SignatureLe(a, b)
    ensures SignaturesInOrder(a, b)
  {
    hide Text.StringLe, Text.Alphabetical;
    if a == [] {
      assert a[..0] == b[..0];
    } else if a[0] == b[0] {
      SignatureLeSays(a[1..], b[1..]);
      var k :| 0 <= k <= |a[1..]| && k <= |b[1..]| && a[1..][..k] == b[1..][..k]
               && (k == |a[1..]|
                   || (k < |b[1..]| && a[1..][k] != b[1..][k] && Text.Alphabetical(a[1..][k], b[1..][k])));
      assert a[..k + 1] == [a[0]] + a[1..][..k] && b[..k + 1] == [b[0]] + b[1..][..k];
    } else {
      Text.StringLeIff(a[0], b[0]);
      assert a[..0] == b[..0];
    }
  }

  /** Scheduled tasks come by their last place in the schedule, unscheduled ones alphabetically, and
      keys of one task by signature. An unscheduled task stands at the number of distinct scheduled
      tasks: after all of them if the schedule repeats none. */
  ghost predicate KeysInOrder(schedule: seq<string>, a: Key, b: Key) {
    var distinct := |Sorting.Elements(schedule)|;
    && (forall i: nat, j: nat :: LastPlace(schedule, a.task, i) && LastPlace(schedule, b.task, j) ==> i <= j)
    && (forall i: nat :: LastPlace(schedule, a.task, i) && b.task !in schedule ==>
          i < distinct || (i == distinct && Text.Alphabetical(a.task, b.task)))
    && (forall j: nat :: a.task !in schedule && LastPlace(schedule, b.task, j) ==>
          distinct < j || (distinct == j && Text.Alphabetical(a.task, b.task)))
    && (Sorting.Distinct(schedule) && b.task in schedule ==> a.task in schedule)
    && (a.task !in schedule && b.task !in schedule ==> Text.Alphabetical(a.task, b.task))
    && (a.task == b.task ==> SignaturesInOrder(a.signature, b.signature))
  }

  lemma RankIsLastPlace(schedule: seq<string>, task: string, i: nat)
    requires LastPlace(schedule, task, i)
    ensures Rank(schedule, task) == i
  {
    assert i < |schedule| && schedule[i] == task;
  }

  lemma ScheduledRankSmall(schedule: seq<string>, a: string, b: string)
    requires Sorting.Distinct(schedule) && a !in schedule && b in schedule
    ensures Rank(schedule, b) < Rank(schedule, a)
  {
    Sorting.DistinctCardinality(schedule);
  }

  lemma KeyLeSays(schedule: seq<string>, a: Key, b: Key)
    requires KeyLe(schedule, a, b)
    ensures KeysInOrder(schedule, a, b)
  {
    hide Text.StringLe, Text.Alphabetical, SignatureLe, SignaturesInOrder, Rank, LastPlace, Sorting.Distinct,
      Sorting.Elements;
    Text.StringLeIff(a.task, b.task);
    forall i: nat | LastPlace(schedule, a.task, i) ensures Rank(schedule, a.task) == i {
      RankIsLastPlace(schedule, a.task, i);
    }
    forall j: nat | LastPlace(schedule, b.task, j) ensures Rank(schedule, b.task) == j {
      RankIsLastPlace(schedule, b.task, j);
    }
    if Sorting.Distinct(schedule) && b.task in schedule && a.task !in schedule {
      ScheduledRankSmall(schedule, a.task, b.task);
    }
    if a.task == b.task {
      SignatureLeSays(a.signature, b.signature);
      AlphabeticalSelf(a.task);
    }
  }

  lemma AlphabeticalSelf(a: string)
    ensures Text.Alphabetical(a, a)
  {
    assert a[..|a|] == a[..|a|];
  }

  lemma SameKeyInOrder(schedule: seq<string>, a: Key)
    ensures KeysInOrder(schedule, a, a)
  {
    hide KeysInOrder;
    KeyLeTotal(schedule, a, a);
    KeyLeSays(schedule, a, a);
  }

  /** Every batch holds records of one key, and an earlier batch never one that comes later. */
  ghost predicate CurriculumOrder(schedule: seq<string>, keys: seq<Key>, batches: seq<seq<nat>>) {
    && (forall i, x :: 0 <= i < |batches| && x in batches[i] ==> x < |keys|)
    && (forall i, x, y :: 0 <= i < |batches| && x in batches[i] && y in batches[i] ==> keys[x] == keys[y])
    && (forall i, j, x, y :: 0 <= i < j < |batches| && x in batches[i] && y in batches[j] ==>
          KeysInOrder(schedule, keys[x], keys[y]))
  }

  lemma BatchesInCurriculum(keys: seq<Key>, shuffled: seq<Key>, arranged: map<Key, seq<nat>>, curriculum: seq<string>,
                            size: nat, dropLast: bool)
    requires size > 0 && Lists(keys, shuffled) && Arranged(keys, arranged)
    requires forall key :: key in OrderedKeys(curriculum, shuffled) ==> key in arranged
    ensures CurriculumOrder(curriculum, keys, Schedule(OrderedKeys(curriculum, shuffled), arranged, size, dropLast))
  {
    var ordered := OrderedKeys(curriculum, shuffled);
    OrderIsTotal(curriculum);
    Sorting.SortOrdered(shuffled, Order(curriculum));
    Sorting.SameMembers(shuffled, ordered);
    hide Schedule, OrderedKeys, Arranged, KeyLe, Sorting.Ordered, Sorting.Distinct, KeysInOrder, Sorting.TotalOrder;
    var labels := BatchesFollowKeys(keys, ordered, arranged, curriculum, size, dropLast);
    var batches := Schedule(ordered, arranged, size, dropLast);
    forall i, j | 0 <= i < j < |batches| ensures KeysInOrder(curriculum, labels[i], labels[j]) {
      if labels[i] == labels[j] {
        SameKeyInOrder(curriculum, labels[i]);
      } else {
        KeyLeSays(curriculum, labels[i], labels[j]);
      }
    }
  }

  /** `__iter__`: the sort of the shuffled keys, then one turn per group. */
  method Batches(keys: seq<Key>, shuffled: seq<Key>, arranged: map<Key, seq<nat>>, curriculum: seq<string>,
                 size: nat, dropLast: bool) returns (batches: seq<seq<nat>>)
    requires size > 0 && Lists(keys, shuffled) && Arranged(keys, arranged)
    ensures forall key :: key in OrderedKeys(curriculum, shuffled) ==> key in arranged
    ensures batches == Schedule(OrderedKeys(curriculum, shuffled), arranged, size, dropLast)
    ensures CurriculumOrder(curriculum, keys, batches)
  {
    OrderedAreArranged(keys, shuffled, arranged, curriculum);
    BatchesInCurriculum(keys, shuffled, arranged, curriculum, size, dropLast);
    hide CurriculumOrder, Schedule, OrderedKeys, Lists, Arranged;
    batches := BatchesInOrder(OrderedKeys(curriculum, shuffled), arranged, size, dropLast);
  }

  method BatchesInOrder(ordered: seq<Key>, arranged: map<Key, seq<nat>>, size: nat, dropLast: bool)
    returns (batches: seq<seq<nat>>)
    requires size > 0 && forall key :: key in ordered ==> key in arranged
    ensures batches == Schedule(ordered, arranged, size, dropLast)
  {
    hide Chunks, Yielded;
    batches := [];
    for i := 0 to |ordered|
      invariant batches + Schedule(ordered[i..], arranged, size, dropLast)
        == Schedule(ordered, arranged, size, dropLast)
    {
      assert ordered[i] in ordered && ordered[i..][1..] == ordered[i + 1..];
      var some := GroupBatches(arranged[ordered[i]], size, dropLast);
      batches := batches + some;
    }
  }

  method GroupBatches(indices: seq<nat>, size: nat, dropLast: bool) returns (batches: seq<seq<nat>>)
    requires size > 0
    ensures batches == Yielded(Chunks(indices, size), size, dropLast)
  {
    batches := [];
    var start := 0;
    while start < |indices|
      invariant 0 <= start
      invariant batches
        + Yielded(Chunks(indices[if start <= |indices| then start else |indices|..], size), size, dropLast)
                == Yielded(Chunks(indices, size), size, dropLast)
      decreases |indices| - start
    {
      var end := if start + size <= |indices| then start + size else |indices|;
      var batch := indices[start..end];
      ChunkStep(indices, start, end, size, dropLast);
      if |batch| == size || !dropLast {
        batches := batches + [batch];
      }
      start := start + size;
    }
  }

  lemma ChunkStep(indices: seq<nat>, start: nat, end: nat, size: nat, dropLast: bool)
    requires size > 0 && start < |indices| && end == if start + size <= |indices| then start + size else |indices|
    ensures Yielded(Chunks(indices[start..], size), size, dropLast)
            == (if end - start == size || !dropLast then [indices[start..end]] else [])
               + Yielded(Chunks(indices[end..], size), size, dropLast)
  {
    var s := indices[start..];
    if |s| <= size {
      assert indices[end..] == [] && indices[start..end] == s;
      var chunks: seq<seq<nat>> := [s];
      assert chunks[1..] == [];
    } else {
      assert s[..size] == indices[start..end] && s[size..] == indices[end..];
      assert ([s[..size]] + Chunks(s[size..], size))[1..] == Chunks(s[size..], size);
    }
  }

  // ---- the guarantees ----

  lemma {:induction false} FlattenAppend(a: seq<seq<nat>>, b: seq<seq<nat>>)
    ensures Flatten(a + b) == Flatten(a) + Flatten(b)
  {
    if a == [] {
      assert a + b == b;
    } else {
      assert (a + b)[1..] == a[1..] + b;
      FlattenAppend(a[1..], b);
    }
  }

  lemma {:induction false} ChunksFlatten(s: seq<nat>, size: nat)
    requires size > 0
    ensures Flatten(Chunks(s, size)) == s
  {
    if |s| > size {
      ChunksFlatten(s[size..], size);
      FlattenStep(s[..size], Chunks(s[size..], size));
    } else if s != [] {
      FlattenStep(s, []);
    }
  }

  lemma ArrangedMembers(keys: seq<Key>, arranged: map<Key, seq<nat>>, key: Key)
    requires Arranged(keys, arranged) && key in keys
    ensures Sorting.Distinct(arranged[key])
    ensures forall x: nat :: x in arranged[key] <==> x < |keys| && keys[x] == key
  {
    IndicesAre(keys, key);
    var plain := IndicesOf(keys, key);
    Sorting.SameMembers(arranged[key], plain);
    Sorting.DistinctByCount(plain);
    Sorting.DistinctByCount(arranged[key]);
  }

  lemma {:induction false} SchedulePartitions(keys: seq<Key>, ordered: seq<Key>, arranged: map<Key, seq<nat>>,
                                              size: nat)
    requires size > 0 && Arranged(keys, arranged)
    requires Sorting.Distinct(ordered) && forall key :: key in ordered ==> key in keys
    ensures var flat := Flatten(Schedule(ordered, arranged, size, false));
      && Sorting.Distinct(flat)
      && (forall x: nat :: x in flat <==> x < |keys| && keys[x] in ordered)
  {
    hide Chunks, Yielded, IndicesOf;
    if ordered != [] {
      var key, rest := ordered[0], ordered[1..];
      Sorting.DistinctStep(ordered);
      SchedulePartitions(keys, rest, arranged, size);
      AllYielded(Chunks(arranged[key], size), size);
      ChunksFlatten(arranged[key], size);
      var later := Schedule(rest, arranged, size, false);
      FlattenAppend(Chunks(arranged[key], size), later);
      ArrangedMembers(keys, arranged, key);
      JoinDistinct(arranged[key], Flatten(later), arranged[key] + Flatten(later));
    }
  }

  /** Without `drop_last` the batches hold every index exactly once. */
  lemma EveryIndexOnce(keys: seq<Key>, shuffled: seq<Key>, arranged: map<Key, seq<nat>>, curriculum: seq<string>,
                       size: nat)
    requires size > 0 && Lists(keys, shuffled) && Arranged(keys, arranged)
    ensures var ordered := OrderedKeys(curriculum, shuffled);
      && (forall key :: key in ordered ==> key in arranged)
      && multiset(Flatten(Schedule(ordered, arranged, size, false))) == multiset(Range(|keys|))
  {
    hide OrderedKeys, Schedule, Arranged, Flatten, KeyLe, Order, Sorting.Ordered;
    var ordered := OrderedKeys(curriculum, shuffled);
    OrderedAreArranged(keys, shuffled, arranged, curriculum);
    KeyOrderIgnoresShuffle(curriculum, shuffled, shuffled);
    Sorting.SameMembers(shuffled, ordered);
    SchedulePartitions(keys, ordered, arranged, size);
    var flat := Flatten(Schedule(ordered, arranged, size, false));
    forall x: nat ensures x in flat <==> x in Range(|keys|) {
      if x < |keys| { assert Range(|keys|)[x] == x && keys[x] in keys; }
    }
    Sorting.DistinctSameElements(flat, Range(|keys|));
  }

  ghost predicate Homogeneous(keys: seq<Key>, batch: seq<nat>, key: Key) {
    forall x :: x in batch ==> x < |keys| && keys[x] == key
  }

  lemma {:induction false} ChunksInside(s: seq<nat>, size: nat, dropLast: bool)
    requires size > 0
    ensures forall b :: b in Yielded(Chunks(s, size), size, dropLast) ==>
      0 < |b| <= size && (dropLast ==> |b| == size) && forall x :: x in b ==> x in s
  {
    if |s| > size {
      ChunksInside(s[size..], size, dropLast);
      assert Chunks(s, size)[1..] == Chunks(s[size..], size);
    }
  }

  /** No batch mixes two keys, and the keys of successive batches follow the curriculum order. */
  lemma {:induction false} BatchesFollowKeys(keys: seq<Key>, ordered: seq<Key>, arranged: map<Key, seq<nat>>,
                                             curriculum: seq<string>, size: nat, dropLast: bool)
    returns (labels: seq<Key>)
    requires size > 0 && Arranged(keys, arranged) && Sorting.Ordered(ordered, Order(curriculum))
    requires forall key :: key in ordered ==> key in keys
    ensures var batches := Schedule(ordered, arranged, size, dropLast);
      && |labels| == |batches|
      && (forall i :: 0 <= i < |batches| ==> 0 < |batches[i]| <= size && Homogeneous(keys, batches[i], labels[i]))
    ensures forall key :: key in labels ==> key in ordered
    ensures forall i, j :: 0 <= i < j < |labels| ==> labels[i] == labels[j] || KeyLe(curriculum, labels[i], labels[j])
  {
    hide Chunks, Yielded, IndicesOf, KeyLe;
    if ordered == [] {
      labels := [];
    } else {
      var key := ordered[0];
      var later := BatchesFollowKeys(keys, ordered[1..], arranged, curriculum, size, dropLast);
      var mine := Yielded(Chunks(arranged[key], size), size, dropLast);
      ChunksInside(arranged[key], size, dropLast);
      ArrangedMembers(keys, arranged, key);
      labels := seq(|mine|, i => key) + later;
      forall k | k in later ensures KeyLe(curriculum, key, k) {
        var p :| 0 <= p < |ordered[1..]| && ordered[1..][p] == k;
        assert Order(curriculum)(ordered[0], ordered[p + 1]);
      }
      forall i | 0 <= i < |mine| ensures 0 < |mine[i]| <= size && Homogeneous(keys, mine[i], key) {
        assert mine[i] in mine;
      }
    }
  }

  // ---- counting ----

  function TotalLength(keys: seq<Key>, listed: seq<Key>, size: nat, dropLast: bool): nat
    requires size > 0
  {
    if listed == [] then 0
    else Length(|IndicesOf(keys, listed[0])|, size, dropLast) + TotalLength(keys, listed[1..], size, dropLast)
  }

  lemma {:induction false} TotalRemove(keys: seq<Key>, listed: seq<Key>, k: nat, size: nat, dropLast: bool)
    requires size > 0 && k < |listed|
    ensures TotalLength(keys, listed, size, dropLast)
            == TotalLength(keys, listed[..k] + listed[k + 1..], size, dropLast)
               + Length(|IndicesOf(keys, listed[k])|, size, dropLast)
  {
    hide IndicesOf, Length;
    if k == 0 {
      assert listed[..0] + listed[1..] == listed[1..];
    } else {
      TotalRemove(keys, listed[1..], k - 1, size, dropLast);
      var fewer := listed[..k] + listed[k + 1..];
      assert fewer[1..] == listed[1..][..k - 1] + listed[1..][k..];
    }
  }

  lemma {:induction false} TotalReordered(keys: seq<Key>, a: seq<Key>, b: seq<Key>, size: nat, dropLast: bool)
    requires size > 0 && multiset(a) == multiset(b)
    ensures TotalLength(keys, a, size, dropLast) == TotalLength(keys, b, size, dropLast)
  {
    hide IndicesOf, Length;
    if a == [] {
      Sorting.SameMembers(a, b);
    } else {
      var k := Sorting.FindSame(a, b);
      TotalRemove(keys, b, k, size, dropLast);
      TotalReordered(keys, a[1..], b[..k] + b[k + 1..], size, dropLast);
    }
  }

  lemma ListingsAgree(keys: seq<Key>, a: seq<Key>, b: seq<Key>)
    requires Lists(keys, a) && Lists(keys, b)
    ensures multiset(a) == multiset(b)
  {
    Sorting.DistinctSameElements(a, b);
  }

  /** `__len__`: one turn per group, whatever order the groups are listed in. */
  method TotalBatches(keys: seq<Key>, size: nat, dropLast: bool) returns (total: nat)
    requires size > 0
    ensures forall listed :: Lists(keys, listed) ==> total == TotalLength(keys, listed, size, dropLast)
  {
    var groups, listed := GroupIndices(keys);
    hide IndicesOf, Length;
    total := 0;
    for i := 0 to |listed|
      invariant total + TotalLength(keys, listed[i..], size, dropLast) == TotalLength(keys, listed, size, dropLast)
    {
      assert listed[i] in listed && listed[i..][1..] == listed[i + 1..];
      total := total + Length(|groups[listed[i]]|, size, dropLast);
    }
    forall other | Lists(keys, other) ensures total == TotalLength(keys, other, size, dropLast) {
      ListingsAgree(keys, listed, other);
      TotalReordered(keys, listed, other, size, dropLast);
    }
  }

  lemma {:induction false} ChunkCount(s: seq<nat>, size: nat, dropLast: bool)
    requires size > 0
    ensures |Yielded(Chunks(s, size), size, dropLast)| == Length(|s|, size, dropLast)
  {
    var n := |s|;
    if n > size {
      ChunkCount(s[size..], size, dropLast);
      assert Chunks(s, size)[1..] == Chunks(s[size..], size);
      OneMore(n - size, size);
    } else if n == size {
      var chunks: seq<seq<nat>> := [s];
      assert chunks[1..] == [];
      OneMore(0, size);
      SmallQuotient(0, size);
    } else {
      SmallQuotient(n, size);
      if s != [] {
        var chunks: seq<seq<nat>> := [s];
        assert chunks[1..] == [];
      }
    }
  }

  lemma {:induction false} ScheduleCount(keys: seq<Key>, ordered: seq<Key>, arranged: map<Key, seq<nat>>, size: nat,
                                         dropLast: bool)
    requires size > 0 && Arranged(keys, arranged) && forall key :: key in ordered ==> key in arranged
    ensures |Schedule(ordered, arranged, size, dropLast)| == TotalLength(keys, ordered, size, dropLast)
  {
    hide IndicesOf, Length, Chunks, Yielded;
    if ordered != [] {
      ScheduleCount(keys, ordered[1..], arranged, size, dropLast);
      ChunkCount(arranged[ordered[0]], size, dropLast);
      Sorting.SameMembers(arranged[ordered[0]], IndicesOf(keys, ordered[0]));
    }
  }

  /** The number of batches is what `__len__` says. */
  lemma LengthIsExact(keys: seq<Key>, shuffled: seq<Key>, arranged: map<Key, seq<nat>>, curriculum: seq<string>,
                      size: nat, dropLast: bool)
    requires size > 0 && Lists(keys, shuffled) && Arranged(keys, arranged)
    ensures var ordered := OrderedKeys(curriculum, shuffled);
      && (forall key :: key in ordered ==> key in arranged)
      && |Schedule(ordered, arranged, size, dropLast)| == TotalLength(keys, shuffled, size, dropLast)
  {
    OrderedAreArranged(keys, shuffled, arranged, curriculum);
    ScheduleCount(keys, OrderedKeys(curriculum, shuffled), arranged, size, dropLast);
    TotalReordered(keys, OrderedKeys(curriculum, shuffled), shuffled, size, dropLast);
  }

  // ---- what `drop_last` leaves out ----

  /** The indices with the key among those yielded. */
  ghost function KeptOf(keys: seq<Key>, kept: seq<nat>, key: Key): set<nat> {
    set x | x in kept && x < |keys| && keys[x] == key
  }

  lemma SubDistinct(a: seq<nat>, b: seq<nat>)
    requires multiset(a) <= multiset(b) && Sorting.Distinct(b)
    ensures Sorting.Distinct(a) && forall x :: x in a ==> x in b
  {
    Sorting.DistinctByCount(a);
    Sorting.DistinctByCount(b);
    forall x | x in a ensures x in b { assert x in multiset(a) && x in multiset(b); }
    forall x | x in a ensures multiset(a)[x] == 1 { assert x in multiset(a); }
  }

  /** One group: distinct indices of that key, all but a remainder. */
  lemma GroupKept(keys: seq<Key>, arranged: map<Key, seq<nat>>, key: Key, size: nat) returns (mine: seq<nat>)
    requires size > 0 && Arranged(keys, arranged) && key in keys
    ensures key in arranged && mine == Flatten(Yielded(Chunks(arranged[key], size), size, true))
    ensures Sorting.Distinct(mine) && (forall x :: x in mine ==> x < |keys| && keys[x] == key)
    ensures |IndicesOf(keys, key)| - |mine| == |IndicesOf(keys, key)| % size
  {
    var s := arranged[key];
    hide Chunks, Yielded, Flatten, IndicesOf, Arranged;
    mine := Flatten(Yielded(Chunks(s, size), size, true));
    ArrangedMembers(keys, arranged, key);
    ChunksFlatten(s, size);
    FullBatchesWithin(Chunks(s, size), size);
    FullBatchesSize(Chunks(s, size), size);
    SubDistinct(mine, s);
    ChunkCount(s, size, true);
    ArrangedCount(keys, arranged, key);
    KeptCount(|s|, |mine|, size);
  }

  lemma ArrangedCount(keys: seq<Key>, arranged: map<Key, seq<nat>>, key: Key)
    requires Arranged(keys, arranged) && key in keys
    ensures |arranged[key]| == |IndicesOf(keys, key)|
  {
    hide IndicesOf;
    Sorting.SameMembers(arranged[key], IndicesOf(keys, key));
  }

  /** All but a remainder of the group are yielded. */
  ghost predicate ButRemainder(keys: seq<Key>, kept: seq<nat>, key: Key, size: nat)
    requires size > 0
  {
    |IndicesOf(keys, key)| - |KeptOf(keys, kept, key)| == |IndicesOf(keys, key)| % size
  }

  ghost predicate Within(keys: seq<Key>, kept: seq<nat>, some: seq<Key>) {
    Sorting.Distinct(kept) && forall x :: x in kept ==> x < |keys| && keys[x] in some
  }

  lemma KeptOfJoin(keys: seq<Key>, key: Key, rest: seq<Key>, mine: seq<nat>, later: seq<nat>)
    requires key !in rest && Within(keys, later, rest) && Within(keys, mine, [key])
    ensures Within(keys, mine + later, [key] + rest)
    ensures |KeptOf(keys, mine + later, key)| == |mine|
    ensures forall k :: k in rest ==> KeptOf(keys, mine + later, k) == KeptOf(keys, later, k)
  {
    var all := mine + later;
    JoinDistinct(mine, later, all);
    assert KeptOf(keys, all, key) == Sorting.Elements(mine);
    Sorting.DistinctCardinality(mine);
    hide Sorting.Distinct, Sorting.Elements;
    forall k | k in rest ensures KeptOf(keys, all, k) == KeptOf(keys, later, k) {}
  }

  lemma RemaindersJoin(keys: seq<Key>, key: Key, rest: seq<Key>, mine: seq<nat>, later: seq<nat>, size: nat)
    requires size > 0 && key !in rest && Within(keys, later, rest) && Within(keys, mine, [key])
    requires |IndicesOf(keys, key)| - |mine| == |IndicesOf(keys, key)| % size
    requires forall k :: k in rest ==> ButRemainder(keys, later, k, size)
    ensures Within(keys, mine + later, [key] + rest)
    ensures forall k :: k in [key] + rest ==> ButRemainder(keys, mine + later, k, size)
  {
    hide IndicesOf, KeptOf, Within;
    KeptOfJoin(keys, key, rest, mine, later);
    forall k | k in [key] + rest ensures ButRemainder(keys, mine + later, k, size) {
      if k != key { assert k in rest && ButRemainder(keys, later, k, size); }
    }
  }

  lemma ScheduleFirst(ordered: seq<Key>, arranged: map<Key, seq<nat>>, size: nat)
    requires size > 0 && ordered != [] && forall key :: key in ordered ==> key in arranged
    ensures Flatten(Schedule(ordered, arranged, size, true))
      == Flatten(Yielded(Chunks(arranged[ordered[0]], size), size, true))
         + Flatten(Schedule(ordered[1..], arranged, size, true))
  {
    hide Chunks, Yielded, Flatten;
    FlattenAppend(Yielded(Chunks(arranged[ordered[0]], size), size, true),
                  Schedule(ordered[1..], arranged, size, true));
  }

  lemma {:induction false} ScheduleKeeps(keys: seq<Key>, ordered: seq<Key>, arranged: map<Key, seq<nat>>, size: nat)
    requires size > 0 && Arranged(keys, arranged)
    requires Sorting.Distinct(ordered) && forall key :: key in ordered ==> key in keys
    ensures forall key :: key in ordered ==> key in arranged
    ensures var kept := Flatten(Schedule(ordered, arranged, size, true));
      Within(keys, kept, ordered) && forall key :: key in ordered ==> ButRemainder(keys, kept, key, size)
  {
    AllArranged(keys, ordered, arranged);
    if ordered == [] {
      assert Flatten(Schedule(ordered, arranged, size, true)) == [];
    } else {
      hide Chunks, Yielded, IndicesOf, KeptOf, Flatten, Schedule, Arranged, ButRemainder, Sorting.Distinct, Within;
      var key, rest := ordered[0], ordered[1..];
      Sorting.DistinctStep(ordered);
      ScheduleKeeps(keys, rest, arranged, size);
      var mine := GroupKept(keys, arranged, key, size);
      MineWithin(keys, mine, key);
      ScheduleFirst(ordered, arranged, size);
      RemaindersJoin(keys, key, rest, mine, Flatten(Schedule(rest, arranged, size, true)), size);
      assert [key] + rest == ordered;
    }
  }

  lemma AllArranged(keys: seq<Key>, ordered: seq<Key>, arranged: map<Key, seq<nat>>)
    requires Arranged(keys, arranged) && forall key :: key in ordered ==> key in keys
    ensures forall key :: key in ordered ==> key in arranged
  {
    hide IndicesOf;
  }

  lemma MineWithin(keys: seq<Key>, mine: seq<nat>, key: Key)
    requires Sorting.Distinct(mine) && (forall x :: x in mine ==> x < |keys| && keys[x] == key)
    ensures Within(keys, mine, [key])
  {
    hide Sorting.Distinct;
  }

  /** With `drop_last` no index comes twice, and each group leaves out fewer indices than fill a
      batch. */
  lemma FewDropped(keys: seq<Key>, shuffled: seq<Key>, arranged: map<Key, seq<nat>>, curriculum: seq<string>,
                   size: nat)
    requires size > 0 && Lists(keys, shuffled) && Arranged(keys, arranged)
    ensures var ordered := OrderedKeys(curriculum, shuffled);
      && (forall key :: key in ordered ==> key in arranged)
      && var kept := Flatten(Schedule(ordered, arranged, size, true));
         && Sorting.Distinct(kept) && (forall x :: x in kept ==> x < |keys|)
         && (forall key :: key in keys ==>
               |IndicesOf(keys, key)| - |KeptOf(keys, kept, key)| == |IndicesOf(keys, key)| % size < size)
  {
    hide OrderedKeys, Schedule, Arranged, Flatten, KeyLe, Order, Sorting.Ordered, IndicesOf, KeptOf;
    var ordered := OrderedKeys(curriculum, shuffled);
    OrderedAreArranged(keys, shuffled, arranged, curriculum);
    KeyOrderIgnoresShuffle(curriculum, shuffled, shuffled);
    Sorting.SameMembers(shuffled, ordered);
    ScheduleKeeps(keys, ordered, arranged, size);
    forall key | key in keys
      ensures ButRemainder(keys, Flatten(Schedule(ordered, arranged, size, true)), key, size) {}
  }

  /** A schedule with a repeated task: an unscheduled task ranks like the repeated one. */
  lemma RepeatedTaskNotFirst()
    ensures Rank(["a", "a"], "a") == Rank(["a", "a"], "b")
  {
    assert Sorting.Elements(["a", "a"]) == {"a"};
  }
}
