/** Assigning grouping keys to train, validation and test (mmcrawler_datasets/schema.py:553-664).
    Ratios are reals; `digest` is any function from keys to strings. */
module SplitAssignment {
  import opened Options
  import Sorting
  import Text

  datatype Split = Train | Validation | Test

  datatype Ratios = Ratios(train: real, validation: real, test: real)

  /** What the constructor stores: fractions that sum to one. */
  ghost predicate Normalised(r: Ratios) {
    r.train >= 0.0 && r.validation >= 0.0 && r.test >= 0.0 && r.train + r.validation + r.test == 1.0
  }

  method Normalise(train: real, validation: real, test: real) returns (r: Option<Ratios>)
    ensures r.None? <==> train < 0.0 || validation < 0.0 || test < 0.0
    ensures r.Some? ==> Normalised(r.value)
    ensures r.Some? && train + validation + test > 0.0 ==>
              var total := train + validation + test;
              r.value.train * total == train && r.value.validation * total == validation && r.value.test * total == test
    ensures r.Some? && train + validation + test == 0.0 ==> r.value == Ratios(1.0, 0.0, 0.0)
  {
    if train < 0.0 || validation < 0.0 || test < 0.0 {
      return None;
    }
    var total := train + validation + test;
    if total <= 0.0 {
      return Some(Ratios(1.0, 0.0, 0.0));
    }
    Fractions(train, validation, test, total);
    return Some(Ratios(train / total, validation / total, test / total));
  }

  lemma Fractions(a: real, b: real, c: real, total: real)
    requires a >= 0.0 && b >= 0.0 && c >= 0.0 && total == a + b + c > 0.0
    ensures a / total >= 0.0 && b / total >= 0.0 && c / total >= 0.0
    ensures a / total + b / total + c / total == 1.0
  {
    var x, y, z := a / total, b / total, c / total;
    assert x * total == a && y * total == b && z * total == c;
    assert (x + y + z - 1.0) * total == 0.0;
  }

  // ---- the order of the keys ----

  type Digest = string -> string

  /** The comparison of the tuples (digest, key). */
  predicate KeyLe(digest: Digest, a: string, b: string) {
    if digest(a) == digest(b) then Text.StringLe(a, b) else Text.StringLe(digest(a), digest(b))
  }

  function Order(digest: Digest): (string, string) -> bool { (a, b) => KeyLe(digest, a, b) }

  lemma OrderIsTotal(digest: Digest)
    ensures Sorting.TotalOrder(Order(digest))
  {
    hide Text.StringLe;
    var le := Order(digest);
    forall x, y ensures (le(x, y) || le(y, x)) && (le(x, y) && le(y, x) ==> x == y) {
      Text.StringLeTotal(x, y);
      Text.StringLeTotal(digest(x), digest(y));
    }
    forall x, y, z | le(x, y) && le(y, z) ensures le(x, z) { KeyLeTransitive(digest, x, y, z); }
  }

  lemma KeyLeTransitive(digest: Digest, a: string, b: string, c: string)
    requires KeyLe(digest, a, b) && KeyLe(digest, b, c)
    ensures KeyLe(digest, a, c)
  {
    hide Text.StringLe;
    if digest(a) == digest(b) && digest(b) == digest(c) {
      Text.StringLeTransitive(a, b, c);
    } else if digest(a) != digest(b) && digest(b) != digest(c) {
      Text.StringLeTransitive(digest(a), digest(b), digest(c));
      Text.StringLeTotal(digest(a), digest(b));
    }
  }

  function Deduplicated(keys: seq<string>): (r: seq<string>)
    ensures forall k :: k in r <==> k in keys
  {
    if keys == [] then []
    else
      var n := |keys| - 1;
      var front := Deduplicated(keys[..n]);
      if keys[n] in keys[..n] then front else front + [keys[n]]
  }

  lemma {:induction false} DeduplicatedDistinct(keys: seq<string>)
    ensures Sorting.Distinct(Deduplicated(keys))
  {
    if keys != [] { DeduplicatedDistinct(keys[..|keys| - 1]); }
  }

  /** `sorted(set(keys), key=...)` */
  function UniqueKeys(digest: Digest, keys: seq<string>): seq<string> {
    Sorting.Sort(Deduplicated(keys), Order(digest))
  }

  lemma UniqueKeysAre(digest: Digest, keys: seq<string>)
    ensures var u := UniqueKeys(digest, keys); Sorting.Distinct(u) && (forall k :: k in u <==> k in keys)
  {
    var d, u := Deduplicated(keys), UniqueKeys(digest, keys);
    DeduplicatedDistinct(keys);
    Sorting.SameMembers(u, d);
    Sorting.DistinctByCount(d);
    Sorting.DistinctByCount(u);
  }

  lemma UniqueKeysBySet(digest: Digest, a: seq<string>, b: seq<string>)
    requires forall k :: k in a <==> k in b
    ensures UniqueKeys(digest, a) == UniqueKeys(digest, b)
  {
    DeduplicatedDistinct(a);
    DeduplicatedDistinct(b);
    OrderIsTotal(digest);
    Sorting.DistinctSameElements(Deduplicated(a), Deduplicated(b));
    Sorting.SortCanonical(Deduplicated(a), Deduplicated(b), Order(digest));
  }

  // ---- the sizes ----

  function TargetCount(total: nat, ratio: real, minimum: nat): nat {
    if total == 0 || ratio <= 0.0 then 0
    else
      var n := (total as real * ratio).Floor;
      if n > minimum then n else minimum
  }

  function Target(total: nat, ratio: real): nat {
    TargetCount(total, ratio, if ratio > 0.0 && total >= 3 then 1 else 0)
  }

  /** A split is meant to get the whole keys in its share; from three keys on at least one, unless its
      ratio is zero. */
  lemma TargetSays(total: nat, ratio: real)
    requires ratio >= 0.0
    ensures var n := Target(total, ratio);
      && n as real <= (if total as real * ratio < 1.0 then 1.0 else total as real * ratio)
      && total as real * ratio < n as real + 1.0
      && (total as real * ratio < 1.0 ==> n == if total >= 3 && ratio > 0.0 then 1 else 0)
  {
    if total > 0 && ratio > 0.0 {
      assert total as real * ratio >= 0.0;
    }
  }

  /** The larger target, test first, gives way until a train key is left. */
  function Balanced(total: nat, v: nat, t: nat): (nat, nat)
    requires total > 0
    decreases v + t
  {
    if v + t <= total - 1 then (v, t)
    else if t >= v then Balanced(total, v, t - 1)
    else Balanced(total, v - 1, t)
  }

  method Rebalance(total: nat, validation: nat, test: nat) returns (v: nat, t: nat)
    requires total > 0
    ensures (v, t) == Balanced(total, validation, test)
  {
    v, t := validation, test;
    while v + t > total - 1
      invariant Balanced(total, v, t) == Balanced(total, validation, test)
      decreases v + t
    {
      if t >= v && t > 0 {
        t := t - 1;
        continue;
      }
      if v > 0 {
        v := v - 1;
        continue;
      }
      break;
    }
  }

  /** Rebalancing takes away exactly what is needed to leave one train key, empties no split when
      there are three keys or more, and takes from a split only while it is not the smaller one. */
  lemma {:induction false} BalancedFits(total: nat, v: nat, t: nat)
    requires total > 0
    ensures var (x, y) := Balanced(total, v, t);
      && x <= v && y <= t
      && x + y == (if v + t <= total - 1 then v + t else total - 1)
      && (total >= 3 && v > 0 ==> x > 0) && (total >= 3 && t > 0 ==> y > 0)
      && (x < v ==> y <= x) && (y < t ==> x <= y + 1)
    decreases v + t
  {
    if v + t > total - 1 {
      if t >= v { BalancedFits(total, v, t - 1); } else { BalancedFits(total, v - 1, t); }
    }
  }

  function Sizes(total: nat, r: Ratios): (nat, nat)
    requires total > 0
  {
    Balanced(total, Target(total, r.validation), Target(total, r.test))
  }

  // ---- the assignment ----

  function SplitAt(i: nat, sizes: (nat, nat)): Split {
    if i < sizes.0 then Validation else if i < sizes.0 + sizes.1 then Test else Train
  }

  /** Slices of the ordered distinct keys: validation, then test, then train. */
  ghost predicate Sliced(unique: seq<string>, r: Ratios, assignments: map<string, Split>) {
    && (forall k :: k in assignments <==> k in unique)
    && (forall i :: 0 <= i < |unique| ==> assignments[unique[i]] == SplitAt(i, Sizes(|unique|, r)))
  }

  method AssignMany(digest: Digest, r: Ratios, keys: seq<string>) returns (assignments: map<string, Split>)
    ensures Sliced(UniqueKeys(digest, keys), r, assignments)
  {
    hide UniqueKeys, Target, Balanced, Painted, SplitAt, Sorting.Distinct;
    var unique := UniqueKeys(digest, keys);
    UniqueKeysAre(digest, keys);
    if unique == [] {
      return map[];
    }
    hide Sliced;
    var total := |unique|;
    var v, t := Rebalance(total, Target(total, r.validation), Target(total, r.test));
    BalancedFits(total, Target(total, r.validation), Target(total, r.test));
    var trained := AssignSlice(map[], unique, v + t, total, Train);
    var validated := AssignSlice(trained, unique, 0, v, Validation);
    assignments := AssignSlice(validated, unique, v, v + t, Test);
    SlicesCover(unique, v, t, trained, validated, assignments, r);
  }

  /** The slice's keys get the split; the others keep theirs. */
  ghost predicate Painted(before: map<string, Split>, unique: seq<string>, low: nat, high: nat, split: Split,
                          after: map<string, Split>)
    requires low <= high <= |unique|
  {
    && (forall k :: k in after <==> k in before || k in unique[low..high])
    && (forall k :: k in after ==> after[k] == if k in unique[low..high] then split else before[k])
  }

  lemma PaintedAt(before: map<string, Split>, unique: seq<string>, low: nat, high: nat, split: Split,
                  after: map<string, Split>, i: nat)
    requires low <= high <= |unique| && Sorting.Distinct(unique) && i < |unique|
    requires Painted(before, unique, low, high, split, after)
    ensures unique[i] in after <==> low <= i < high || unique[i] in before
    ensures low <= i < high ==> after[unique[i]] == split
    ensures !(low <= i < high) && unique[i] in before ==> after[unique[i]] == before[unique[i]]
  {
    var slice := unique[low..high];
    if low <= i < high {
      assert slice[i - low] == unique[i];
    } else {
      forall j | 0 <= j < |slice| ensures slice[j] != unique[i] { assert slice[j] == unique[low + j]; }
    }
  }

  lemma SlicesCover(unique: seq<string>, v: nat, t: nat, trained: map<string, Split>, validated: map<string, Split>,
                    assignments: map<string, Split>, r: Ratios)
    requires 0 < |unique| && v + t <= |unique| && Sorting.Distinct(unique) && (v, t) == Sizes(|unique|, r)
    requires Painted(map[], unique, v + t, |unique|, Train, trained)
    requires Painted(trained, unique, 0, v, Validation, validated)
    requires Painted(validated, unique, v, v + t, Test, assignments)
    ensures Sliced(unique, r, assignments)
  {
    hide Sizes, Sorting.Distinct;
    assert (forall k :: k in assignments <==> k in unique) by {
      assert unique[..] == unique[0..v] + unique[v..v + t] + unique[v + t..];
    }
    hide Painted;
    forall i | 0 <= i < |unique|
      ensures unique[i] in assignments && assignments[unique[i]] == SplitAt(i, Sizes(|unique|, r))
    {
      PaintedAt(map[], unique, v + t, |unique|, Train, trained, i);
      PaintedAt(trained, unique, 0, v, Validation, validated, i);
      PaintedAt(validated, unique, v, v + t, Test, assignments, i);
    }
  }

  method AssignSlice(before: map<string, Split>, unique: seq<string>, low: nat, high: nat, split: Split)
    returns (assignments: map<string, Split>)
    requires low <= high <= |unique|
    ensures Painted(before, unique, low, high, split, assignments)
  {
    assignments := before;
    for i := low to high
      invariant Painted(before, unique, low, i, split, assignments)
    {
      assignments := assignments[unique[i] := split];
      assert unique[low..i + 1] == unique[low..i] + [unique[i]];
    }
  }

  ghost predicate Has(assignments: map<string, Split>, split: Split) {
    exists k :: k in assignments && assignments[k] == split
  }

  lemma SliceHas(unique: seq<string>, r: Ratios, assignments: map<string, Split>, i: nat)
    requires Sliced(unique, r, assignments) && i < |unique|
    ensures Has(assignments, SplitAt(i, Sizes(|unique|, r)))
  {
    hide SplitAt, Sizes;
    assert unique[i] in unique;
  }

  /** Every given key is in exactly one split, nothing else is; a key leaves a train key; from three
      distinct keys on, a positive ratio leaves a key in its split, and a zero ratio never does. */
  lemma AssignmentCovers(digest: Digest, r: Ratios, keys: seq<string>, assignments: map<string, Split>)
    requires Sliced(UniqueKeys(digest, keys), r, assignments)
    ensures forall k :: k in assignments <==> k in keys
    ensures keys != [] ==> Has(assignments, Train)
    ensures |assignments| >= 3 && r.validation > 0.0 ==> Has(assignments, Validation)
    ensures |assignments| >= 3 && r.test > 0.0 ==> Has(assignments, Test)
    ensures r.validation == 0.0 ==> !Has(assignments, Validation)
    ensures r.test == 0.0 ==> !Has(assignments, Test)
  {
    var unique := UniqueKeys(digest, keys);
    UniqueKeysAre(digest, keys);
    hide UniqueKeys, Balanced;
    Sorting.DistinctCardinality(unique);
    assert assignments.Keys == Sorting.Elements(unique);
    if keys != [] {
      assert keys[0] in unique;
      var n := |unique|;
      BalancedFits(n, Target(n, r.validation), Target(n, r.test));
      var sizes := Sizes(n, r);
      SliceHas(unique, r, assignments, n - 1);
      if n >= 3 && r.validation > 0.0 { SliceHas(unique, r, assignments, 0); }
      if n >= 3 && r.test > 0.0 { SliceHas(unique, r, assignments, sizes.0); }
    }
  }

  /** The assignment depends only on the set of keys. */
  lemma AssignmentBySet(digest: Digest, r: Ratios, a: seq<string>, b: seq<string>, x: map<string, Split>,
                        y: map<string, Split>)
    requires forall k :: k in a <==> k in b
    requires Sliced(UniqueKeys(digest, a), r, x) && Sliced(UniqueKeys(digest, b), r, y)
    ensures x == y
  {
    UniqueKeysBySet(digest, a, b);
    hide UniqueKeys, Sizes, SplitAt;
    var unique := UniqueKeys(digest, a);
    forall k | k in x ensures k in y && x[k] == y[k] {
      var i :| 0 <= i < |unique| && unique[i] == k;
    }
  }

  /** Validation gets the first keys, then test, then train. */
  function Turn(split: Split): nat {
    match split
    case Validation => 0
    case Test => 1
    case Train => 2
  }

  /** Digests compared as strings, and the keys themselves where two digests agree. */
  ghost predicate Earlier(digest: Digest, a: string, b: string) {
    if digest(a) == digest(b) then Text.Alphabetical(a, b) else Text.Alphabetical(digest(a), digest(b))
  }

  /** The keys go to validation, test and train in the order of their digests. */
  lemma SplitsFollowDigests(digest: Digest, r: Ratios, keys: seq<string>, assignments: map<string, Split>, a: string,
                            b: string)
    requires Sliced(UniqueKeys(digest, keys), r, assignments) && a in assignments && b in assignments
    requires Turn(assignments[a]) < Turn(assignments[b])
    ensures Earlier(digest, a, b)
  {
    var unique := UniqueKeys(digest, keys);
    OrderIsTotal(digest);
    Sorting.SortOrdered(Deduplicated(keys), Order(digest));
    assert Sorting.Ordered(unique, Order(digest));
    hide UniqueKeys, Sizes, Text.StringLe, Text.Alphabetical;
    var i :| 0 <= i < |unique| && unique[i] == a;
    var j :| 0 <= j < |unique| && unique[j] == b;
    assert i < j;
    assert KeyLe(digest, a, b);
    Text.StringLeIff(a, b);
    Text.StringLeIff(digest(a), digest(b));
  }

  function KeysOf(assignments: map<string, Split>, split: Split): set<string> {
    set k | k in assignments && assignments[k] == split
  }

  lemma AsManyKeys(digest: Digest, r: Ratios, keys: seq<string>, assignments: map<string, Split>)
    requires Sliced(UniqueKeys(digest, keys), r, assignments) && keys != []
    ensures var unique := UniqueKeys(digest, keys);
      Sorting.Distinct(unique) && |assignments| == |unique| && |unique| > 0
  {
    var unique := UniqueKeys(digest, keys);
    UniqueKeysAre(digest, keys);
    hide UniqueKeys, Sizes, SplitAt;
    assert keys[0] in unique;
    Sorting.DistinctCardinality(unique);
    assert assignments.Keys == Sorting.Elements(unique);
  }

  lemma SizesFit(total: nat, r: Ratios)
    requires total > 0
    ensures var (v, t) := Sizes(total, r); v + t < total
  {
    hide Target, Balanced;
    BalancedFits(total, Target(total, r.validation), Target(total, r.test));
  }

  /** The first slices have the rebalanced sizes. */
  lemma SplitSizes(digest: Digest, r: Ratios, keys: seq<string>, assignments: map<string, Split>)
    requires Sliced(UniqueKeys(digest, keys), r, assignments) && keys != []
    ensures |assignments| > 0
    ensures var n := |assignments|;
      (|KeysOf(assignments, Validation)|, |KeysOf(assignments, Test)|)
      == Balanced(n, Target(n, r.validation), Target(n, r.test))
  {
    hide UniqueKeys, Balanced, Target, Sliced, KeysOf, Sorting.Distinct;
    AsManyKeys(digest, r, keys, assignments);
    var unique := UniqueKeys(digest, keys);
    SizesFit(|unique|, r);
    var (v, t) := Sizes(|unique|, r);
    SliceSize(unique, r, assignments, 0, v, Validation);
    SliceSize(unique, r, assignments, v, v + t, Test);
  }

  lemma SliceSize(unique: seq<string>, r: Ratios, assignments: map<string, Split>, low: nat, high: nat, split: Split)
    requires unique != [] && Sorting.Distinct(unique) && Sliced(unique, r, assignments) && low <= high <= |unique|
    requires forall i :: 0 <= i < |unique| ==> (low <= i < high <==> SplitAt(i, Sizes(|unique|, r)) == split)
    ensures |KeysOf(assignments, split)| == high - low
  {
    hide Sizes, SplitAt;
    var slice := unique[low..high];
    assert Sorting.Distinct(slice);
    Sorting.DistinctCardinality(slice);
    forall k ensures k in KeysOf(assignments, split) <==> k in Sorting.Elements(slice) {
      if k in assignments {
        var i :| 0 <= i < |unique| && unique[i] == k;
        if low <= i < high { assert slice[i - low] == k; }
        if k in slice {
          var j :| 0 <= j < |slice| && slice[j] == k;
          assert unique[low + j] == k;
        }
      }
    }
    assert KeysOf(assignments, split) == Sorting.Elements(slice);
  }
}
