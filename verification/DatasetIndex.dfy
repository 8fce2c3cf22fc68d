/** Building the index of a dataset (mmcrawler_datasets/dataset.py:110-188, 383-423): every scanned
    record is kept once or rejected once, and what is kept reads back as it was scanned. */
module DatasetIndex {
  import opened Options
  import opened RecordScan
  import Text

  /** What validation takes from a record; `task` is already canonical. */
  datatype Sample = Sample(sampleId: string, recordId: string, task: string, positiveId: Option<string>,
                           negativeIds: seq<string>, signature: seq<string>)

  datatype Ref = Ref(place: Place, sample: Sample)

  datatype Reason = InvalidRecord | DuplicateRecordId | UnderMinimum(task: string, samples: nat, minimum: int)

  datatype Rejection = Rejection(place: Place, reason: Reason)

  datatype Tally = Tally(refs: seq<Ref>, seen: nat, rejected: nat, duplicates: nat, log: seq<Rejection>)

  /** The format, and what `_index_record` makes of a record (None when it raises). */
  datatype Rules = Rules(format: Format, describe: Record -> Option<Sample>)

  function Describe(rules: Rules, record: Record): Option<Sample> { rules.describe(record) }

  function Ids(refs: seq<Ref>): set<string> { set r | r in refs :: r.sample.recordId }

  function Step(t: Tally, row: Item, rules: Rules): Tally
    requires row.Row?
  {
    match Describe(rules, row.record)
    case None =>
      t.(seen := t.seen + 1, rejected := t.rejected + 1, log := t.log + [Rejection(row.place, InvalidRecord)])
    case Some(sample) =>
      if sample.recordId in Ids(t.refs) then
        t.(seen := t.seen + 1, rejected := t.rejected + 1, duplicates := t.duplicates + 1,
           log := t.log + [Rejection(row.place, DuplicateRecordId)])
      else
        t.(seen := t.seen + 1, refs := t.refs + [Ref(row.place, sample)])
  }

  predicate Full(refs: seq<Ref>, maximum: Option<int>) { maximum.Some? && |refs| >= maximum.value }

  /** One file: the maximum is looked at only when a record has just been kept. */
  function Consume(t: Tally, items: seq<Item>, maximum: Option<int>, rules: Rules): Option<Tally>
    decreases |items|
  {
    if items == [] then Some(t)
    else if items[0].Broken? then None
    else
      var next := Step(t, items[0], rules);
      if |next.refs| > |t.refs| && Full(next.refs, maximum) then Some(next)
      else Consume(next, items[1..], maximum, rules)
  }

  function ConsumeAll(t: Tally, paths: seq<string>, files: map<string, File>, maximum: Option<int>,
                      rules: Rules): Option<Tally>
    decreases |paths|
  {
    if paths == [] then Some(t)
    else match Consume(t, FileItems(paths[0], files, rules.format), maximum, rules)
      case None => None
      case Some(next) => if Full(next.refs, maximum) then Some(next)
        else ConsumeAll(next, paths[1..], files, maximum, rules)
  }

  const NOTHING := Tally([], 0, 0, 0, [])

  // ---- minimums per task ----

  function CountOf(refs: seq<Ref>, task: string): nat {
    if refs == [] then 0 else CountOf(refs[..|refs| - 1], task) + if refs[|refs| - 1].sample.task == task then 1 else 0
  }

  predicate Undercovered(refs: seq<Ref>, minimums: map<string, int>, task: string) {
    task in minimums && minimums[task] > 0 && CountOf(refs, task) < minimums[task]
  }

  /** The refs among `some` whose task has enough samples in `refs`. */
  function Covered(some: seq<Ref>, refs: seq<Ref>, minimums: map<string, int>): seq<Ref> {
    if some == [] then []
    else
      var n := |some| - 1;
      Covered(some[..n], refs, minimums) + if Undercovered(refs, minimums, some[n].sample.task) then [] else [some[n]]
  }

  function Uncovered(some: seq<Ref>, refs: seq<Ref>, minimums: map<string, int>): seq<Rejection> {
    if some == [] then []
    else
      var n := |some| - 1;
      var task := some[n].sample.task;
      Uncovered(some[..n], refs, minimums)
      + if Undercovered(refs, minimums, task) then
          [Rejection(some[n].place, UnderMinimum(task, CountOf(refs, task), minimums[task]))]
        else []
  }

  // ---- the loops ----

  method BuildIndex(paths: seq<string>, files: map<string, File>, maximum: Option<int>, minimums: map<string, int>,
                    rules: Rules)
    returns (index: Option<Tally>)
    ensures var scanned := ConsumeAll(NOTHING, paths, files, maximum, rules);
      match scanned
      case None => index == None
      case Some(t) =>
        var dropped := Uncovered(t.refs, t.refs, minimums);
        index == Some(Tally(Covered(t.refs, t.refs, minimums), t.seen, t.rejected + |dropped|, t.duplicates,
                            t.log + dropped))
  {
    hide Consume, FileItems, Full;
    var t := NOTHING;
    for i := 0 to |paths|
      invariant ConsumeAll(t, paths[i..], files, maximum, rules) == ConsumeAll(NOTHING, paths, files, maximum, rules)
    {
      assert paths[i..][0] == paths[i] && paths[i..][1..] == paths[i + 1..];
      var next := IndexFile(t, paths[i], files, maximum, rules);
      if next.None? {
        return None;
      }
      t := next.value;
      if Full(t.refs, maximum) {
        break;
      }
    }
    var kept, dropped := ApplyTaskMinimums(t.refs, minimums);
    index := Some(Tally(kept, t.seen, t.rejected + |dropped|, t.duplicates, t.log + dropped));
  }

  /** The inner loop over one file's records. */
  method IndexFile(before: Tally, path: string, files: map<string, File>, maximum: Option<int>, rules: Rules)
    returns (after: Option<Tally>)
    ensures after == Consume(before, FileItems(path, files, rules.format), maximum, rules)
  {
    hide TextItems, TarItems;
    var items;
    if path !in files {
      return None;
    }
    match files[path] {
      case TextFile(text) => items := ScanText(path, text, rules.format);
      case TarFile(members) => items := ScanTar(path, members, rules.format);
    }
    after := IndexRows(before, items, maximum, rules);
  }

  method IndexRows(before: Tally, items: seq<Item>, maximum: Option<int>, rules: Rules) returns (after: Option<Tally>)
    ensures after == Consume(before, items, maximum, rules)
  {
    hide Step, Full;
    var t := before;
    for i := 0 to |items|
      invariant Consume(t, items[i..], maximum, rules) == Consume(before, items, maximum, rules)
    {
      assert items[i..][0] == items[i] && items[i..][1..] == items[i + 1..];
      if items[i].Broken? {
        return None;
      }
      var next := AddRow(t, items[i], rules);
      if |next.refs| > |t.refs| && Full(next.refs, maximum) {
        return Some(next);
      }
      t := next;
    }
    return Some(t);
  }

  method AddRow(t: Tally, row: Item, rules: Rules) returns (next: Tally)
    requires row.Row?
    ensures next == Step(t, row, rules)
  {
    next := t.(seen := t.seen + 1);
    var sample := Describe(rules, row.record);
    if sample.None? {
      next := next.(rejected := next.rejected + 1, log := next.log + [Rejection(row.place, InvalidRecord)]);
      return;
    }
    if sample.value.recordId in Ids(t.refs) {
      next := next.(duplicates := next.duplicates + 1, rejected := next.rejected + 1,
                    log := next.log + [Rejection(row.place, DuplicateRecordId)]);
      return;
    }
    next := next.(refs := next.refs + [Ref(row.place, sample.value)]);
  }

  method ApplyTaskMinimums(refs: seq<Ref>, minimums: map<string, int>) returns (kept: seq<Ref>, dropped: seq<Rejection>)
    ensures kept == Covered(refs, refs, minimums) && dropped == Uncovered(refs, refs, minimums)
  {
    if minimums == map[] {
      NothingUncovered(refs, refs, minimums);
      return refs, [];
    }
    var counts := CountTasks(refs);
    var undercovered := set task | task in minimums && minimums[task] > 0
                                  && (if task in counts then counts[task] else 0) < minimums[task];
    if undercovered == {} {
      forall ref | ref in refs ensures !Undercovered(refs, minimums, ref.sample.task) {
        assert ref.sample.task !in undercovered;
      }
      NothingUncovered(refs, refs, minimums);
      return refs, [];
    }
    kept, dropped := [], [];
    for i := 0 to |refs|
      invariant kept == Covered(refs[..i], refs, minimums) && dropped == Uncovered(refs[..i], refs, minimums)
    {
      assert refs[..i + 1][..i] == refs[..i];
      var task := refs[i].sample.task;
      if task in undercovered {
        var samples := if task in counts then counts[task] else 0;
        dropped := dropped + [Rejection(refs[i].place, UnderMinimum(task, samples, minimums[task]))];
      } else {
        kept := kept + [refs[i]];
      }
    }
    assert refs[..|refs|] == refs;
  }

  method CountTasks(refs: seq<Ref>) returns (counts: map<string, nat>)
    ensures forall task :: CountOf(refs, task) == if task in counts then counts[task] else 0
  {
    counts := map[];
    for i := 0 to |refs|
      invariant forall task :: CountOf(refs[..i], task) == if task in counts then counts[task] else 0
    {
      assert refs[..i + 1][..i] == refs[..i];
      var task := refs[i].sample.task;
      counts := counts[task := (if task in counts then counts[task] else 0) + 1];
    }
    assert refs[..|refs|] == refs;
  }

  lemma {:induction false} NothingUncovered(some: seq<Ref>, refs: seq<Ref>, minimums: map<string, int>)
    requires forall ref :: ref in some ==> !Undercovered(refs, minimums, ref.sample.task)
    ensures Covered(some, refs, minimums) == some && Uncovered(some, refs, minimums) == []
  {
    if some != [] {
      assert some == some[..|some| - 1] + [some[|some| - 1]];
      NothingUncovered(some[..|some| - 1], refs, minimums);
    }
  }

  // ---- what the index holds ----

  /** All files' items, one after the other. */
  function Scanned(paths: seq<string>, files: map<string, File>, rules: Rules): seq<Item> {
    if paths == [] then [] else FileItems(paths[0], files, rules.format) + Scanned(paths[1..], files, rules)
  }

  ghost predicate Rows(items: seq<Item>) { forall i :: 0 <= i < |items| ==> items[i].Row? }

  function Fold(t: Tally, rows: seq<Item>, rules: Rules): Tally
    requires Rows(rows)
  {
    if rows == [] then t else Step(Fold(t, rows[..|rows| - 1], rules), rows[|rows| - 1], rules)
  }

  lemma {:induction false} FoldFront(t: Tally, rows: seq<Item>, rules: Rules)
    requires Rows(rows) && rows != []
    ensures Fold(t, rows, rules) == Fold(Step(t, rows[0], rules), rows[1..], rules)
  {
    hide Step;
    var n := |rows| - 1;
    if n == 0 {
      assert rows[..0] == [] && rows[1..] == [];
    } else {
      FoldFront(t, rows[..n], rules);
      assert rows[..n][1..] == rows[1..][..n - 1] && rows[1..][n - 1] == rows[n];
    }
  }

  lemma {:induction false} FoldAppend(t: Tally, a: seq<Item>, b: seq<Item>, rules: Rules)
    requires Rows(a) && Rows(b)
    ensures Rows(a + b) && Fold(t, a + b, rules) == Fold(Fold(t, a, rules), b, rules)
    decreases |a|
  {
    hide Step;
    if a == [] {
      assert a + b == b;
    } else {
      FoldFront(t, a, rules);
      FoldFront(t, a + b, rules);
      assert (a + b)[1..] == a[1..] + b;
      FoldAppend(Step(t, a[0], rules), a[1..], b, rules);
    }
  }

  /** What was taken from a run of items, and whether the maximum cut it short. */
  ghost predicate Took(t: Tally, items: seq<Item>, n: nat, maximum: Option<int>, rules: Rules, after: Tally) {
    && n <= |items| && Rows(items[..n]) && after == Fold(t, items[..n], rules)
    && (n == |items| || Full(after.refs, maximum))
  }

  lemma {:induction false} ConsumeTakes(t: Tally, items: seq<Item>, maximum: Option<int>, rules: Rules) returns (n: nat)
    requires Consume(t, items, maximum, rules).Some?
    ensures Took(t, items, n, maximum, rules, Consume(t, items, maximum, rules).value)
    decreases |items|
  {
    hide Step, Full;
    assert items[..0] == [];
    if items == [] {
      n := 0;
    } else {
      var next := Step(t, items[0], rules);
      var m := 0;
      assert items[1..][..0] == [];
      if !(|next.refs| > |t.refs| && Full(next.refs, maximum)) {
        m := ConsumeTakes(next, items[1..], maximum, rules);
      }
      n := m + 1;
      TookOneMore(t, items, m, maximum, rules, Consume(t, items, maximum, rules).value);
    }
  }

  lemma TookOneMore(t: Tally, items: seq<Item>, m: nat, maximum: Option<int>, rules: Rules, after: Tally)
    requires items != [] && items[0].Row? && Took(Step(t, items[0], rules), items[1..], m, maximum, rules, after)
    ensures Took(t, items, m + 1, maximum, rules, after)
  {
    hide Step, Fold, Full;
    var taken := items[..m + 1];
    assert taken == [items[0]] + items[1..][..m];
    assert taken[1..] == items[1..][..m];
    FoldFront(t, taken, rules);
  }

  lemma {:induction false} ConsumeAllTakes(t: Tally, paths: seq<string>, files: map<string, File>, maximum: Option<int>,
                                           rules: Rules)
    returns (n: nat)
    requires ConsumeAll(t, paths, files, maximum, rules).Some?
    ensures Took(t, Scanned(paths, files, rules), n, maximum, rules, ConsumeAll(t, paths, files, maximum, rules).value)
    decreases |paths|
  {
    hide Step, FileItems, Consume, Full;
    if paths == [] {
      n := 0;
    } else {
      var items := FileItems(paths[0], files, rules.format);
      var rest := Scanned(paths[1..], files, rules);
      var m := ConsumeTakes(t, items, maximum, rules);
      var next := Consume(t, items, maximum, rules).value;
      if Full(next.refs, maximum) {
        n := m;
        assert (items + rest)[..n] == items[..m];
      } else {
        var k := ConsumeAllTakes(next, paths[1..], files, maximum, rules);
        n := m + k;
        assert items[..m] == items;
        assert (items + rest)[..n] == items + rest[..k];
        FoldAppend(t, items, rest[..k], rules);
      }
    }
  }

  /** Described, and no earlier row with the same record id. */
  ghost predicate First(rows: seq<Item>, i: nat, rules: Rules)
    requires Rows(rows) && i < |rows|
  {
    var s := Describe(rules, rows[i].record);
    && s.Some?
    && forall j :: 0 <= j < i ==>
         var other := Describe(rules, rows[j].record); other.Some? ==> other.value.recordId != s.value.recordId
  }

  /** The rows to keep, by looking back at the scan only. */
  ghost function Kept(rows: seq<Item>, rules: Rules): seq<Ref>
    requires Rows(rows)
  {
    if rows == [] then []
    else
      var n := |rows| - 1;
      Kept(rows[..n], rules)
      + if First(rows, n, rules) then [Ref(rows[n].place, Describe(rules, rows[n].record).value)] else []
  }

  lemma {:induction false} KeptIds(rows: seq<Item>, rules: Rules, id: string)
    requires Rows(rows)
    ensures id in Ids(Kept(rows, rules)) <==>
            exists j :: 0 <= j < |rows| && Describe(rules, rows[j].record).Some?
              && Describe(rules, rows[j].record).value.recordId == id
  {
    hide Describe;
    if rows != [] {
      var n := |rows| - 1;
      var front := rows[..n];
      KeptIds(front, rules, id);
      var s := Describe(rules, rows[n].record);
      assert forall j :: 0 <= j < n ==> rows[j] == front[j];
      if First(rows, n, rules) {
        assert Ids(Kept(rows, rules)) == Ids(Kept(front, rules)) + {s.value.recordId};
      }
    }
  }

  lemma KeptStep(rows: seq<Item>, n: nat, rules: Rules)
    requires Rows(rows) && |rows| == n + 1 && Describe(rules, rows[n].record).Some?
    ensures First(rows, n, rules) <==>
            Describe(rules, rows[n].record).value.recordId !in Ids(Kept(rows[..n], rules))
  {
    hide Describe;
    KeptIds(rows[..n], rules, Describe(rules, rows[n].record).value.recordId);
    assert forall j :: 0 <= j < n ==> rows[j] == rows[..n][j];
  }

  /** The books: everything seen is kept or rejected, and everything rejected is logged. */
  ghost predicate Balanced(t: Tally) {
    && t.seen == |t.refs| + t.rejected && |t.log| == t.rejected && t.duplicates <= t.rejected
  }

  ghost predicate DistinctIds(refs: seq<Ref>) {
    forall i, j :: 0 <= i < j < |refs| ==> refs[i].sample.recordId != refs[j].sample.recordId
  }

  lemma {:induction false} FoldKeeps(rows: seq<Item>, rules: Rules)
    requires Rows(rows)
    ensures var t := Fold(NOTHING, rows, rules);
      t.refs == Kept(rows, rules) && t.seen == |rows| && Balanced(t) && DistinctIds(t.refs)
  {
    if rows != [] {
      var n := |rows| - 1;
      FoldKeeps(rows[..n], rules);
      var before := Fold(NOTHING, rows[..n], rules);
      hide Describe, Kept, First;
      var s := Describe(rules, rows[n].record);
      KeptLast(rows, n, rules);
      if s.Some? {
        KeptStep(rows, n, rules);
        if s.value.recordId !in Ids(before.refs) {
          forall i | 0 <= i < |before.refs| ensures before.refs[i].sample.recordId != s.value.recordId {
            assert before.refs[i] in before.refs;
          }
        }
      }
    }
  }

  lemma KeptLast(rows: seq<Item>, n: nat, rules: Rules)
    requires Rows(rows) && |rows| == n + 1
    ensures Kept(rows, rules) == Kept(rows[..n], rules)
              + if First(rows, n, rules) then [Ref(rows[n].place, Describe(rules, rows[n].record).value)] else []
    ensures First(rows, n, rules) ==> Describe(rules, rows[n].record).Some?
  {}

  /** A ref whose place still holds the record it was made from. */
  ghost predicate ReadsBack(files: map<string, File>, ref: Ref, rules: Rules) {
    exists record :: ReadRecord(files, ref.place, rules.format) == Some(record)
      && Describe(rules, record) == Some(ref.sample)
  }

  lemma {:induction false} ScannedReadsBack(paths: seq<string>, files: map<string, File>, rules: Rules)
    ensures forall item :: item in Scanned(paths, files, rules) && item.Row? ==>
      ReadRecord(files, item.place, rules.format) == Some(item.record)
  {
    hide FileItems, ReadRecord;
    if paths != [] {
      ScanReadsBack(files, paths[0], rules.format);
      ScannedReadsBack(paths[1..], files, rules);
    }
  }

  lemma {:induction false} KeptReadsBack(rows: seq<Item>, files: map<string, File>, rules: Rules)
    requires Rows(rows)
    requires forall row :: row in rows ==> ReadRecord(files, row.place, rules.format) == Some(row.record)
    ensures forall ref :: ref in Kept(rows, rules) ==> ReadsBack(files, ref, rules)
  {
    hide ReadRecord, Describe;
    if rows != [] {
      var n := |rows| - 1;
      KeptReadsBack(rows[..n], files, rules);
      KeptLast(rows, n, rules);
      assert rows[n] in rows;
    }
  }

  /** Without an error the index is made of a stretch of the scan from its start, cut short only by
      the maximum: it keeps the first described row of each record id, in scan order; everything is
      counted and logged; and every kept ref reads back the record that was scanned. */
  lemma IndexSound(paths: seq<string>, files: map<string, File>, maximum: Option<int>, rules: Rules) returns (n: nat)
    requires ConsumeAll(NOTHING, paths, files, maximum, rules).Some?
    ensures var t, all := ConsumeAll(NOTHING, paths, files, maximum, rules).value, Scanned(paths, files, rules);
      && n <= |all| && Rows(all[..n]) && (n == |all| || Full(t.refs, maximum))
      && t.refs == Kept(all[..n], rules) && t.seen == n && Balanced(t) && DistinctIds(t.refs)
      && forall ref :: ref in t.refs ==> ReadsBack(files, ref, rules)
  {
    n := ConsumeAllTakes(NOTHING, paths, files, maximum, rules);
    hide ConsumeAll, Step, Kept, Balanced, DistinctIds, ReadRecord, Fold, ReadsBack;
    var rows := Scanned(paths, files, rules)[..n];
    FoldKeeps(rows, rules);
    ScannedReadsBack(paths, files, rules);
    KeptReadsBack(rows, files, rules);
  }

  // ---- minimums ----

  lemma {:induction false} CoveredCounts(some: seq<Ref>, refs: seq<Ref>, minimums: map<string, int>, task: string)
    ensures |Covered(some, refs, minimums)| + |Uncovered(some, refs, minimums)| == |some|
    ensures CountOf(Covered(some, refs, minimums), task)
      == if Undercovered(refs, minimums, task) then 0 else CountOf(some, task)
    ensures forall ref :: ref in Covered(some, refs, minimums) ==> ref in some
  {
    hide Undercovered;
    if some != [] {
      var n := |some| - 1;
      CoveredCounts(some[..n], refs, minimums, task);
      var front, all := Covered(some[..n], refs, minimums), Covered(some, refs, minimums);
      if all != front { assert all[..|all| - 1] == front; }
    }
  }

  /** After the minimums every task with a positive minimum is absent or at its minimum, other
      counts are as before, and the books still balance. */
  lemma MinimumsMet(t: Tally, minimums: map<string, int>, task: string)
    requires Balanced(t)
    ensures var dropped := Uncovered(t.refs, t.refs, minimums);
      var kept := Covered(t.refs, t.refs, minimums);
      && Balanced(Tally(kept, t.seen, t.rejected + |dropped|, t.duplicates, t.log + dropped))
      && (task in minimums && minimums[task] > 0 ==> CountOf(kept, task) == 0 || CountOf(kept, task) >= minimums[task])
      && (CountOf(kept, task) == CountOf(t.refs, task)
          || (Undercovered(t.refs, minimums, task) && CountOf(kept, task) == 0))
  {
    CoveredCounts(t.refs, t.refs, minimums, task);
  }

  // ---- the maximum ----

  lemma {:induction false} ConsumeWithin(t: Tally, items: seq<Item>, m: nat, rules: Rules)
    requires |t.refs| < m && Consume(t, items, Some(m), rules).Some?
    ensures |Consume(t, items, Some(m), rules).value.refs| <= m
    decreases |items|
  {
    if items != [] {
      var next := Step(t, items[0], rules);
      if |next.refs| < m { ConsumeWithin(next, items[1..], m, rules); }
    }
  }

  lemma {:induction false} ConsumeAllWithin(t: Tally, paths: seq<string>, files: map<string, File>, m: nat,
                                            rules: Rules)
    requires |t.refs| < m && ConsumeAll(t, paths, files, Some(m), rules).Some?
    ensures |ConsumeAll(t, paths, files, Some(m), rules).value.refs| <= m
    decreases |paths|
  {
    hide FileItems, Step;
    if paths != [] {
      var items := FileItems(paths[0], files, rules.format);
      ConsumeWithin(t, items, m, rules);
      var next := Consume(t, items, Some(m), rules).value;
      if |next.refs| < m { ConsumeAllWithin(next, paths[1..], files, m, rules); }
    }
  }

  predicate Usable(item: Item, rules: Rules) { item.Row? && Describe(rules, item.record).Some? }

  lemma {:induction false} ConsumeNone(t: Tally, items: seq<Item>, rules: Rules)
    requires t.refs == [] && Consume(t, items, Some(0), rules).Some?
    ensures |Consume(t, items, Some(0), rules).value.refs|
      == if exists item :: item in items && Usable(item, rules) then 1 else 0
    decreases |items|
  {
    if items != [] {
      var next := Step(t, items[0], rules);
      if Usable(items[0], rules) {
        assert items[0] in items;
      } else {
        ConsumeNone(next, items[1..], rules);
        assert items == [items[0]] + items[1..];
      }
    }
  }

  /** The index respects its maximum exactly when the maximum is positive or the first file holds no
      usable record: a maximum of zero still keeps that record. */
  lemma MaximumHeldIff(paths: seq<string>, files: map<string, File>, m: nat, rules: Rules)
    requires ConsumeAll(NOTHING, paths, files, Some(m), rules).Some?
    ensures |ConsumeAll(NOTHING, paths, files, Some(m), rules).value.refs| <= m <==>
            m > 0 || paths == []
              || !exists item :: item in FileItems(paths[0], files, rules.format) && Usable(item, rules)
  {
    hide FileItems, Step, Consume;
    if m > 0 {
      ConsumeAllWithin(NOTHING, paths, files, m, rules);
    } else if paths != [] {
      ConsumeNone(NOTHING, FileItems(paths[0], files, rules.format), rules);
    }
  }

  /** A single usable record is kept under a maximum of zero. */
  lemma ZeroKeepsOne(rules: Rules)
    requires NameOk(rules.format, "a.json") && rules.format.maxRecordBytes >= 2 && rules.format.maxTarMembers >= 1
    requires var record := Parse(rules.format, Text.Strip("{}"));
      record.Some? && Describe(rules, record.value).Some?
    ensures var files := map["a.tar" := TarFile([Member("a.json", true, 2, Some("{}"))])];
      var index := ConsumeAll(NOTHING, ["a.tar"], files, Some(0), rules);
      index.Some? && |index.value.refs| == 1
  {
    hide Text.Strip;
    var member := Member("a.json", true, 2, Some("{}"));
    var item := MemberItem("a.tar", member, 1, {}, rules.format);
    assert TarItems("a.tar", [member], 0, {}, rules.format) == [item] by {
      assert [member][1..] == [];
    }
  }
}
