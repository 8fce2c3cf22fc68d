/** The event rate-limit filter (logger/filters.py:32-129): a bounded table of last accepted
    times, ordered by recency, that prunes itself. Calls are sequential and their clock readings
    do not decrease. */
module RateLimit {
  import opened Options

  /** The event name and the values of the rule's fields; a field the record lacks is None. */
  datatype Key = Key(event: string, values: seq<Option<string>>)

  datatype Entry = Entry(key: Key, time: real)

  /** The ordered dict: first entry is the oldest. */
  type Table = seq<Entry>

  datatype Rules = Rules(minInterval: real, fieldNames: seq<string>)

  datatype Config = Config(defaultInterval: real, governance: map<string, Rules>, maxEntries: nat)

  /** One call: the record's event name and attributes, and the clock reading. */
  datatype Request = Request(event: string, attributes: map<string, string>, now: real)

  function Lookup(attributes: map<string, string>, name: string): Option<string> {
    if name in attributes then Some(attributes[name]) else None
  }

  function KeyOf(c: Config, r: Request): Key {
    var names := if r.event in c.governance then c.governance[r.event].fieldNames else [];
    Key(r.event, seq(|names|, i requires 0 <= i < |names| => Lookup(r.attributes, names[i])))
  }

  function Interval(c: Config, event: string): real {
    if event in c.governance then c.governance[event].minInterval else c.defaultInterval
  }

  ghost predicate IsMaxInterval(c: Config, m: real) {
    && m >= 1.0 && m >= c.defaultInterval
    && (forall event :: event in c.governance ==> c.governance[event].minInterval <= m)
    && (m == 1.0 || m == c.defaultInterval
        || exists event :: event in c.governance && c.governance[event].minInterval == m)
  }

  lemma MaxIntervalExists(c: Config)
    ensures exists m :: IsMaxInterval(c, m)
    decreases |c.governance|
  {
    if c.governance == map[] {
      assert IsMaxInterval(c, if c.defaultInterval > 1.0 then c.defaultInterval else 1.0);
    } else {
      var event :| event in c.governance;
      var fewer := c.(governance := c.governance - {event});
      MaxIntervalExists(fewer);
      var m :| IsMaxInterval(fewer, m);
      var x := c.governance[event].minInterval;
      var top := if x > m then x else m;
      assert IsMaxInterval(c, top) by {
        forall e | e in c.governance ensures c.governance[e].minInterval <= top {
          if e != event { assert fewer.governance[e] == c.governance[e]; }
        }
        if m != 1.0 && m != c.defaultInterval {
          var e :| e in fewer.governance && fewer.governance[e].minInterval == m;
          assert c.governance[e].minInterval == m;
        }
      }
    }
  }

  /** The largest configured interval, and at least one second. */
  ghost function MaxInterval(c: Config): (m: real)
    ensures IsMaxInterval(c, m)
  {
    MaxIntervalExists(c);
    var m :| IsMaxInterval(c, m);
    m
  }

  // ---- the table as a value ----

  function Keys(t: Table): set<Key> { set e | e in t :: e.key }

  function Find(t: Table, key: Key): (r: Option<real>)
    ensures r.Some? <==> key in Keys(t)
    ensures r.Some? ==> Entry(key, r.value) in t
  {
    if t == [] then None
    else if t[0].key == key then Some(t[0].time)
    else Find(t[1..], key)
  }

  function Without(t: Table, key: Key): (r: Table)
    ensures forall e :: e in r <==> e in t && e.key != key
    ensures |r| <= |t|
  {
    if t == [] then []
    else if t[0].key == key then Without(t[1..], key)
    else [t[0]] + Without(t[1..], key)
  }

  /** Assignment followed by `move_to_end`. */
  function Remembered(t: Table, key: Key, now: real): Table {
    Without(t, key) + [Entry(key, now)]
  }

  /** The first pruning loop: entries older than the threshold, from the front. */
  function Recent(t: Table, threshold: real): (r: Table)
    ensures |r| <= |t|
  {
    if t != [] && t[0].time < threshold then Recent(t[1..], threshold) else t
  }

  lemma {:induction false} RecentIsSuffix(t: Table, threshold: real)
    ensures var r := Recent(t, threshold);
      r == t[|t| - |r|..] && (forall e :: e in t && e !in r ==> e.time < threshold)
  {
    if t != [] && t[0].time < threshold { RecentIsSuffix(t[1..], threshold); }
  }

  /** The second pruning loop: oldest entries until the table fits. */
  function Fitting(t: Table, limit: nat): Table {
    if |t| > limit then t[|t| - limit..] else t
  }

  ghost function Threshold(c: Config, now: real): real { now - MaxInterval(c) * 2.0 }

  ghost function Pruned(c: Config, t: Table, now: real): Table {
    if |t| > c.maxEntries then Fitting(Recent(t, Threshold(c, now)), c.maxEntries) else t
  }

  ghost function Accepts(c: Config, t: Table, r: Request): bool {
    var previous := Find(t, KeyOf(c, r));
    Interval(c, r.event) <= 0.0 || previous.None? || r.now - previous.value >= Interval(c, r.event)
  }

  ghost function After(c: Config, t: Table, r: Request): Table {
    if Interval(c, r.event) <= 0.0 || !Accepts(c, t, r) then t
    else Pruned(c, Remembered(t, KeyOf(c, r), r.now), r.now)
  }

  /** The keys lost to the capacity bound, not to age. */
  ghost function Evicted(c: Config, t: Table, r: Request): set<Key> {
    if Interval(c, r.event) <= 0.0 || !Accepts(c, t, r) then {}
    else
      var all := Remembered(t, KeyOf(c, r), r.now);
      if |all| > c.maxEntries then
        Keys(Recent(all, Threshold(c, r.now))) - Keys(Fitting(Recent(all, Threshold(c, r.now)), c.maxEntries))
      else {}
  }

  // ---- the unbounded reference ----

  predicate ReferenceAccepts(c: Config, last: map<Key, real>, r: Request) {
    Interval(c, r.event) <= 0.0 || KeyOf(c, r) !in last || r.now - last[KeyOf(c, r)] >= Interval(c, r.event)
  }

  /** The last accepted time of every key, forgetting only what was evicted. */
  function ReferenceAfter(c: Config, last: map<Key, real>, r: Request, evicted: set<Key>): map<Key, real> {
    if Interval(c, r.event) <= 0.0 || !ReferenceAccepts(c, last, r) then last
    else last[KeyOf(c, r) := r.now] - evicted
  }

  // ---- the invariant ----

  ghost predicate Ordered(t: Table) {
    forall i, j :: 0 <= i < j < |t| ==> t[i].time <= t[j].time && t[i].key != t[j].key
  }

  ghost predicate Valid(c: Config, t: Table, clock: real) {
    && |t| <= c.maxEntries
    && Ordered(t)
    && (forall e :: e in t ==> e.time <= clock)
  }

  /** The bounded table knows every key of the reference, except those already too old to matter. */
  ghost predicate Coupled(c: Config, t: Table, last: map<Key, real>, clock: real) {
    && Valid(c, t, clock)
    && (forall e :: e in t ==> e.key in last && last[e.key] == e.time)
    && (forall key :: key in last && key !in Keys(t) ==> last[key] < Threshold(c, clock))
  }

  lemma FindUnique(c: Config, t: Table, clock: real, e: Entry)
    requires Valid(c, t, clock) && e in t
    ensures Find(t, e.key) == Some(e.time)
  {
    var found := Find(t, e.key);
    assert e.key in Keys(t);
    var i :| 0 <= i < |t| && t[i] == Entry(e.key, found.value);
    var j :| 0 <= j < |t| && t[j] == e;
  }

  lemma IntervalBounded(c: Config, event: string)
    ensures Interval(c, event) <= MaxInterval(c)
  {}

  lemma DecisionsAgree(c: Config, t: Table, last: map<Key, real>, clock: real, r: Request)
    requires Coupled(c, t, last, clock) && clock <= r.now
    ensures Accepts(c, t, r) == ReferenceAccepts(c, last, r)
  {
    IntervalBounded(c, r.event);
    var key := KeyOf(c, r);
    if key in Keys(t) {
      var e :| e in t && e.key == key;
      FindUnique(c, t, clock, e);
    }
  }

  lemma OrderedStep(t: Table)
    requires t != [] && Ordered(t)
    ensures Ordered(t[1..]) && forall e :: e in t[1..] ==> t[0].time <= e.time && t[0].key != e.key
  {
    forall e | e in t[1..] ensures t[0].time <= e.time && t[0].key != e.key {
      var k :| 0 <= k < |t[1..]| && t[1..][k] == e;
      assert t[k + 1] == e;
    }
  }

  lemma OrderedPrepend(first: Entry, t: Table)
    requires Ordered(t) && forall e :: e in t ==> first.time <= e.time && first.key != e.key
    ensures Ordered([first] + t)
  {
    forall j | 0 <= j < |t| ensures first.time <= t[j].time && first.key != t[j].key { assert t[j] in t; }
  }

  lemma {:induction false} WithoutOrdered(t: Table, key: Key)
    requires Ordered(t)
    ensures Ordered(Without(t, key))
  {
    if t != [] {
      hide Ordered;
      OrderedStep(t);
      WithoutOrdered(t[1..], key);
      OrderedPrepend(t[0], Without(t[1..], key));
    }
  }

  /** After an acceptance and before pruning. */
  lemma RememberedOrdered(c: Config, t: Table, clock: real, key: Key, now: real)
    requires Valid(c, t, clock) && clock <= now
    ensures var all := Remembered(t, key, now);
      && Ordered(all)
      && (forall e :: e in all ==> e.time <= now)
      && |all| <= c.maxEntries + 1
  {
    WithoutOrdered(t, key);
    var w := Without(t, key);
    var all := Remembered(t, key, now);
    assert all == w + [Entry(key, now)];
    forall i | 0 <= i < |w| ensures all[i] == w[i] && w[i].time <= now && w[i].key != key { assert w[i] in w; }
  }

  lemma PrunedIsSuffix(c: Config, t: Table, now: real) returns (k: nat)
    ensures k <= |t| && Pruned(c, t, now) == t[k..] && |t[k..]| <= c.maxEntries
  {
    if |t| <= c.maxEntries {
      k := 0;
    } else {
      var recent := Recent(t, Threshold(c, now));
      var n := |t| - |recent|;
      RecentIsSuffix(t, Threshold(c, now));
      if |recent| > c.maxEntries {
        k := n + |recent| - c.maxEntries;
        assert t[n..][|recent| - c.maxEntries..] == t[k..];
      } else {
        k := n;
      }
    }
  }

  /** Every accepted or suppressed record keeps the table ordered, duplicate-free and bounded. */
  lemma StepKeepsValid(c: Config, t: Table, clock: real, r: Request)
    requires Valid(c, t, clock) && clock <= r.now
    ensures Valid(c, After(c, t, r), r.now)
  {
    if Interval(c, r.event) > 0.0 && Accepts(c, t, r) {
      RememberedOrdered(c, t, clock, KeyOf(c, r), r.now);
      var all := Remembered(t, KeyOf(c, r), r.now);
      var k := PrunedIsSuffix(c, all, r.now);
      var kept := all[k..];
      forall i, j | 0 <= i < j < |kept| ensures kept[i].time <= kept[j].time && kept[i].key != kept[j].key {
        assert kept[i] == all[i + k] && kept[j] == all[j + k];
      }
      forall e | e in kept ensures e.time <= r.now { assert e in all; }
    }
  }

  lemma LostKeys(c: Config, t: Table, clock: real, r: Request, e: Entry)
    requires Valid(c, t, clock) && clock <= r.now && Interval(c, r.event) > 0.0 && Accepts(c, t, r)
    requires e in Remembered(t, KeyOf(c, r), r.now) && e.key !in Keys(After(c, t, r))
    ensures e.key in Evicted(c, t, r) || e.time < Threshold(c, r.now)
  {
    var all := Remembered(t, KeyOf(c, r), r.now);
    assert e.key in Keys(all);
    assert |all| > c.maxEntries;
    var recent := Recent(all, Threshold(c, r.now));
    RecentIsSuffix(all, Threshold(c, r.now));
    if e in recent {
      assert e.key in Keys(recent);
    }
  }

  lemma KeptKeys(c: Config, t: Table, clock: real, r: Request, e: Entry)
    requires Valid(c, t, clock) && clock <= r.now && Interval(c, r.event) > 0.0 && Accepts(c, t, r)
    requires e in After(c, t, r)
    ensures e in Remembered(t, KeyOf(c, r), r.now) && e.key !in Evicted(c, t, r)
  {
    var all := Remembered(t, KeyOf(c, r), r.now);
    var k := PrunedIsSuffix(c, all, r.now);
    assert e in all[k..];
    assert e.key in Keys(After(c, t, r));
  }

  /** One call keeps bounded table and reference together. */
  lemma StepKeepsCoupling(c: Config, t: Table, last: map<Key, real>, clock: real, r: Request)
    requires Coupled(c, t, last, clock) && clock <= r.now
    ensures Coupled(c, After(c, t, r), ReferenceAfter(c, last, r, Evicted(c, t, r)), r.now)
  {
    DecisionsAgree(c, t, last, clock, r);
    StepKeepsValid(c, t, clock, r);
    var t', last' := After(c, t, r), ReferenceAfter(c, last, r, Evicted(c, t, r));
    if Interval(c, r.event) > 0.0 && Accepts(c, t, r) {
      var all := Remembered(t, KeyOf(c, r), r.now);
      forall e | e in t' ensures e.key in last' && last'[e.key] == e.time {
        KeptKeys(c, t, clock, r, e);
      }
      forall key | key in last' && key !in Keys(t') ensures last'[key] < Threshold(c, r.now) {
        if key == KeyOf(c, r) {
          LostKeys(c, t, clock, r, Entry(key, r.now));
        } else if key in Keys(t) {
          var e :| e in t && e.key == key;
          assert e in all;
          LostKeys(c, t, clock, r, e);
        }
      }
    }
  }

  // ---- runs ----

  ghost predicate Run(rs: seq<Request>) { forall i, j :: 0 <= i < j < |rs| ==> rs[i].now <= rs[j].now }

  ghost function TableAfter(c: Config, rs: seq<Request>): Table {
    if rs == [] then [] else After(c, TableAfter(c, rs[..|rs| - 1]), rs[|rs| - 1])
  }

  /** Was the record at position i let through? */
  ghost predicate Accepted(c: Config, rs: seq<Request>, i: nat) requires i < |rs| {
    Accepts(c, TableAfter(c, rs[..i]), rs[i])
  }

  /** The keys pushed out by the capacity bound at position i. */
  ghost function EvictedAt(c: Config, rs: seq<Request>, i: nat): set<Key> requires i < |rs| {
    Evicted(c, TableAfter(c, rs[..i]), rs[i])
  }

  ghost function Forgetful(c: Config, rs: seq<Request>): map<Key, real> {
    if rs == [] then map[]
    else
      var n := |rs| - 1;
      ReferenceAfter(c, Forgetful(c, rs[..n]), rs[n], EvictedAt(c, rs, n))
  }

  /** The last accepted time of every key ever seen; nothing is pruned or evicted. */
  function Unbounded(c: Config, rs: seq<Request>): map<Key, real> {
    if rs == [] then map[] else ReferenceAfter(c, Unbounded(c, rs[..|rs| - 1]), rs[|rs| - 1], {})
  }

  ghost function Clock(rs: seq<Request>, start: real): real {
    if rs == [] then start else rs[|rs| - 1].now
  }

  lemma {:induction false} RunCoupled(c: Config, rs: seq<Request>, start: real)
    requires Run(rs)
    ensures Coupled(c, TableAfter(c, rs), Forgetful(c, rs), Clock(rs, start))
  {
    if rs != [] {
      var n := |rs| - 1;
      RunCoupled(c, rs[..n], rs[n].now);
      StepKeepsCoupling(c, TableAfter(c, rs[..n]), Forgetful(c, rs[..n]), Clock(rs[..n], rs[n].now), rs[n]);
    }
  }

  /** In every run the table is in time order, has each key once, and fits its bound. */
  lemma RunKeepsTable(c: Config, rs: seq<Request>)
    requires Run(rs)
    ensures var t := TableAfter(c, rs);
      && |t| <= c.maxEntries
      && Ordered(t)
  {
    RunCoupled(c, rs, 0.0);
  }

  lemma {:induction false} UnevictedAgrees(c: Config, rs: seq<Request>, key: Key)
    requires forall m :: 0 <= m < |rs| ==> key !in EvictedAt(c, rs, m)
    ensures key in Forgetful(c, rs) <==> key in Unbounded(c, rs)
    ensures key in Forgetful(c, rs) ==> Forgetful(c, rs)[key] == Unbounded(c, rs)[key]
  {
    hide EvictedAt, ReferenceAfter;
    if rs != [] {
      var n := |rs| - 1;
      forall m | 0 <= m < n ensures key !in EvictedAt(c, rs[..n], m) {
        EvictedInPrefix(c, rs, n, m);
      }
      UnevictedAgrees(c, rs[..n], key);
      ReferencesStep(c, Forgetful(c, rs[..n]), Unbounded(c, rs[..n]), rs[n], EvictedAt(c, rs, n), key);
    }
  }

  lemma EvictedInPrefix(c: Config, rs: seq<Request>, n: nat, m: nat)
    requires m < n <= |rs|
    ensures EvictedAt(c, rs[..n], m) == EvictedAt(c, rs, m)
  {
    assert rs[..n][..m] == rs[..m];
  }

  lemma ReferencesStep(c: Config, a: map<Key, real>, b: map<Key, real>, r: Request, evicted: set<Key>, key: Key)
    requires key !in evicted && (key in a <==> key in b) && (key in a ==> a[key] == b[key])
    ensures var x, y := ReferenceAfter(c, a, r, evicted), ReferenceAfter(c, b, r, {});
      (key in x <==> key in y) && (key in x ==> x[key] == y[key])
  {
    hide KeyOf, Interval;
  }

  /** Stale pruning never changes a decision: as long as capacity has not pushed a record's key
      out, the filter decides like a table that never forgets. */
  lemma PruningNeverMatters(c: Config, rs: seq<Request>, i: nat)
    requires Run(rs) && i < |rs|
    requires forall m :: 0 <= m < i ==> KeyOf(c, rs[i]) !in EvictedAt(c, rs, m)
    ensures Accepted(c, rs, i) == ReferenceAccepts(c, Unbounded(c, rs[..i]), rs[i])
  {
    var before := rs[..i];
    RunDecision(c, rs, i);
    forall m | 0 <= m < i ensures KeyOf(c, rs[i]) !in EvictedAt(c, before, m) {
      assert before[..m] == rs[..m] && KeyOf(c, rs[i]) !in EvictedAt(c, rs, m);
    }
    UnevictedAgrees(c, before, KeyOf(c, rs[i]));
  }

  lemma RunDecision(c: Config, rs: seq<Request>, i: nat)
    requires Run(rs) && i < |rs|
    ensures Accepted(c, rs, i) == ReferenceAccepts(c, Forgetful(c, rs[..i]), rs[i])
  {
    hide Accepts, ReferenceAccepts, Evicted, After, ReferenceAfter, Coupled;
    RunCoupled(c, rs[..i], rs[i].now);
    DecisionsAgree(c, TableAfter(c, rs[..i]), Forgetful(c, rs[..i]), Clock(rs[..i], rs[i].now), rs[i]);
  }

  lemma {:induction false} AcceptedIsRemembered(c: Config, rs: seq<Request>, i: nat)
    requires Run(rs) && i < |rs| && Accepted(c, rs, i) && Interval(c, rs[i].event) > 0.0
    requires forall m :: i <= m < |rs| ==> KeyOf(c, rs[i]) !in EvictedAt(c, rs, m)
    ensures KeyOf(c, rs[i]) in Forgetful(c, rs) && Forgetful(c, rs)[KeyOf(c, rs[i])] >= rs[i].now
  {
    hide Accepts, Evicted, EvictedAt, KeyOf, Interval, Forgetful, ReferenceAccepts, ReferenceAfter, Accepted;
    var n := |rs| - 1;
    var before, key := rs[..n], KeyOf(c, rs[i]);
    if i < n {
      AcceptedInPrefix(c, rs, n, i);
      forall m | i <= m < n ensures key !in EvictedAt(c, before, m) { EvictedInPrefix(c, rs, n, m); }
      AcceptedIsRemembered(c, before, i);
    } else {
      RunDecision(c, rs, n);
    }
    ForgetfulStep(c, rs, n);
    TimeKept(c, Forgetful(c, before), rs[n], EvictedAt(c, rs, n), key, rs[i].now);
  }

  lemma AcceptedInPrefix(c: Config, rs: seq<Request>, n: nat, i: nat)
    requires i < n <= |rs|
    ensures Accepted(c, rs[..n], i) == Accepted(c, rs, i)
  {
    assert rs[..n][..i] == rs[..i];
  }

  lemma ForgetfulStep(c: Config, rs: seq<Request>, n: nat)
    requires |rs| == n + 1
    ensures Forgetful(c, rs) == ReferenceAfter(c, Forgetful(c, rs[..n]), rs[n], EvictedAt(c, rs, n))
  {}

  lemma TimeKept(c: Config, last: map<Key, real>, r: Request, evicted: set<Key>, key: Key, time: real)
    requires key !in evicted && time <= r.now
    requires (key in last && last[key] >= time)
      || (KeyOf(c, r) == key && Interval(c, r.event) > 0.0 && ReferenceAccepts(c, last, r))
    ensures var after := ReferenceAfter(c, last, r, evicted); key in after && after[key] >= time
  {
    hide KeyOf, Interval;
  }

  /** Two accepted records of one key are closer than its interval only if the capacity bound
      pushed the key out at the first of them or in between. */
  lemma SpacedUnlessEvicted(c: Config, rs: seq<Request>, i: nat, j: nat)
    requires Run(rs) && i < j < |rs|
    requires KeyOf(c, rs[i]) == KeyOf(c, rs[j]) && Accepted(c, rs, i) && Accepted(c, rs, j)
    requires rs[j].now - rs[i].now < Interval(c, rs[j].event)
    ensures exists m :: i <= m < j && KeyOf(c, rs[j]) in EvictedAt(c, rs, m)
  {
    if forall m :: i <= m < j ==> KeyOf(c, rs[j]) !in EvictedAt(c, rs, m) {
      var before := rs[..j];
      assert before[..i] == rs[..i];
      forall m | i <= m < j ensures KeyOf(c, rs[i]) !in EvictedAt(c, before, m) {
        assert before[..m] == rs[..m] && KeyOf(c, rs[j]) !in EvictedAt(c, rs, m);
      }
      AcceptedIsRemembered(c, before, i);
      RunDecision(c, rs, j);
    }
  }

  lemma OldestIsPushedOut(recent: Table, limit: nat)
    requires Ordered(recent) && |recent| > limit
    ensures recent[0].key in Keys(recent) - Keys(Fitting(recent, limit))
  {
    var n := |recent| - limit;
    forall e | e in recent[n..] ensures e.key != recent[0].key {
      var i :| 0 <= i < |recent[n..]| && recent[n..][i] == e;
      assert e == recent[n + i];
    }
    assert recent[0] in recent;
  }

  lemma RecentOrdered(t: Table, threshold: real)
    requires Ordered(t)
    ensures Ordered(Recent(t, threshold))
  {
    RecentIsSuffix(t, threshold);
  }

  /** Capacity pushes a key out exactly when an accepted record leaves more than `maxEntries`
      entries that are not yet stale. */
  lemma EvictsIff(c: Config, t: Table, clock: real, r: Request)
    requires Valid(c, t, clock) && clock <= r.now
    ensures Evicted(c, t, r) != {} <==>
      && Interval(c, r.event) > 0.0 && Accepts(c, t, r)
      && |Recent(Remembered(t, KeyOf(c, r), r.now), Threshold(c, r.now))| > c.maxEntries
  {
    if Interval(c, r.event) > 0.0 && Accepts(c, t, r) {
      RememberedOrdered(c, t, clock, KeyOf(c, r), r.now);
      hide Without, KeyOf, Threshold, Accepts;
      var all := Remembered(t, KeyOf(c, r), r.now);
      var recent := Recent(all, Threshold(c, r.now));
      if |recent| > c.maxEntries {
        RecentOrdered(all, Threshold(c, r.now));
        OldestIsPushedOut(recent, c.maxEntries);
      }
    }
  }

  // ---- when capacity never matters ----

  /** Was the record at position i let through by the table that never forgets? */
  predicate ReferenceAccepted(c: Config, rs: seq<Request>, i: nat) requires i < |rs| {
    ReferenceAccepts(c, Unbounded(c, rs[..i]), rs[i])
  }

  /** At position i, the keys of limited records that such a table has let through and that are not
      yet stale. */
  ghost function LiveKeys(c: Config, rs: seq<Request>, i: nat): set<Key>
    requires i < |rs|
  {
    set j | 0 <= j <= i && Live(c, rs, i, j) :: KeyOf(c, rs[j])
  }

  ghost predicate Live(c: Config, rs: seq<Request>, i: nat, j: int)
    requires i < |rs|
  {
    0 <= j <= i && Interval(c, rs[j].event) > 0.0 && ReferenceAccepted(c, rs, j)
    && rs[j].now >= Threshold(c, rs[i].now)
  }

  ghost predicate NothingEvicted(c: Config, rs: seq<Request>, n: nat)
    requires n <= |rs|
  {
    forall m :: 0 <= m < n ==> EvictedAt(c, rs, m) == {}
  }

  lemma AgreesUntilEviction(c: Config, rs: seq<Request>, i: nat)
    requires Run(rs) && i < |rs| && NothingEvicted(c, rs, i)
    ensures Accepted(c, rs, i) == ReferenceAccepted(c, rs, i)
  {
    hide Run, EvictedAt, Accepted, ReferenceAccepts, Unbounded, KeyOf;
    PruningNeverMatters(c, rs, i);
  }

  /** Where an entry of the table comes from. */
  ghost predicate FromRecord(c: Config, rs: seq<Request>, e: Entry, j: int) {
    0 <= j < |rs| && Accepted(c, rs, j) && Interval(c, rs[j].event) > 0.0
    && KeyOf(c, rs[j]) == e.key && rs[j].now == e.time
  }

  lemma AfterOrigin(c: Config, t: Table, clock: real, r: Request, e: Entry)
    requires Valid(c, t, clock) && clock <= r.now && e in After(c, t, r)
    ensures e in t || (Accepts(c, t, r) && Interval(c, r.event) > 0.0 && e == Entry(KeyOf(c, r), r.now))
  {
    hide KeyOf, Interval, Accepts, Threshold;
    if Interval(c, r.event) > 0.0 && Accepts(c, t, r) {
      var k := PrunedIsSuffix(c, Remembered(t, KeyOf(c, r), r.now), r.now);
    }
  }

  lemma {:induction false} TableOrigin(c: Config, rs: seq<Request>, e: Entry) returns (j: nat)
    requires Run(rs) && e in TableAfter(c, rs)
    ensures FromRecord(c, rs, e, j)
  {
    hide KeyOf, Interval, Accepts, After, Coupled, Forgetful;
    var n := |rs| - 1;
    var t := TableAfter(c, rs[..n]);
    RunCoupled(c, rs[..n], rs[n].now);
    CoupledIsValid(c, rs[..n], rs[n].now);
    AfterOrigin(c, t, Clock(rs[..n], rs[n].now), rs[n], e);
    if e in t {
      j := TableOrigin(c, rs[..n], e);
      AcceptedInPrefix(c, rs, n, j);
    } else {
      j := n;
    }
  }

  lemma CoupledIsValid(c: Config, rs: seq<Request>, start: real)
    requires Run(rs)
    ensures Valid(c, TableAfter(c, rs), Clock(rs, start))
  {
    RunCoupled(c, rs, start);
    hide TableAfter, Forgetful, Valid;
  }

  lemma {:induction false} RecentIsFresh(t: Table, threshold: real)
    requires Ordered(t)
    ensures forall e :: e in Recent(t, threshold) ==> e in t && e.time >= threshold
  {
    hide Ordered;
    if t != [] {
      OrderedStep(t);
      RecentIsFresh(t[1..], threshold);
    }
  }

  lemma {:induction false} AsManyKeys(t: Table)
    requires Ordered(t)
    ensures |Keys(t)| == |t|
  {
    if t != [] {
      OrderedStep(t);
      AsManyKeys(t[1..]);
      assert t == [t[0]] + t[1..];
      assert Keys(t) == Keys(t[1..]) + {t[0].key};
    }
  }

  lemma FewerKeys(a: set<Key>, b: set<Key>)
    requires a <= b
    ensures |a| <= |b|
  {
    assert b == a + (b - a);
  }

  /** What is left of the table after dropping stale entries are live keys. */
  lemma RecentIsLive(c: Config, rs: seq<Request>, i: nat)
    requires Run(rs) && i < |rs| && NothingEvicted(c, rs, i)
    requires Accepted(c, rs, i) && Interval(c, rs[i].event) > 0.0
    ensures var recent := Recent(Remembered(TableAfter(c, rs[..i]), KeyOf(c, rs[i]), rs[i].now),
                                 Threshold(c, rs[i].now));
      |recent| <= |LiveKeys(c, rs, i)|
  {
    hide Interval, TableAfter, Threshold, Accepted, ReferenceAccepted, EvictedAt, Run;
    var t, key := TableAfter(c, rs[..i]), KeyOf(c, rs[i]);
    RunPrefix(rs, i);
    CoupledIsValid(c, rs[..i], rs[i].now);
    RememberedOrdered(c, t, Clock(rs[..i], rs[i].now), key, rs[i].now);
    var all := Remembered(t, key, rs[i].now);
    var recent := Recent(all, Threshold(c, rs[i].now));
    RecentIsFresh(all, Threshold(c, rs[i].now));
    RecentOrdered(all, Threshold(c, rs[i].now));
    forall e | e in recent ensures e.key in LiveKeys(c, rs, i) {
      EntryIsLive(c, rs, i, e);
    }
    hide LiveKeys, KeyOf;
    AsManyKeys(recent);
    FewerKeys(Keys(recent), LiveKeys(c, rs, i));
  }

  lemma RunPrefix(rs: seq<Request>, i: nat)
    requires Run(rs) && i < |rs|
    ensures Run(rs[..i]) && Run(rs[..i + 1]) && Clock(rs[..i], rs[i].now) <= rs[i].now
  {}

  lemma EntryIsLive(c: Config, rs: seq<Request>, i: nat, e: Entry)
    requires Run(rs) && i < |rs| && NothingEvicted(c, rs, i) && e.time >= Threshold(c, rs[i].now)
    requires Accepted(c, rs, i) && Interval(c, rs[i].event) > 0.0
    requires e in TableAfter(c, rs[..i]) || e == Entry(KeyOf(c, rs[i]), rs[i].now)
    ensures e.key in LiveKeys(c, rs, i)
  {
    hide Interval, TableAfter, Threshold, Accepted, ReferenceAccepted, EvictedAt, KeyOf;
    var j := i;
    if e in TableAfter(c, rs[..i]) {
      j := TableOrigin(c, rs[..i], e);
      AcceptedInPrefix(c, rs, i, j);
    }
    AgreesUntilEviction(c, rs, j);
    assert Live(c, rs, i, j);
  }

  /** A live key is in the table. */
  lemma LiveIsRemembered(c: Config, rs: seq<Request>, i: nat)
    requires Run(rs) && i < |rs| && NothingEvicted(c, rs, i + 1)
    ensures |LiveKeys(c, rs, i)| <= c.maxEntries
  {
    hide Interval, TableAfter, Threshold, Accepted, ReferenceAccepted, EvictedAt, Forgetful, Valid, Run;
    var upTo := rs[..i + 1];
    RunPrefix(rs, i);
    RunCoupled(c, upTo, rs[i].now);
    RunKeepsTable(c, upTo);
    var t := TableAfter(c, upTo);
    forall key | key in LiveKeys(c, rs, i) ensures key in Keys(t) {
      var j :| 0 <= j <= i && Live(c, rs, i, j) && KeyOf(c, rs[j]) == key;
      LiveInReference(c, rs, i, j);
    }
    hide LiveKeys, Keys, Coupled;
    FewerKeys(LiveKeys(c, rs, i), Keys(t));
    AsManyKeys(t);
  }

  lemma LiveInReference(c: Config, rs: seq<Request>, i: nat, j: nat)
    requires Run(rs) && i < |rs| && NothingEvicted(c, rs, i + 1) && Live(c, rs, i, j)
    ensures var last := Forgetful(c, rs[..i + 1]);
      KeyOf(c, rs[j]) in last && last[KeyOf(c, rs[j])] >= Threshold(c, rs[i].now)
  {
    hide Interval, TableAfter, Threshold, Accepted, ReferenceAccepted, EvictedAt, Forgetful, KeyOf;
    var upTo := rs[..i + 1];
    AgreesUntilEviction(c, rs, j);
    AcceptedUpTo(c, rs, i, j);
    forall m | 0 <= m < |upTo| ensures EvictedAt(c, upTo, m) == {} { EvictedUpTo(c, rs, i, m); }
    AcceptedIsRemembered(c, upTo, j);
  }

  lemma AcceptedUpTo(c: Config, rs: seq<Request>, i: nat, j: nat)
    requires j <= i < |rs|
    ensures Accepted(c, rs[..i + 1], j) == Accepted(c, rs, j)
  {
    assert rs[..i + 1][..j] == rs[..j];
  }

  lemma EvictedUpTo(c: Config, rs: seq<Request>, i: nat, m: nat)
    requires m <= i < |rs|
    ensures EvictedAt(c, rs[..i + 1], m) == EvictedAt(c, rs, m)
  {
    assert rs[..i + 1][..m] == rs[..m];
  }

  lemma FewLiveKeepAll(c: Config, rs: seq<Request>, i: nat)
    requires Run(rs) && i < |rs| && NothingEvicted(c, rs, i) && |LiveKeys(c, rs, i)| <= c.maxEntries
    ensures EvictedAt(c, rs, i) == {}
  {
    hide LiveKeys, KeyOf, Interval, TableAfter, Run, NothingEvicted, Threshold, Accepts, Evicted, Remembered, Recent;
    RunPrefix(rs, i);
    CoupledIsValid(c, rs[..i], rs[i].now);
    EvictsIff(c, TableAfter(c, rs[..i]), Clock(rs[..i], rs[i].now), rs[i]);
    if Interval(c, rs[i].event) > 0.0 && Accepts(c, TableAfter(c, rs[..i]), rs[i]) {
      RecentIsLive(c, rs, i);
    }
  }

  /** Capacity never pushes a key out of the table exactly when the filter that never forgets never
      has more than `maxEntries` keys let through within the stale window. */
  lemma {:induction false} NeverEvictsIff(c: Config, rs: seq<Request>, n: nat)
    requires Run(rs) && n <= |rs|
    ensures NothingEvicted(c, rs, n) <==> forall i :: 0 <= i < n ==> |LiveKeys(c, rs, i)| <= c.maxEntries
    decreases n
  {
    hide LiveKeys, Run, EvictedAt;
    if n > 0 {
      NeverEvictsIff(c, rs, n - 1);
      if NothingEvicted(c, rs, n) {
        LiveIsRemembered(c, rs, n - 1);
      }
      if NothingEvicted(c, rs, n - 1) && |LiveKeys(c, rs, n - 1)| <= c.maxEntries {
        FewLiveKeepAll(c, rs, n - 1);
      }
    }
  }

  /** Then the bounded filter decides every record like the unbounded one. */
  lemma FewKeysNeverMatter(c: Config, rs: seq<Request>, i: nat)
    requires Run(rs) && i < |rs| && forall m :: 0 <= m < i ==> |LiveKeys(c, rs, m)| <= c.maxEntries
    ensures Accepted(c, rs, i) == ReferenceAccepted(c, rs, i)
  {
    hide LiveKeys, Accepted, ReferenceAccepted, EvictedAt;
    NeverEvictsIff(c, rs, i);
    AgreesUntilEviction(c, rs, i);
  }

  // ---- what keys and intervals are, in terms of the records ----

  /** The fields that the rule of an event compares. */
  predicate Governed(c: Config, event: string, field: string) {
    event in c.governance && field in c.governance[event].fieldNames
  }

  /** Two records agree in a field: both lack it, or both have it with one value. */
  predicate AgreeIn(r: Request, q: Request, field: string) {
    && (field in r.attributes <==> field in q.attributes)
    && (field in r.attributes && field in q.attributes ==> r.attributes[field] == q.attributes[field])
  }

  /** Records of one event that agree in every field its rule compares. */
  ghost predicate Alike(c: Config, r: Request, q: Request) {
    r.event == q.event && forall field :: Governed(c, r.event, field) ==> AgreeIn(r, q, field)
  }

  /** Two records have one key exactly when they are alike. */
  lemma KeysAgreeIff(c: Config, r: Request, q: Request)
    ensures KeyOf(c, r) == KeyOf(c, q) <==> Alike(c, r, q)
  {
    var a, b := KeyOf(c, r).values, KeyOf(c, q).values;
    if r.event == q.event {
      var names := if r.event in c.governance then c.governance[r.event].fieldNames else [];
      assert |a| == |b| == |names|;
      assert forall i :: 0 <= i < |names| ==>
        a[i] == Lookup(r.attributes, names[i]) && b[i] == Lookup(q.attributes, names[i]);
      if a == b {
        forall field | Governed(c, r.event, field) ensures AgreeIn(r, q, field) {
          var i :| 0 <= i < |names| && names[i] == field;
          assert a[i] == b[i];
        }
      }
      if Alike(c, r, q) {
        forall i | 0 <= i < |names| ensures a[i] == b[i] {
          assert Governed(c, r.event, names[i]);
        }
      }
    }
  }

  /** The interval of an event: its rule's, or the default if it has none. */
  ghost predicate IsInterval(c: Config, event: string, interval: real) {
    && (event in c.governance ==> interval == c.governance[event].minInterval)
    && (event !in c.governance ==> interval == c.defaultInterval)
  }

  lemma IntervalIs(c: Config, event: string)
    ensures IsInterval(c, event, Interval(c, event))
  {}

  /** A record that is like no earlier one is accepted. */
  lemma NovelIsAccepted(c: Config, rs: seq<Request>, i: nat)
    requires Run(rs) && i < |rs| && forall j :: 0 <= j < i ==> !Alike(c, rs[j], rs[i])
    ensures Accepted(c, rs, i)
  {
    hide KeyOf, Interval, Alike;
    RunPrefix(rs, i);
    var t := TableAfter(c, rs[..i]);
    if KeyOf(c, rs[i]) in Keys(t) {
      var e :| e in t && e.key == KeyOf(c, rs[i]);
      var j := TableOrigin(c, rs[..i], e);
      KeysAgreeIff(c, rs[j], rs[i]);
      assert false;
    }
  }

  /** A record is suppressed only because a record like it was accepted less than the interval of
      their event before; that interval is positive. */
  lemma SuppressedBecause(c: Config, rs: seq<Request>, i: nat) returns (j: nat, interval: real)
    requires Run(rs) && i < |rs| && !Accepted(c, rs, i)
    ensures j < i && Accepted(c, rs, j) && Alike(c, rs[j], rs[i])
    ensures IsInterval(c, rs[i].event, interval) && interval > 0.0 && rs[i].now - rs[j].now < interval
  {
    hide KeyOf, Alike;
    RunPrefix(rs, i);
    interval := Interval(c, rs[i].event);
    var t := TableAfter(c, rs[..i]);
    var previous := Find(t, KeyOf(c, rs[i]));
    j := TableOrigin(c, rs[..i], Entry(KeyOf(c, rs[i]), previous.value));
    AcceptedInPrefix(c, rs, i, j);
    KeysAgreeIff(c, rs[j], rs[i]);
  }

  /** Without an eviction of their key, two accepted records that are alike are at least the interval
      of their event apart. */
  lemma AlikeAreSpaced(c: Config, rs: seq<Request>, i: nat, j: nat, interval: real)
    requires Run(rs) && i < j < |rs| && Alike(c, rs[i], rs[j]) && IsInterval(c, rs[j].event, interval)
    requires Accepted(c, rs, i) && Accepted(c, rs, j) && NothingEvicted(c, rs, j)
    ensures rs[j].now - rs[i].now >= interval
  {
    hide KeyOf, Alike, Accepted, EvictedAt, Run;
    KeysAgreeIff(c, rs[i], rs[j]);
    IntervalIs(c, rs[j].event);
    if rs[j].now - rs[i].now < interval {
      SpacedUnlessEvicted(c, rs, i, j);
    }
  }

  // ---- the filter object ----

  class LogRecord {
    const event: string
    const attributes: map<string, string>
    var decision: Option<bool>

    constructor (event: string, attributes: map<string, string>)
      ensures this.event == event && this.attributes == attributes && decision == None
    {
      this.event := event;
      this.attributes := attributes;
      decision := None;
    }
  }

  class EventRateLimitFilter {
    const config: Config
    var lastSeen: Table
    /** The calls that were decided here, in order. */
    ghost var history: seq<Request>

    ghost predicate Valid()
      reads this
    {
      Run(history) && lastSeen == TableAfter(config, history)
    }

    constructor (config: Config)
      ensures this.config == config && lastSeen == [] && history == [] && Valid()
    {
      this.config := config;
      lastSeen := [];
      history := [];
    }

    /** A record that already carries a decision gets it again and the table stays as it was;
        any other record is decided by the table and the decision is stored on it. It is accepted
        if it is like no record decided before. */
    method Filter(record: LogRecord, now: real) returns (accepted: bool)
      modifies this`lastSeen, this`history, record`decision
      ensures record.decision == Some(accepted)
      ensures old(record.decision).Some? ==>
                accepted == old(record.decision).value && lastSeen == old(lastSeen) && history == old(history)
      ensures old(record.decision).None? ==>
                var r := Request(record.event, record.attributes, now);
                && accepted == Accepts(config, old(lastSeen), r) && lastSeen == After(config, old(lastSeen), r)
                && history == old(history) + [r]
      ensures old(Valid()) && (forall q :: q in old(history) ==> q.now <= now) ==> Valid()
      ensures old(Valid()) && (forall q :: q in old(history) ==> q.now <= now) && old(record.decision).None? ==>
                var r := Request(record.event, record.attributes, now);
                && accepted == Accepted(config, history, |old(history)|)
                && ((forall q :: q in old(history) ==> !Alike(config, q, r)) ==> accepted)
    {
      hide Run, TableAfter, Alike, Accepts, After, Accepted;
      if record.decision.Some? {
        return record.decision.value;
      }
      ghost var before := history;
      if Valid() && forall q :: q in history ==> q.now <= now {
        HistoryGrows(config, history, Request(record.event, record.attributes, now));
      }
      accepted := Decide(record, now);
      history := before + [Request(record.event, record.attributes, now)];
    }

    /** The decision about a record that carries none. */
    method Decide(record: LogRecord, now: real) returns (accepted: bool)
      requires record.decision.None?
      modifies this`lastSeen, record`decision
      ensures record.decision == Some(accepted)
      ensures var r := Request(record.event, record.attributes, now);
        accepted == Accepts(config, old(lastSeen), r) && lastSeen == After(config, old(lastSeen), r)
    {
      var r := Request(record.event, record.attributes, now);
      var interval := Interval(config, record.event);
      if interval <= 0.0 {
        record.decision := Some(true);
        return true;
      }
      var key := KeyOf(config, r);
      var previous := Find(lastSeen, key);
      if previous.Some? && now - previous.value < interval {
        record.decision := Some(false);
        return false;
      }
      Remember(key, now);
      record.decision := Some(true);
      return true;
    }

    method Remember(key: Key, timestamp: real)
      modifies this`lastSeen
      ensures lastSeen == Pruned(config, Remembered(old(lastSeen), key, timestamp), timestamp)
    {
      hide Without, Recent, Fitting, Threshold;
      lastSeen := Without(lastSeen, key) + [Entry(key, timestamp)];
      if |lastSeen| > config.maxEntries {
        Prune(timestamp);
      }
    }

    method Prune(now: real)
      modifies this`lastSeen
      ensures lastSeen == Fitting(Recent(old(lastSeen), Threshold(config, now)), config.maxEntries)
    {
      hide MaxInterval;
      var maxInterval := LargestInterval(config);
      var staleBefore := now - maxInterval * 2.0;
      ghost var recent := Recent(lastSeen, staleBefore);
      while lastSeen != []
        invariant Recent(lastSeen, staleBefore) == recent
        decreases |lastSeen|
      {
        if lastSeen[0].time >= staleBefore {
          break;
        }
        lastSeen := lastSeen[1..];
      }
      assert lastSeen == recent;
      while |lastSeen| > config.maxEntries
        invariant |lastSeen| <= |recent| && lastSeen == recent[|recent| - |lastSeen|..]
        invariant |recent| > config.maxEntries ==> |lastSeen| >= config.maxEntries
        invariant |recent| <= config.maxEntries ==> lastSeen == recent
      {
        lastSeen := lastSeen[1..];
      }
    }
  }

  lemma HistoryGrows(c: Config, history: seq<Request>, r: Request)
    requires Run(history) && forall q :: q in history ==> q.now <= r.now
    ensures var longer := history + [r];
      && Run(longer) && TableAfter(c, longer) == After(c, TableAfter(c, history), r)
      && Accepted(c, longer, |history|) == Accepts(c, TableAfter(c, history), r)
      && ((forall q :: q in history ==> !Alike(c, q, r)) ==> Accepted(c, longer, |history|))
  {
    hide Alike, After, Accepts;
    var longer := history + [r];
    assert longer[..|history|] == history;
    if forall q :: q in history ==> !Alike(c, q, r) {
      forall j | 0 <= j < |history| ensures !Alike(c, longer[j], longer[|history|]) {
        assert history[j] in history;
      }
      NovelIsAccepted(c, longer, |history|);
    }
  }

  method LargestInterval(c: Config) returns (m: real)
    ensures m == MaxInterval(c)
  {
    m := if c.defaultInterval >= 1.0 then c.defaultInterval else 1.0;
    var remaining := c.governance.Keys;
    while remaining != {}
      invariant remaining <= c.governance.Keys
      invariant m >= 1.0 && m >= c.defaultInterval
      invariant forall e :: e in c.governance && e !in remaining ==> c.governance[e].minInterval <= m
      invariant m == 1.0 || m == c.defaultInterval || exists e :: e in c.governance && c.governance[e].minInterval == m
      decreases |remaining|
    {
      var e :| e in remaining;
      if c.governance[e].minInterval > m {
        m := c.governance[e].minInterval;
      }
      remaining := remaining - {e};
    }
  }
}
