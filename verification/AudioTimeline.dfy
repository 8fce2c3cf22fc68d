/** Mapping transcript and speaker timing onto trimmed and re-timed audio
    (augmentation/audio/audio_timestamps.py:13-79, 126-210), over the reals. */
module AudioTimeline {
  import opened Options

  datatype Timeline = Timeline(trimStart: real, trimEnd: real, speed: real, duration: real)

  /** What the callers build: the retained range is ordered, the speed positive. */
  predicate Sound(t: Timeline) { t.speed > 0.0 && 0.0 <= t.trimStart <= t.trimEnd && t.duration >= 0.0 }

  datatype Result<T> = Ok(value: T) | Err

  function Max(a: real, b: real): real { if a >= b then a else b }

  function Min(a: real, b: real): real { if a <= b then a else b }

  function Scaled(t: Timeline, seconds: real): real
    requires t.speed > 0.0
  {
    (seconds - t.trimStart) / t.speed
  }

  function Interval(t: Timeline, start: real, end: real): Result<Option<(real, real)>>
    requires Sound(t)
  {
    if start < 0.0 || end < start then Err
    else
      var retainedStart, retainedEnd := Max(start, t.trimStart), Min(end, t.trimEnd);
      if retainedEnd <= retainedStart then Ok(None)
      else
        var s := Min(Max(0.0, Scaled(t, retainedStart)), t.duration);
        var e := Min(Max(s, Scaled(t, retainedEnd)), t.duration);
        if e <= s then Ok(None) else Ok(Some((s, e)))
  }

  function Point(t: Timeline, seconds: real): Result<Option<real>>
    requires Sound(t)
  {
    if seconds < 0.0 then Err
    else if seconds < t.trimStart || seconds > t.trimEnd then Ok(None)
    else Ok(Some(Min(Max(0.0, Scaled(t, seconds)), t.duration)))
  }

  lemma ScaledMonotone(t: Timeline, a: real, b: real)
    requires t.speed > 0.0 && a <= b
    ensures Scaled(t, a) <= Scaled(t, b) && (a < b ==> Scaled(t, a) < Scaled(t, b))
    ensures a >= t.trimStart ==> Scaled(t, a) >= 0.0
  {
    var x, y := Scaled(t, a), Scaled(t, b);
    assert x * t.speed == a - t.trimStart && y * t.speed == b - t.trimStart;
    Ordered(x, y, t.speed);
    Ordered(0.0, x, t.speed);
  }

  lemma Ordered(x: real, y: real, k: real)
    requires k > 0.0
    ensures x * k <= y * k ==> x <= y
    ensures x * k < y * k ==> x < y
  {
    if x > y { assert (x - y) * k > 0.0; } else if x == y { assert x * k == y * k; }
  }

  /** An interval survives exactly when it overlaps the retained range and its start maps before the
      end of the output; it then lies inside the output and keeps its direction. */
  lemma SurvivesIff(t: Timeline, start: real, end: real)
    requires Sound(t) && 0.0 <= start <= end
    ensures Interval(t, start, end).Ok?
    ensures var mapped := Interval(t, start, end).value;
      && (mapped.Some? <==>
          Max(start, t.trimStart) < Min(end, t.trimEnd) && Scaled(t, Max(start, t.trimStart)) < t.duration)
      && (mapped.Some? ==>
            && 0.0 <= mapped.value.0 < mapped.value.1 <= t.duration
            && mapped.value.0 == Scaled(t, Max(start, t.trimStart))
            && mapped.value.1 == Min(Scaled(t, Min(end, t.trimEnd)), t.duration))
  {
    var a, b := Max(start, t.trimStart), Min(end, t.trimEnd);
    if a < b { ScaledMonotone(t, a, b); }
  }

  /** The same in source time, without the mapping: an error exactly for a negative start or a reversed
      interval; a surviving start lies at the source's start or the cut, and a surviving end at the
      source's end or the cut, unless the output ends before. */
  lemma IntervalInSource(t: Timeline, start: real, end: real)
    requires Sound(t)
    ensures Interval(t, start, end).Err? <==> start < 0.0 || end < start
    ensures Interval(t, start, end).Ok? ==>
      var mapped := Interval(t, start, end).value;
      var first := if start < t.trimStart then t.trimStart else start;
      var last := if end > t.trimEnd then t.trimEnd else end;
      && (mapped.Some? <==> first < last && first < t.trimStart + t.duration * t.speed)
      && (mapped.Some? ==>
            && t.trimStart + mapped.value.0 * t.speed == first
            && t.trimStart + mapped.value.1 * t.speed
               == if last > t.trimStart + t.duration * t.speed then t.trimStart + t.duration * t.speed else last)
  {
    if 0.0 <= start <= end {
      SurvivesIff(t, start, end);
      ScaledBelow(t, Max(start, t.trimStart));
      ScaledBelow(t, Min(end, t.trimEnd));
      hide Interval;
    }
  }

  lemma ScaledBelow(t: Timeline, x: real)
    requires t.speed > 0.0
    ensures t.trimStart + Scaled(t, x) * t.speed == x
    ensures Scaled(t, x) < t.duration <==> x < t.trimStart + t.duration * t.speed
  {
    var y := Scaled(t, x);
    assert y * t.speed == x - t.trimStart;
    Ordered(y, t.duration, t.speed);
    Ordered(t.duration, y, t.speed);
    assert y == t.duration ==> y * t.speed == t.duration * t.speed;
    if y < t.duration { assert (t.duration - y) * t.speed > 0.0; }
  }

  /** A point is an error exactly when it is negative, and survives exactly inside the retained range,
      where it stays unless the output ends before. */
  lemma PointInSource(t: Timeline, seconds: real)
    requires Sound(t)
    ensures Point(t, seconds).Err? <==> seconds < 0.0
    ensures Point(t, seconds).Ok? ==>
      var mapped := Point(t, seconds).value;
      && (mapped.Some? <==> t.trimStart <= seconds <= t.trimEnd)
      && (mapped.Some? ==>
            t.trimStart + mapped.value * t.speed
            == if seconds > t.trimStart + t.duration * t.speed then t.trimStart + t.duration * t.speed else seconds)
  {
    if t.trimStart <= seconds {
      ScaledMonotone(t, seconds, seconds);
      ScaledBelow(t, seconds);
    }
  }

  /** Intervals that follow one another in the source follow one another in the output. */
  lemma DisjointStayDisjoint(t: Timeline, a: (real, real), b: (real, real))
    requires Sound(t) && 0.0 <= a.0 <= a.1 <= b.0 <= b.1
    requires Interval(t, a.0, a.1).value.Some? && Interval(t, b.0, b.1).value.Some?
    ensures Interval(t, a.0, a.1).value.value.1 <= Interval(t, b.0, b.1).value.value.0
  {
    SurvivesIff(t, a.0, a.1);
    SurvivesIff(t, b.0, b.1);
    hide Interval;
    ScaledMonotone(t, Min(a.1, t.trimEnd), Max(b.0, t.trimStart));
  }

  /** An endpoint inside the retained range maps where `point` maps it. */
  lemma EndpointsAgree(t: Timeline, start: real, end: real)
    requires Sound(t) && 0.0 <= start <= end && Interval(t, start, end).value.Some?
    ensures var mapped := Interval(t, start, end).value.value;
      && (t.trimStart <= start <= t.trimEnd ==> Point(t, start) == Ok(Some(mapped.0)))
      && (t.trimStart <= end <= t.trimEnd ==> Point(t, end) == Ok(Some(mapped.1)))
  {
    SurvivesIff(t, start, end);
    hide Interval;
    if t.trimStart <= end { ScaledMonotone(t, end, end); }
  }

  /** Points keep their order. */
  lemma PointsMonotone(t: Timeline, a: real, b: real)
    requires Sound(t) && 0.0 <= a <= b && Point(t, a).value.Some? && Point(t, b).value.Some?
    ensures 0.0 <= Point(t, a).value.value <= Point(t, b).value.value <= t.duration
  {
    ScaledMonotone(t, a, b);
  }

  // ---- collections ----

  datatype Unit = Seconds | Milliseconds

  /** A timed item in the unit of its keys, or one without usable times; `rest` is everything else
      it carries. */
  datatype Item =
    | Span(start: real, end: real, unit: Unit, rest: string)
    | Moment(at: real, unit: Unit, rest: string)
    | Malformed

  function Factor(u: Unit): real { if u == Seconds then 1.0 else 0.001 }

  function InSeconds(u: Unit, x: real): real { x * Factor(u) }

  /** Writing back divides by the factor the reading multiplied by. */
  function Written(u: Unit, seconds: real): real { if u == Seconds then seconds else seconds * 1000.0 }

  function TransformItem(t: Timeline, item: Item): Result<Option<Item>>
    requires Sound(t)
  {
    match item
    case Malformed => Err
    case Span(start, end, unit, rest) =>
      (match Interval(t, InSeconds(unit, start), InSeconds(unit, end))
       case Err => Err
       case Ok(None) => Ok(None)
       case Ok(Some(mapped)) => Ok(Some(Span(Written(unit, mapped.0), Written(unit, mapped.1), unit, rest))))
    case Moment(at, unit, rest) =>
      (match Point(t, InSeconds(unit, at))
       case Err => Err
       case Ok(None) => Ok(None)
       case Ok(Some(mapped)) => Ok(Some(Moment(Written(unit, mapped), unit, rest))))
  }

  /** The result takes the k-th surviving item from position `from[k]`, in order. */
  ghost predicate Survivors(t: Timeline, items: seq<Item>, result: seq<Item>, from: seq<nat>)
    requires Sound(t)
  {
    && |from| == |result|
    && (forall i :: 0 <= i < |items| ==> TransformItem(t, items[i]).Ok?)
    && (forall k :: 0 <= k < |from| ==> from[k] < |items| && TransformItem(t, items[from[k]]) == Ok(Some(result[k])))
    && (forall j, k :: 0 <= j < k < |from| ==> from[j] < from[k])
    && (forall i: nat :: i < |items| && TransformItem(t, items[i]).value.Some? ==> i in from)
  }

  /** `_transform_collection`, and `transform_speaker_segments` for spans in seconds: an error in any
      item is an error of the whole; otherwise the mapped survivors, all of them, in order. */
  method TransformCollection(t: Timeline, items: seq<Item>) returns (result: Result<seq<Item>>, ghost from: seq<nat>)
    requires Sound(t)
    ensures result.Err? <==> exists i :: 0 <= i < |items| && TransformItem(t, items[i]).Err?
    ensures result.Ok? ==> Survivors(t, items, result.value, from)
  {
    hide TransformItem;
    var transformed := [];
    from := [];
    for i := 0 to |items|
      invariant Survivors(t, items[..i], transformed, from)
    {
      assert items[..i + 1] == items[..i] + [items[i]];
      match TransformItem(t, items[i]) {
        case Err => return Err, from;
        case Ok(None) =>
        case Ok(Some(mapped)) =>
          transformed := transformed + [mapped];
          from := from + [i];
      }
    }
    assert items[..|items|] == items;
    return Ok(transformed), from;
  }

  lemma ReadWritten(u: Unit, x: real)
    ensures InSeconds(u, Written(u, x)) == x
  {}

  /** What was written, read again, lies inside the output. */
  lemma SurvivorsInside(t: Timeline, items: seq<Item>, result: seq<Item>, from: seq<nat>, k: nat)
    requires Sound(t) && Survivors(t, items, result, from) && k < |result|
    ensures match result[k]
      case Span(start, end, unit, _) => 0.0 <= InSeconds(unit, start) < InSeconds(unit, end) <= t.duration
      case Moment(at, unit, _) => 0.0 <= InSeconds(unit, at) <= t.duration
      case Malformed => false
  {
    var item := items[from[k]];
    match item {
      case Span(start, end, unit, _) =>
        SurvivesIff(t, InSeconds(unit, start), InSeconds(unit, end));
        var mapped := Interval(t, InSeconds(unit, start), InSeconds(unit, end)).value.value;
        ReadWritten(unit, mapped.0);
        ReadWritten(unit, mapped.1);
      case Moment(at, unit, _) =>
        ReadWritten(unit, Point(t, InSeconds(unit, at)).value.value);
      case Malformed =>
    }
  }

  // ---- the order of a collection ----

  /** When an item begins and when it is over, in seconds. */
  function First(item: Item): real
    requires !item.Malformed?
  {
    match item
    case Span(start, _, unit, _) => InSeconds(unit, start)
    case Moment(at, unit, _) => InSeconds(unit, at)
  }

  function Last(item: Item): real
    requires !item.Malformed?
  {
    match item
    case Span(_, end, unit, _) => InSeconds(unit, end)
    case Moment(at, unit, _) => InSeconds(unit, at)
  }

  /** An item is an error exactly when it has no usable times or they are refused, and is dropped
      exactly when the timeline drops it. */
  lemma ItemFails(t: Timeline, item: Item)
    requires Sound(t)
    ensures TransformItem(t, item).Err? <==>
      item.Malformed? || First(item) < 0.0 || (item.Span? && Last(item) < First(item))
    ensures TransformItem(t, item) == Ok(None) <==>
      || (item.Span? && Interval(t, First(item), Last(item)) == Ok(None))
      || (item.Moment? && Point(t, First(item)) == Ok(None))
    ensures item.Span? && item.unit == Seconds ==> First(item) == item.start && Last(item) == item.end
    ensures item.Span? && item.unit == Milliseconds ==>
      First(item) * 1000.0 == item.start && Last(item) * 1000.0 == item.end
    ensures item.Moment? ==> (if item.unit == Seconds then First(item) else First(item) * 1000.0) == item.at
  {}

  /** One item is over before the next begins, whatever their units and kinds. */
  predicate Follows(a: Item, b: Item) {
    !a.Malformed? && !b.Malformed? && 0.0 <= First(a) <= Last(a) <= First(b) <= Last(b)
  }

  /** A surviving item keeps its kind and unit, and its times are those of the timeline. */
  lemma ItemMapped(t: Timeline, item: Item, x: Item)
    requires Sound(t) && TransformItem(t, item) == Ok(Some(x))
    ensures !item.Malformed? && x.Span? == item.Span? && x.Moment? == item.Moment?
    ensures x.unit == item.unit && x.rest == item.rest
    ensures item.Span? ==> Interval(t, First(item), Last(item)) == Ok(Some((First(x), Last(x))))
    ensures item.Moment? ==> Point(t, First(item)) == Ok(Some(First(x)))
  {
    hide Interval, Point;
    match item
    case Span(start, end, unit, _) =>
      var mapped := Interval(t, First(item), Last(item)).value.value;
      ReadWritten(unit, mapped.0);
      ReadWritten(unit, mapped.1);
    case Moment(at, unit, _) => ReadWritten(unit, Point(t, First(item)).value.value);
  }

  lemma SpanThenPoint(t: Timeline, a: (real, real), p: real)
    requires Sound(t) && 0.0 <= a.0 <= a.1 <= p
    requires Interval(t, a.0, a.1).value.Some? && Point(t, p).value.Some?
    ensures Interval(t, a.0, a.1).value.value.1 <= Point(t, p).value.value
  {
    SurvivesIff(t, a.0, a.1);
    hide Interval;
    ScaledMonotone(t, Min(a.1, t.trimEnd), p);
    ScaledMonotone(t, p, p);
  }

  lemma PointThenSpan(t: Timeline, p: real, b: (real, real))
    requires Sound(t) && 0.0 <= p <= b.0 <= b.1
    requires Point(t, p).value.Some? && Interval(t, b.0, b.1).value.Some?
    ensures Point(t, p).value.value <= Interval(t, b.0, b.1).value.value.0
  {
    SurvivesIff(t, b.0, b.1);
    hide Interval;
    ScaledMonotone(t, p, Max(b.0, t.trimStart));
  }

  lemma ItemsFollow(t: Timeline, a: Item, b: Item, x: Item, y: Item)
    requires Sound(t) && Follows(a, b) && TransformItem(t, a) == Ok(Some(x)) && TransformItem(t, b) == Ok(Some(y))
    ensures !x.Malformed? && !y.Malformed? && Last(x) <= First(y)
  {
    ItemMapped(t, a, x);
    ItemMapped(t, b, y);
    hide TransformItem, Interval, Point, Sound, InSeconds;
    if a.Span? && b.Span? {
      DisjointStayDisjoint(t, (First(a), Last(a)), (First(b), Last(b)));
    } else if a.Span? {
      SpanThenPoint(t, (First(a), Last(a)), First(b));
    } else if b.Span? {
      PointThenSpan(t, First(a), (First(b), Last(b)));
    } else {
      PointsMonotone(t, First(a), First(b));
    }
  }

  lemma SameUnit(u: Unit, x: real, y: real)
    requires InSeconds(u, x) <= InSeconds(u, y)
    ensures x <= y
  {}

  /** Items that follow one another in the source, spans and moments of any units, follow one another
      through the whole transformation; two spans of one unit do so in that unit. */
  lemma CollectionKeepsOrder(t: Timeline, items: seq<Item>, result: seq<Item>, from: seq<nat>, j: nat, k: nat)
    requires Sound(t) && Survivors(t, items, result, from) && j < k < |result|
    requires forall a, b :: 0 <= a < b < |items| ==> Follows(items[a], items[b])
    ensures !result[j].Malformed? && !result[k].Malformed? && Last(result[j]) <= First(result[k])
    ensures var a, b := items[from[j]], items[from[k]];
      a.Span? && b.Span? && a.unit == b.unit ==>
        result[j].Span? && result[k].Span? && result[j].end <= result[k].start
  {
    hide TransformItem;
    var a, b := items[from[j]], items[from[k]];
    ItemsFollow(t, a, b, result[j], result[k]);
    ItemMapped(t, a, result[j]);
    ItemMapped(t, b, result[k]);
    if a.Span? && b.Span? && a.unit == b.unit {
      SameUnit(a.unit, result[j].end, result[k].start);
    }
  }
}
