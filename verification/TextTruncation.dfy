/** Cutting a text variant to its maximum length
    (augmentation/text/text_variant_assembler.py:100-133, 213-264). */
module TextTruncation {
  import opened Options
  import opened Text

  const FENCE: string := "```"

  // ---- searching ----

  predicate At(text: string, marker: string, i: nat) {
    i + |marker| <= |text| && text[i..i + |marker|] == marker
  }

  /** `rfind`, looking at positions below `bound`. */
  function LastBelow(text: string, marker: string, bound: nat): (r: Option<nat>)
    ensures r.Some? ==> r.value < bound && At(text, marker, r.value)
    ensures forall i: nat :: i < bound && At(text, marker, i) ==> r.Some? && i <= r.value
  {
    if bound == 0 then None
    else if At(text, marker, bound - 1) then Some(bound - 1)
    else LastBelow(text, marker, bound - 1)
  }

  function RFind(text: string, marker: string): (r: Option<nat>)
    ensures r.Some? ==> At(text, marker, r.value)
    ensures forall i: nat :: At(text, marker, i) ==> r.Some? && i <= r.value
  {
    LastBelow(text, marker, |text| + 1)
  }

  /** `count("```")` from a position on: occurrences that do not overlap, from the left. */
  function Fences(text: string, i: nat): nat
    requires i <= |text|
    decreases |text| - i
  {
    if i == |text| then 0
    else if At(text, FENCE, i) then 1 + Fences(text, i + 3)
    else Fences(text, i + 1)
  }

  // ---- the helpers ----

  function DropUnclosedFence(text: string): string {
    if Fences(text, 0) % 2 == 0 then text
    else match RFind(text, FENCE)
      case Some(start) => if start == 0 then text else RStrip(text[..start])
      case None => text
  }

  const MARKERS: seq<string> := ["\n\n", "\n", ". ", "! ", "? ", "; ", ", ", " "]

  /** The first marker that occurs late enough, and the end of what it marks. */
  function Boundary(text: string, markers: seq<string>, lower: int): (r: Option<nat>)
    ensures r.Some? ==> lower <= r.value <= |text|
  {
    if markers == [] then None
    else match RFind(text, markers[0])
      case Some(position) =>
        if position >= lower then Some(position + |RStrip(markers[0])|) else Boundary(text, markers[1..], lower)
      case None => Boundary(text, markers[1..], lower)
  }

  function Max(a: int, b: int): int { if a >= b then a else b }

  function Min(a: int, b: int): int { if a <= b then a else b }

  /** From where on a boundary is late enough. */
  function LowerBound(text: string, maxLength: nat): (lower: int)
    ensures lower >= 1 && (|text| < 2 || maxLength < 2 ==> lower == 1)
    ensures |text| >= 2 && maxLength >= 2 ==>
      lower <= |text| - 1 && lower <= maxLength / 2 && (lower == |text| - 1 || lower == maxLength / 2)
  {
    Max(1, Min(|text| - 1, maxLength / 2))
  }

  function PreferredBoundary(text: string, maxLength: nat): (r: Option<nat>)
    ensures r.Some? ==> 1 <= r.value <= |text|
  {
    Boundary(text, MARKERS, LowerBound(text, maxLength))
  }

  /** Everything before the last white space. */
  function DropPartialToken(text: string): (r: string)
    ensures r <= text
  {
    BeforeLastSpace(text, |text|)
  }

  function BeforeLastSpace(text: string, index: nat): (r: string)
    requires index <= |text|
    ensures r <= text
    ensures r == [] && text != [] ==> IsSpace(text[0])
  {
    if index == 0 then text
    else if IsSpace(text[index - 1]) then text[..index - 1]
    else BeforeLastSpace(text, index - 1)
  }

  function TruncateAtBoundary(text: string, maxLength: nat): string {
    var candidate := RStrip(if maxLength < |text| then text[..maxLength] else text);
    if candidate == "" then ""
    else
      var closed := DropUnclosedFence(candidate);
      match PreferredBoundary(closed, maxLength)
      case Some(boundary) => RStrip(closed[..boundary])
      case None => RStrip(DropPartialToken(closed))
  }

  datatype Rejection = Empty | TooLong

  datatype Prepared = Accepted(text: string, truncated: bool) | Rejected(reason: Rejection)

  function Prepare(variant: Option<string>, maxLength: Option<nat>, truncate: bool): Prepared {
    var text := if variant.None? then "" else Strip(variant.value);
    if text == "" then Rejected(Empty)
    else if maxLength.None? || |text| <= maxLength.value then Accepted(text, false)
    else if !truncate then Rejected(TooLong)
    else
      var cut := TruncateAtBoundary(text, maxLength.value);
      if cut == "" then Rejected(TooLong) else Accepted(cut, true)
  }

  // ---- prefixes ----

  lemma StrippedPrefix(text: string, cut: string)
    requires cut <= text && cut != [] && !IsSpace(text[0])
    ensures RStrip(cut) <= text && RStrip(cut) != [] && |RStrip(cut)| <= |cut|
  {
    assert cut[0] == text[0];
  }

  lemma DropFencePrefix(text: string)
    requires text != [] && !IsSpace(text[0])
    ensures DropUnclosedFence(text) <= text && DropUnclosedFence(text) != []
  {
    var found := RFind(text, FENCE);
    if found.Some? && found.value > 0 { StrippedPrefix(text, text[..found.value]); }
  }

  /** A non-empty text without leading space is cut to a non-empty prefix of at most the length. */
  lemma TruncationIsPrefix(text: string, maxLength: nat)
    requires text != [] && !IsSpace(text[0]) && maxLength > 0
    ensures var cut := TruncateAtBoundary(text, maxLength);
      cut <= text && cut != [] && |cut| <= maxLength
  {
    var head := if maxLength < |text| then text[..maxLength] else text;
    StrippedPrefix(text, head);
    var candidate := RStrip(head);
    assert candidate[0] == text[0];
    DropFencePrefix(candidate);
    hide DropUnclosedFence, PreferredBoundary;
    var closed := DropUnclosedFence(candidate);
    assert closed[0] == text[0];
    match PreferredBoundary(closed, maxLength) {
      case Some(boundary) => StrippedPrefix(text, closed[..boundary]);
      case None => StrippedPrefix(text, DropPartialToken(closed));
    }
  }

  /** The last place a marker occurs at or after the bound, if any. */
  ghost predicate LastLate(text: string, marker: string, lower: int, at: nat) {
    At(text, marker, at) && at >= lower && forall i: nat :: At(text, marker, i) ==> i <= at
  }

  ghost predicate Late(text: string, marker: string, lower: int) { exists i: nat :: At(text, marker, i) && i >= lower }

  /** The cut falls on the last late occurrence of the first marker, in order of preference, that
      occurs late enough; there is no cut exactly when none does. */
  lemma {:induction false} BoundaryIsPreferred(text: string, markers: seq<string>, lower: int) returns (m: nat, at: nat)
    ensures Boundary(text, markers, lower).Some? ==>
      && m < |markers| && LastLate(text, markers[m], lower, at)
      && Boundary(text, markers, lower) == Some(at + |RStrip(markers[m])|)
      && forall k :: 0 <= k < m ==> !Late(text, markers[k], lower)
    ensures Boundary(text, markers, lower).None? <==> forall k :: 0 <= k < |markers| ==> !Late(text, markers[k], lower)
  {
    hide At, RStrip;
    m, at := 0, 0;
    if markers != [] {
      var found := RFind(text, markers[0]);
      if found.Some? && found.value >= lower {
        at := found.value;
        assert Late(text, markers[0], lower);
      } else {
        assert !Late(text, markers[0], lower);
        m, at := BoundaryIsPreferred(text, markers[1..], lower);
        m := m + 1;
        assert forall k :: 0 < k < |markers| ==> markers[k] == markers[1..][k - 1];
      }
    }
  }

  /** How the marks rank: a paragraph break before a line break, then the ends of a sentence, then the
      lesser stops, then a space. A stop stays, white space goes. */
  lemma MarksRank(text: string, maxLength: nat, k: nat, at: nat)
    requires k < 8
    requires var lower := LowerBound(text, maxLength);
      var marks := ["\n\n", "\n", ". ", "! ", "? ", "; ", ", ", " "];
      LastLate(text, marks[k], lower, at) && forall j :: 0 <= j < k ==> !Late(text, marks[j], lower)
    ensures PreferredBoundary(text, maxLength) == Some(if 2 <= k < 7 then at + 1 else at)
  {
    var lower := LowerBound(text, maxLength);
    var m, found := BoundaryIsPreferred(text, MARKERS, lower);
    MarksStripped(k);
    hide At, RStrip, LowerBound;
    assert Late(text, MARKERS[k], lower);
    if PreferredBoundary(text, maxLength).Some? {
      assert Late(text, MARKERS[m], lower);
      assert m == k && found == at;
    }
  }

  lemma MarksStripped(k: nat)
    requires k < 8
    ensures |MARKERS| == 8 && |RStrip(MARKERS[k])| == if 2 <= k < 7 then 1 else 0
  {
    hide RStrip;
    var marker := MARKERS[k];
    var r := RStrip(marker);
    if 2 <= k < 7 {
      assert !IsSpace(marker[0]) && IsSpace(marker[1]);
    } else {
      assert forall i :: 0 <= i < |marker| ==> IsSpace(marker[i]);
    }
  }

  /** Without a late marker the cut falls before the last white space, or nowhere. */
  lemma {:induction false} TokenCut(text: string, index: nat)
    requires index <= |text| && forall i :: index <= i < |text| ==> !IsSpace(text[i])
    ensures var r := BeforeLastSpace(text, index);
      && (forall i :: |r| < i < |text| ==> !IsSpace(text[i]))
      && (|r| < |text| ==> IsSpace(text[|r|]))
      && (|r| == |text| ==> forall i :: 0 <= i < |text| ==> !IsSpace(text[i]))
  {
    if index > 0 && !IsSpace(text[index - 1]) { TokenCut(text, index - 1); }
  }

  lemma StripLeadsWithText(s: string)
    ensures Strip(s) != "" ==> !IsSpace(Strip(s)[0])
  {
    var left := LStrip(s);
    if RStrip(left) != [] { assert RStrip(left)[0] == left[0]; }
  }

  /** A variant is rejected as empty exactly when it has nothing but space, as too long exactly when
      it exceeds the maximum and may not be cut (or the maximum is zero); otherwise what comes out
      is a non-empty prefix of the stripped text that fits. */
  lemma PreparedFits(variant: Option<string>, maxLength: Option<nat>, truncate: bool)
    ensures var text := if variant.None? then "" else Strip(variant.value);
      var over := maxLength.Some? && |text| > maxLength.value;
      match Prepare(variant, maxLength, truncate)
      case Rejected(Empty) => text == ""
      case Rejected(TooLong) => text != "" && over && (!truncate || maxLength.value == 0)
      case Accepted(out, truncated) =>
        && out != "" && out <= text && truncated == over && (maxLength.Some? ==> |out| <= maxLength.value)
        && (if over then truncate && out == TruncateAtBoundary(text, maxLength.value) else out == text)
  {
    if variant.Some? {
      var text := Strip(variant.value);
      StripLeadsWithText(variant.value);
      hide Strip, TruncateAtBoundary;
      if text != "" && maxLength.Some? && |text| > maxLength.value && truncate {
        if maxLength.value > 0 { TruncationIsPrefix(text, maxLength.value); } else { NothingKept(text); }
      }
    }
  }

  lemma NothingKept(text: string)
    ensures TruncateAtBoundary(text, 0) == ""
  {
    assert text[..0] == "";
  }

  // ---- fences ----

  lemma {:induction false} NoFenceAfter(text: string, i: nat)
    requires i <= |text| && forall j: nat :: j >= i ==> !At(text, FENCE, j)
    ensures Fences(text, i) == 0
    decreases |text| - i
  {
    if i < |text| { NoFenceAfter(text, i + 1); }
  }

  lemma {:induction false} ShortHasNone(text: string, i: nat)
    requires i <= |text| < i + 3
    ensures Fences(text, i) == 0
    decreases |text| - i
  {
    if i < |text| { ShortHasNone(text, i + 1); }
  }

  lemma AtPrefix(text: string, r: nat, i: nat)
    requires r <= |text|
    ensures At(text[..r], FENCE, i) <==> i + 3 <= r && At(text, FENCE, i)
  {
    if i + 3 <= r { assert text[..r][i..i + 3] == text[i..i + 3]; }
  }

  /** Cutting at the last occurrence takes away exactly one fence, even when occurrences overlap. */
  lemma {:induction false} CutTakesOne(text: string, r: nat, i: nat)
    requires i <= r && At(text, FENCE, r) && forall j: nat :: At(text, FENCE, j) ==> j <= r
    ensures Fences(text, i) == Fences(text[..r], i) + 1
    decreases r - i
  {
    AtPrefix(text, r, i);
    if At(text, FENCE, i) {
      if i + 3 <= r {
        CutTakesOne(text, r, i + 3);
      } else {
        NoFenceAfter(text, i + 3);
        ShortHasNone(text[..r], i);
      }
    } else {
      CutTakesOne(text, r, i + 1);
    }
  }

  lemma FenceEnds(text: string, i: nat)
    requires At(text, FENCE, i)
    ensures text[i + 2] == '`'
  {
    assert text[i..i + 3][2] == text[i + 2];
  }

  lemma {:induction false} DropLastSame(text: string, i: nat)
    requires i < |text| && text[|text| - 1] != '`'
    ensures Fences(text[..|text| - 1], i) == Fences(text, i)
    decreases |text| - i
  {
    var n := |text| - 1;
    AtPrefix(text, n, i);
    if At(text, FENCE, i) { FenceEnds(text, i); }
    if i < n {
      if At(text, FENCE, i) {
        if i + 3 < |text| { DropLastSame(text, i + 3); }
      } else {
        DropLastSame(text, i + 1);
      }
    }
  }

  lemma {:induction false} SpaceTailKeepsFences(text: string, n: nat)
    requires n <= |text| && forall i :: n <= i < |text| ==> IsSpace(text[i])
    ensures Fences(text[..n], 0) == Fences(text, 0)
    decreases |text| - n
  {
    if n < |text| {
      SpaceTailKeepsFences(text, n + 1);
      DropLastSame(text[..n + 1], 0);
      assert text[..n + 1][..n] == text[..n];
    } else {
      assert text[..n] == text;
    }
  }

  lemma RStripKeepsFences(text: string)
    ensures Fences(RStrip(text), 0) == Fences(text, 0)
  {
    SpaceTailKeepsFences(text, |RStrip(text)|);
  }

  lemma {:induction false} SomeFence(text: string, i: nat)
    requires i <= |text| && Fences(text, i) > 0
    ensures RFind(text, FENCE).Some?
    decreases |text| - i
  {
    if !At(text, FENCE, i) { SomeFence(text, i + 1); }
  }

  /** The fence step leaves an even number of fences unless the only fence starts the text. */
  lemma FencesClosedIff(text: string)
    ensures Fences(DropUnclosedFence(text), 0) % 2 == 0 <==> RFind(text, FENCE) != Some(0)
  {
    var n := Fences(text, 0);
    if n > 0 {
      SomeFence(text, 0);
      var start := RFind(text, FENCE).value;
      CutTakesOne(text, start, 0);
      RStripKeepsFences(text[..start]);
      if start == 0 { assert Fences(text[..0], 0) == 0; }
    } else {
      assert text != "" ==> !At(text, FENCE, 0);
    }
  }

  /** A text whose only fence starts it keeps that fence. */
  lemma OnlyFenceStays()
    ensures Fences(DropUnclosedFence("```a"), 0) == 1
  {
    var text := "```a";
    assert At(text, FENCE, 0);
    ShortHasNone(text, 3);
    assert RFind(text, FENCE) == Some(0) by {
      forall i: nat | At(text, FENCE, i) ensures i <= 0 {
        assert text[i..i + 3][2] == text[i + 2];
      }
    }
  }

  // ---- the parity of the result ----

  /** Where the counted fences start. */
  function FencePlaces(text: string, i: nat): (places: seq<nat>)
    requires i <= |text|
    ensures |places| == Fences(text, i)
    ensures forall k :: 0 <= k < |places| ==> i <= places[k] && places[k] + 3 <= |text|
    ensures forall j, k :: 0 <= j < k < |places| ==> places[j] + 3 <= places[k]
    decreases |text| - i
  {
    if i == |text| then []
    else if At(text, FENCE, i) then [i] + FencePlaces(text, i + 3)
    else FencePlaces(text, i + 1)
  }

  /** Between the end of an opening fence and the end of the fence that closes it. */
  ghost predicate Between(places: seq<nat>, n: nat) {
    exists k: nat :: 2 * k < |places| && places[2 * k] + 3 <= n
                     && (2 * k + 1 < |places| ==> n < places[2 * k + 1] + 3)
  }

  /** The first n characters end inside a fenced block: its fence is opened but not yet closed. */
  ghost predicate InsideBlock(text: string, n: nat) { Between(FencePlaces(text, 0), n) }

  /** The first of the places: those of fences that end within n characters. */
  predicate Within(inside: seq<nat>, all: seq<nat>, n: nat) {
    inside <= all && (|inside| < |all| ==> n < all[|inside|] + 3)
  }

  lemma WithinStep(first: nat, inside: seq<nat>, all: seq<nat>, n: nat)
    requires Within(inside, all, n)
    ensures Within([first] + inside, [first] + all, n)
  {}

  /** A prefix has the fences that end within it, and no others. */
  lemma {:induction false} FencesOfPrefix(text: string, n: nat, i: nat)
    requires i <= n <= |text|
    ensures Within(FencePlaces(text[..n], i), FencePlaces(text, i), n)
    decreases n - i
  {
    AtPrefix(text, n, i);
    hide At, Within, Fences;
    if i == n || (At(text, FENCE, i) && i + 3 > n) {
      NextTooLate(text, n, i);
    } else if At(text, FENCE, i) {
      FencesOfPrefix(text, n, i + 3);
      WithinStep(i, FencePlaces(text[..n], i + 3), FencePlaces(text, i + 3), n);
    } else {
      FencesOfPrefix(text, n, i + 1);
    }
  }

  lemma NextTooLate(text: string, n: nat, i: nat)
    requires i <= n <= |text| && n < i + 3
    ensures Within(FencePlaces(text[..n], i), FencePlaces(text, i), n)
  {
    ShortHasNone(text[..n], i);
  }

  lemma OddPrefix(inside: seq<nat>, all: seq<nat>, n: nat)
    requires Within(inside, all, n) && forall k :: 0 <= k < |inside| ==> inside[k] + 3 <= n
    requires forall j, k :: 0 <= j < k < |all| ==> all[j] + 3 <= all[k]
    ensures |inside| % 2 == 1 <==> Between(all, n)
  {
    var m := |inside|;
    if m % 2 == 1 {
      assert 2 * (m / 2) == m - 1 && inside[2 * (m / 2)] == all[2 * (m / 2)];
    }
    if k: nat :| 2 * k < |all| && all[2 * k] + 3 <= n && (2 * k + 1 < |all| ==> n < all[2 * k + 1] + 3) {
      assert 2 * k < m;
      if 2 * k + 1 < m { assert inside[2 * k + 1] == all[2 * k + 1]; }
    }
  }

  /** Cutting a text leaves an unclosed fence exactly when the cut falls inside a fenced block. */
  lemma PrefixParity(text: string, n: nat)
    requires n <= |text|
    ensures Fences(text[..n], 0) % 2 == 1 <==> InsideBlock(text, n)
  {
    hide Fences, FencePlaces, Between, Within;
    FencesOfPrefix(text, n, 0);
    OddPrefix(FencePlaces(text[..n], 0), FencePlaces(text, 0), n);
  }

  /** What is left when the last cut is made: the head of the text after the fence step. */
  function Closed(text: string, maxLength: nat): string {
    DropUnclosedFence(RStrip(if maxLength < |text| then text[..maxLength] else text))
  }

  lemma ClosedLeads(text: string, maxLength: nat)
    ensures Closed(text, maxLength) <= text
  {
    hide Fences, RFind, LastNonSpace;
  }

  /** Where that cut falls. */
  function CutPlace(closed: string, maxLength: nat): (n: nat)
    ensures n <= |closed|
  {
    match PreferredBoundary(closed, maxLength)
    case Some(boundary) => boundary
    case None => |DropPartialToken(closed)|
  }

  lemma TruncationCuts(text: string, maxLength: nat)
    ensures var closed := Closed(text, maxLength);
      TruncateAtBoundary(text, maxLength) == RStrip(closed[..CutPlace(closed, maxLength)])
  {
    hide PreferredBoundary, RFind, BeforeLastSpace, LastNonSpace;
    var candidate := RStrip(if maxLength < |text| then text[..maxLength] else text);
    if candidate == "" {
      assert Closed(text, maxLength) == "";
    }
    var closed := Closed(text, maxLength);
    assert DropPartialToken(closed) == closed[..|DropPartialToken(closed)|];
  }

  /** The end of the last late occurrence of the first marker that occurs late enough. */
  ghost predicate MarkerEnd(text: string, lower: int, k: nat, n: nat) {
    && k < |MARKERS| && (forall j :: 0 <= j < k ==> !Late(text, MARKERS[j], lower))
    && exists at: nat :: LastLate(text, MARKERS[k], lower, at) && n == at + |RStrip(MARKERS[k])|
  }

  /** The last white space, or the end of a text without any. */
  ghost predicate LastSpace(text: string, n: nat) {
    && n <= |text| && (forall i :: n < i < |text| ==> !IsSpace(text[i]))
    && if n < |text| then IsSpace(text[n]) else forall i :: 0 <= i < |text| ==> !IsSpace(text[i])
  }

  /** The end of the preferred marker, or the last white space if no marker occurs late enough. */
  ghost predicate PreferredCut(text: string, lower: int, n: nat) {
    || (exists k: nat :: MarkerEnd(text, lower, k, n))
    || ((forall k :: 0 <= k < |MARKERS| ==> !Late(text, MARKERS[k], lower)) && LastSpace(text, n))
  }

  lemma CutIsPreferred(closed: string, maxLength: nat)
    ensures PreferredCut(closed, LowerBound(closed, maxLength), CutPlace(closed, maxLength))
  {
    hide Boundary, BeforeLastSpace, LastLate, Late, LowerBound, RStrip, IsSpace, MARKERS;
    var lower := LowerBound(closed, maxLength);
    var m, at := BoundaryIsPreferred(closed, MARKERS, lower);
    if PreferredBoundary(closed, maxLength).Some? {
      assert MarkerEnd(closed, lower, m, CutPlace(closed, maxLength));
    } else {
      TokenCut(closed, |closed|);
    }
  }

  lemma PreferredCutIsUnique(text: string, lower: int, a: nat, b: nat)
    requires PreferredCut(text, lower, a) && PreferredCut(text, lower, b)
    ensures a == b
  {
    hide At, RStrip, IsSpace, MARKERS;
    if j: nat :| MarkerEnd(text, lower, j, a) {
      assert Late(text, MARKERS[j], lower);
      var k: nat :| MarkerEnd(text, lower, k, b);
      assert Late(text, MARKERS[k], lower);
      assert j == k;
    } else {
      if k: nat :| MarkerEnd(text, lower, k, b) {
        assert false;
      }
    }
  }

  /** There is one such place, and it is where the code cuts. */
  lemma PreferredCutIff(closed: string, maxLength: nat, n: nat)
    ensures PreferredCut(closed, LowerBound(closed, maxLength), n) <==> n == CutPlace(closed, maxLength)
  {
    hide PreferredCut, CutPlace, LowerBound;
    CutIsPreferred(closed, maxLength);
    if PreferredCut(closed, LowerBound(closed, maxLength), n) {
      PreferredCutIsUnique(closed, LowerBound(closed, maxLength), n, CutPlace(closed, maxLength));
    }
  }

  /** The fence step comes before the last cut, so the result can still have an unclosed fence. It
      has one exactly when the place of that cut lies inside a fenced block of the text: the end of
      the preferred marker in what the fence step left, or else its last white space. */
  lemma TruncationParity(text: string, maxLength: nat, n: nat)
    requires PreferredCut(Closed(text, maxLength), LowerBound(Closed(text, maxLength), maxLength), n)
    ensures Fences(TruncateAtBoundary(text, maxLength), 0) % 2 == 1 <==> InsideBlock(text, n)
  {
    hide TruncateAtBoundary, InsideBlock, Closed, PreferredCut, CutPlace, Fences, RStrip, LowerBound;
    var closed := Closed(text, maxLength);
    PreferredCutIff(closed, maxLength, n);
    ClosedLeads(text, maxLength);
    TruncationCuts(text, maxLength);
    RStripKeepsFences(closed[..n]);
    assert closed[..n] == text[..n];
    PrefixParity(text, n);
  }

  predicate FenceFree(text: string, i: nat) {
    i + 3 <= |text| ==> text[i] != '`' || text[i + 1] != '`' || text[i + 2] != '`'
  }

  lemma NotAt(text: string, i: nat)
    requires FenceFree(text, i)
    ensures !At(text, FENCE, i)
  {
    if i + 3 <= |text| {
      assert text[i..i + 3][0] == text[i] && text[i..i + 3][1] == text[i + 1] && text[i..i + 3][2] == text[i + 2];
    }
  }

  lemma {:induction false} SkipFree(text: string, i: nat, j: nat)
    requires i <= j <= |text| && forall k :: i <= k < j ==> FenceFree(text, k)
    ensures Fences(text, i) == Fences(text, j)
    decreases j - i
  {
    if i < j {
      NotAt(text, i);
      SkipFree(text, i + 1, j);
    }
  }

  lemma TwoFences(text: string)
    requires "xxx ```a\n\nb``` z" <= text && |text| <= 18 && forall i :: 14 <= i < |text| ==> text[i] != '`'
    ensures Fences(text, 0) == 2
  {
    SkipFree(text, 0, 4);
    assert text[4..7] == FENCE && text[11..14] == FENCE;
    SkipFree(text, 7, 11);
    SkipFree(text, 14, |text|);
  }

  lemma OneFence(text: string)
    requires text == "xxx ```a"
    ensures Fences(text, 0) == 1
  {
    SkipFree(text, 0, 4);
    assert text[4..7] == FENCE;
    SkipFree(text, 7, 8);
  }

  lemma LastBreak(text: string)
    requires text == "xxx ```a\n\nb``` z"
    ensures RFind(text, "\n\n") == Some(8)
  {
    hide LastBelow;
    assert At(text, "\n\n", 8);
    forall i: nat | At(text, "\n\n", i) ensures i <= 8 {
      assert text[i..i + 2][0] == text[i] && text[i..i + 2][1] == text[i + 1];
    }
  }

  /** A text with one closed block, cut so that the block is open at the end. */
  lemma TruncationReopens()
    ensures var text := "xxx ```a\n\nb``` zzz";
      Fences(text, 0) == 2 && TruncateAtBoundary(text, 16) == "xxx ```a" && Fences("xxx ```a", 0) == 1
  {
    hide RFind, Fences, LastNonSpace;
    var text, closed := "xxx ```a\n\nb``` zzz", "xxx ```a\n\nb``` z";
    assert text[..16] == closed;
    RStripFixed(closed);
    RStripFixed("xxx ```a");
    TwoFences(text);
    TwoFences(closed);
    OneFence("xxx ```a");
    LastBreak(closed);
    assert RStrip("\n\n") == "";
    assert PreferredBoundary(closed, 16) == Some(8);
    assert closed[..8] == "xxx ```a";
  }
}
