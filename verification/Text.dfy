/** The string operations of Python the release code leans on: blank tests, splitting and
    joining on "/", and the hexadecimal tests behind "must be SHA-256". */
module Text {
  predicate IsSpace(c: char) {
    c == ' ' || '\t' <= c <= '\r' || 0x1c as char <= c <= 0x1f as char
  }

  /** `not value.strip()` */
  predicate Blank(s: string) {
    forall c :: c in s ==> IsSpace(c)
  }

  /** One past the last character below n that is not white space. */
  function LastNonSpace(s: string, n: nat): (k: nat)
    requires n <= |s|
    ensures k <= n && (k > 0 ==> !IsSpace(s[k - 1]))
    ensures forall i :: k <= i < n ==> IsSpace(s[i])
  {
    if n > 0 && IsSpace(s[n - 1]) then LastNonSpace(s, n - 1) else n
  }

  function FirstNonSpace(s: string, i: nat): (k: nat)
    requires i <= |s|
    ensures i <= k <= |s| && (k < |s| ==> !IsSpace(s[k]))
    ensures forall j :: i <= j < k ==> IsSpace(s[j])
    decreases |s| - i
  {
    if i < |s| && IsSpace(s[i]) then FirstNonSpace(s, i + 1) else i
  }

  function RStrip(s: string): (r: string)
    ensures r <= s
    ensures r != [] ==> !IsSpace(r[|r| - 1])
    ensures forall i :: |r| <= i < |s| ==> IsSpace(s[i])
  {
    s[..LastNonSpace(s, |s|)]
  }

  function LStrip(s: string): (r: string)
    ensures |r| <= |s| && r == s[|s| - |r|..]
    ensures r != [] ==> !IsSpace(r[0])
    ensures forall i :: 0 <= i < |s| - |r| ==> IsSpace(s[i])
  {
    s[FirstNonSpace(s, 0)..]
  }

  function Strip(s: string): string { RStrip(LStrip(s)) }

  function LowerChar(c: char): char {
    if 'A' <= c <= 'Z' then ((c as int) - ('A' as int) + ('a' as int)) as char else c
  }

  function Lower(s: string): (r: string)
    ensures |r| == |s|
  {
    seq(|s|, i requires 0 <= i < |s| => LowerChar(s[i]))
  }

  predicate IsHexDigit(c: char) {
    '0' <= c <= '9' || 'a' <= c <= 'f' || 'A' <= c <= 'F'
  }

  /** Hexadecimal digits with single underscores between them. */
  predicate HexWithUnderscores(s: string) {
    && s != []
    && IsHexDigit(s[0]) && IsHexDigit(s[|s| - 1])
    && (forall c :: c in s ==> IsHexDigit(c) || c == '_')
    && (forall i :: 0 <= i < |s| - 1 ==> s[i] != '_' || s[i + 1] != '_')
  }

  /** Whether `int(value, 16)` succeeds: surrounding space, a sign, a prefix `0x` and
      single underscores are all accepted by Python. */
  predicate ParsesAsHex(value: string) {
    HexWithUnderscores(WithoutPrefix(WithoutSign(Strip(value))))
  }

  function WithoutSign(s: string): string {
    if s != [] && s[0] in {'+', '-'} then s[1..] else s
  }

  function WithoutPrefix(s: string): string {
    if |s| >= 2 && s[0] == '0' && s[1] in {'x', 'X'} then
      if |s| >= 3 && s[2] == '_' then s[3..] else s[2..]
    else s
  }

  /** The test shared by the release readers: sixty-four characters that parse as hexadecimal. */
  predicate LooksLikeSha256(s: string) {
    |s| == 64 && ParsesAsHex(s)
  }

  /** What `hexdigest()` returns: sixty-four lower-case hexadecimal digits. */
  predicate HexDigest(s: string) {
    && |s| == 64
    && forall c :: c in s ==> '0' <= c <= '9' || 'a' <= c <= 'f'
  }

  lemma RStripFixed(s: string)
    requires s == [] || !IsSpace(s[|s| - 1])
    ensures RStrip(s) == s
  {}

  lemma LStripFixed(s: string)
    requires s == [] || !IsSpace(s[0])
    ensures LStrip(s) == s
  {}

  lemma DigestEnds(s: string)
    requires HexDigest(s)
    ensures s != [] && !IsSpace(s[0]) && !IsSpace(s[|s| - 1])
  {
    assert s[0] in s && s[63] in s;
  }

  lemma DigestStripFixed(s: string)
    requires HexDigest(s)
    ensures Strip(s) == s
  {
    hide HexDigest, RStrip, LStrip;
    DigestEnds(s);
    LStripFixed(s);
    RStripFixed(s);
  }

  lemma PlainDigest(s: string)
    requires HexDigest(s)
    ensures WithoutPrefix(WithoutSign(s)) == s
  {
    assert s[0] in s && s[1] in s;
  }

  lemma DigestDigits(s: string)
    requires HexDigest(s)
    ensures HexWithUnderscores(s)
  {
    assert s[0] in s && s[|s| - 1] in s;
    forall i | 0 <= i < |s| ensures s[i] != '_' { assert s[i] in s; }
  }

  lemma DigestParses(s: string)
    requires HexDigest(s)
    ensures ParsesAsHex(s)
  {
    DigestStripFixed(s);
    PlainDigest(s);
    DigestDigits(s);
  }

  lemma DigestLowerFixed(s: string)
    requires HexDigest(s)
    ensures Lower(s) == s
  {
    forall i | 0 <= i < |s| ensures Lower(s)[i] == s[i] { assert s[i] in s; }
  }

  /** A real digest passes the readers' test, keeps its value under `lower`, and is not blank. */
  lemma DigestIsSha256(s: string)
    requires HexDigest(s)
    ensures LooksLikeSha256(s) && Lower(s) == s && !Blank(s)
  {
    DigestParses(s);
    DigestLowerFixed(s);
    assert s[0] in s;
  }

  /** `value.split("/")`: never empty. */
  function SplitSlash(s: string): (parts: seq<string>)
    ensures parts != []
    ensures forall p :: p in parts ==> '/' !in p
  {
    if s == [] then [""]
    else
      var rest := SplitSlash(s[1..]);
      if s[0] == '/' then [""] + rest else [[s[0]] + rest[0]] + rest[1..]
  }

  function JoinSlash(parts: seq<string>): string {
    if parts == [] then ""
    else if |parts| == 1 then parts[0]
    else parts[0] + "/" + JoinSlash(parts[1..])
  }

  lemma {:induction false} SplitHead(p: string, rest: string)
    requires '/' !in p
    ensures SplitSlash(p + "/" + rest) == [p] + SplitSlash(rest)
  {
    if p == [] {
      assert (p + "/" + rest)[0] == '/' && (p + "/" + rest)[1..] == rest;
    } else {
      var s := p + "/" + rest;
      assert s[1..] == p[1..] + "/" + rest;
      SplitHead(p[1..], rest);
      assert s[0] == p[0] && p[0] in p;
      assert [p[0]] + p[1..] == p;
    }
  }

  lemma {:induction false} SplitAtom(p: string)
    requires '/' !in p
    ensures SplitSlash(p) == [p]
  {
    if p != [] {
      assert p[0] in p;
      SplitAtom(p[1..]);
      assert [p[0]] + p[1..] == p;
    }
  }

  /** Splitting undoes joining when no part holds a slash. */
  lemma {:induction false} SplitJoin(parts: seq<string>)
    requires parts != [] && forall p :: p in parts ==> '/' !in p
    ensures SplitSlash(JoinSlash(parts)) == parts
  {
    if |parts| == 1 {
      SplitAtom(parts[0]);
    } else {
      SplitHead(parts[0], JoinSlash(parts[1..]));
      SplitJoin(parts[1..]);
    }
  }

  /** Joining undoes splitting, always. */
  lemma {:induction false} JoinSplit(s: string)
    ensures JoinSlash(SplitSlash(s)) == s
  {
    if s != [] {
      JoinSplit(s[1..]);
      var rest := SplitSlash(s[1..]);
      if s[0] == '/' {
        assert ([""] + rest)[1..] == rest;
      } else {
        var parts := [[s[0]] + rest[0]] + rest[1..];
        assert parts[1..] == rest[1..];
      }
    }
  }

  /** Python's order on strings. */
  predicate StringLe(a: string, b: string) {
    a == [] || (b != [] && (a[0] < b[0] || (a[0] == b[0] && StringLe(a[1..], b[1..]))))
  }

  /** The first place where they differ decides; a prefix comes first. */
  ghost predicate Alphabetical(a: string, b: string) {
    exists k :: 0 <= k <= |a| && k <= |b| && a[..k] == b[..k] && (k == |a| || (k < |b| && a[k] < b[k]))
  }

  lemma {:induction false} StringLeIff(a: string, b: string)
    ensures StringLe(a, b) <==> Alphabetical(a, b)
  {
    if StringLe(a, b) {
      StringLeSays(a, b);
    }
    if k: nat :| k <= |a| && k <= |b| && a[..k] == b[..k] && (k == |a| || (k < |b| && a[k] < b[k])) {
      DecidedAt(a, b, k);
    }
  }

  lemma {:induction false} StringLeSays(a: string, b: string)
    requires StringLe(a, b)
    ensures Alphabetical(a, b)
  {
    if a == [] || a[0] < b[0] {
      assert a[..0] == b[..0];
    } else {
      StringLeSays(a[1..], b[1..]);
      var k :| 0 <= k <= |a[1..]| && k <= |b[1..]| && a[1..][..k] == b[1..][..k]
               && (k == |a[1..]| || (k < |b[1..]| && a[1..][k] < b[1..][k]));
      assert a[..k + 1] == [a[0]] + a[1..][..k] && b[..k + 1] == [b[0]] + b[1..][..k];
    }
  }

  lemma {:induction false} DecidedAt(a: string, b: string, k: nat)
    requires k <= |a| && k <= |b| && a[..k] == b[..k] && (k == |a| || (k < |b| && a[k] < b[k]))
    ensures StringLe(a, b)
  {
    if k > 0 {
      assert a[0] == a[..k][0] && b[0] == b[..k][0];
      assert a[1..][..k - 1] == a[..k][1..] && b[1..][..k - 1] == b[..k][1..];
      DecidedAt(a[1..], b[1..], k - 1);
    }
  }

  lemma {:induction false} StringLeTotal(a: string, b: string)
    ensures StringLe(a, b) || StringLe(b, a)
    ensures StringLe(a, b) && StringLe(b, a) ==> a == b
  {
    if a != [] && b != [] && a[0] == b[0] {
      StringLeTotal(a[1..], b[1..]);
      assert a == [a[0]] + a[1..] && b == [b[0]] + b[1..];
    }
  }

  lemma {:induction false} StringLeTransitive(a: string, b: string, c: string)
    requires StringLe(a, b) && StringLe(b, c)
    ensures StringLe(a, c)
  {
    if a != [] && a[0] == b[0] && b[0] == c[0] {
      StringLeTransitive(a[1..], b[1..], c[1..]);
    }
  }

  // ---- what reads as hexadecimal ----

  predicate HexChar(c: char) { c in "0123456789abcdefABCDEF" }

  predicate HexGroup(s: string) {
    s != "" && forall c :: c in s ==> HexChar(c)
  }

  function Underscored(groups: seq<string>): string
    requires groups != []
  {
    if |groups| == 1 then groups[0] else groups[0] + "_" + Underscored(groups[1..])
  }

  lemma HexDigitSays(c: char)
    ensures IsHexDigit(c) <==> HexChar(c)
  {
    var digits := "0123456789abcdefABCDEF";
    assert digits[0] == '0' && digits[9] == '9' && digits[10] == 'a' && digits[15] == 'f';
    assert digits[16] == 'A' && digits[21] == 'F' && |digits| == 22;
    if '0' <= c <= '9' { assert digits[c as int - '0' as int] == c; }
    if 'a' <= c <= 'f' { assert digits[10 + c as int - 'a' as int] == c; }
    if 'A' <= c <= 'F' { assert digits[16 + c as int - 'A' as int] == c; }
  }

  ghost predicate Grouped(s: string, groups: seq<string>) {
    groups != [] && s == Underscored(groups) && forall g :: g in groups ==> HexGroup(g)
  }

  /** Single underscores between digits are underscores between groups of digits. */
  lemma {:induction false} GroupsOf(s: string) returns (groups: seq<string>)
    requires HexWithUnderscores(s)
    ensures Grouped(s, groups)
    decreases |s|
  {
    HexDigitSays(s[0]);
    hide HexChar, IsHexDigit;
    var first := [s[0]];
    assert HexGroup(first);
    if |s| == 1 {
      groups := [first];
      assert s == first;
    } else if s[1] == '_' {
      var rest := s[2..];
      assert s[|s| - 1] == rest[|rest| - 1] && s[2] in s;
      assert forall i :: 0 <= i < |rest| ==> rest[i] == s[i + 2];
      var later := GroupsOf(rest);
      assert s == first + "_" + rest;
      groups := [first] + later;
      assert groups[1..] == later;
    } else {
      var rest := s[1..];
      assert s[1] in s;
      var later := GroupsOf(rest);
      assert later[0] in later;
      first := first + later[0];
      assert s == [s[0]] + rest;
      groups := [first] + later[1..];
      assert groups[1..] == later[1..];
    }
  }

  lemma GroupReads(g: string)
    requires HexGroup(g)
    ensures g != "" && forall i :: 0 <= i < |g| ==> IsHexDigit(g[i]) && g[i] != '_'
  {
    forall i | 0 <= i < |g| ensures IsHexDigit(g[i]) { HexDigitSays(g[i]); }
  }

  lemma JoinedReads(g: string, rest: string)
    requires g != "" && forall i :: 0 <= i < |g| ==> IsHexDigit(g[i]) && g[i] != '_'
    requires HexWithUnderscores(rest)
    ensures HexWithUnderscores(g + "_" + rest)
  {
    hide IsHexDigit;
    var s := g + "_" + rest;
    assert forall i :: 0 <= i < |g| ==> s[i] == g[i];
    assert forall i :: |g| < i < |s| ==> s[i] == rest[i - |g| - 1];
    assert s[|g|] == '_' && s[|g| + 1] == rest[0] && rest[0] in rest;
    forall i | 0 <= i < |s| ensures IsHexDigit(s[i]) || s[i] == '_' {
      if i > |g| { assert rest[i - |g| - 1] in rest; }
    }
    assert !IsHexDigit('_') by { UnderscoreIsNoDigit(); }
  }

  lemma UnderscoreIsNoDigit()
    ensures !IsHexDigit('_')
  {}

  lemma {:induction false} GroupsRead(groups: seq<string>)
    requires groups != [] && forall g :: g in groups ==> HexGroup(g)
    ensures HexWithUnderscores(Underscored(groups))
  {
    var g := groups[0];
    assert g in groups;
    GroupReads(g);
    hide HexGroup, IsHexDigit;
    if |groups| == 1 {
      assert forall c :: c in g ==> IsHexDigit(c);
    } else {
      GroupsRead(groups[1..]);
      JoinedReads(g, Underscored(groups[1..]));
    }
  }

  lemma StripOf(before: string, body: string, after: string)
    requires Blank(before) && Blank(after) && body != "" && !IsSpace(body[0]) && !IsSpace(body[|body| - 1])
    ensures Strip(before + body + after) == body
  {
    var value := before + body + after;
    var left := LStrip(value);
    assert forall i :: 0 <= i < |before| ==> value[i] in before;
    assert value[|before|] == body[0];
    assert left == body + after;
    var both := RStrip(left);
    assert forall i :: |body| <= i < |left| ==> left[i] in after;
    assert left[|body| - 1] == body[|body| - 1];
    assert both == body;
  }

  /** A text read by `int(value, 16)`: white space, a sign, a prefix and groups of digits. */
  ghost predicate HexLiteral(value: string, before: string, sign: string, prefix: string, groups: seq<string>,
                             after: string)
  {
    && Blank(before) && Blank(after) && groups != [] && (forall g :: g in groups ==> HexGroup(g))
    && (sign == "" || sign == "+" || sign == "-")
    && (prefix == "" || prefix == "0x" || prefix == "0X" || prefix == "0x_" || prefix == "0X_")
    && value == before + (sign + (prefix + Underscored(groups))) + after
  }

  lemma PrefixGoes(prefix: string, digits: string)
    requires HexWithUnderscores(digits)
    requires prefix == "" || prefix == "0x" || prefix == "0X" || prefix == "0x_" || prefix == "0X_"
    ensures var number := prefix + digits;
      number != "" && (number[0] == '0' || number[0] == digits[0]) && WithoutPrefix(number) == digits
  {
    var number := prefix + digits;
    if prefix == "" {
      assert number == digits;
      if |digits| >= 2 { assert digits[1] in digits; }
    } else if |prefix| == 2 {
      assert number[2..] == digits;
    } else {
      assert number[3..] == digits;
    }
  }

  lemma SignGoes(sign: string, number: string)
    requires number != "" && number[0] != '+' && number[0] != '-' && (sign == "" || sign == "+" || sign == "-")
    ensures WithoutSign(sign + number) == number
  {
    if sign == "" { assert sign + number == number; } else { assert (sign + number)[1..] == number; }
  }

  lemma LiteralReads(value: string, before: string, sign: string, prefix: string, groups: seq<string>, after: string)
    requires HexLiteral(value, before, sign, prefix, groups, after)
    ensures ParsesAsHex(value)
  {
    hide Underscored, WithoutPrefix, WithoutSign, Strip, HexGroup, Blank, HexWithUnderscores;
    GroupsRead(groups);
    var digits := Underscored(groups);
    PrefixGoes(prefix, digits);
    var number := prefix + digits;
    NumberEnds(sign, number, digits);
    SignGoes(sign, number);
    StripOf(before, sign + number, after);
  }

  lemma NumberEnds(sign: string, number: string, digits: string)
    requires HexWithUnderscores(digits) && number != "" && (number[0] == '0' || number[0] == digits[0])
    requires |digits| <= |number| && number[|number| - |digits|..] == digits
    requires sign == "" || sign == "+" || sign == "-"
    ensures number[0] != '+' && number[0] != '-'
    ensures !IsSpace((sign + number)[0]) && !IsSpace((sign + number)[|sign + number| - 1])
  {
    assert number[|number| - 1] == digits[|digits| - 1];
    assert (sign + number)[|sign + number| - 1] == number[|number| - 1];
    assert sign == "" ==> sign + number == number;
  }

  lemma ReadIsLiteral(value: string)
    returns (before: string, sign: string, prefix: string, groups: seq<string>, after: string)
    requires ParsesAsHex(value)
    ensures HexLiteral(value, before, sign, prefix, groups, after)
  {
    hide Underscored, HexWithUnderscores, HexGroup;
    var left := LStrip(value);
    var body := Strip(value);
    before, after := value[..|value| - |left|], left[|body|..];
    var number := WithoutSign(body);
    sign := body[..|body| - |number|];
    var digits := WithoutPrefix(number);
    prefix := number[..|number| - |digits|];
    groups := GroupsOf(digits);
    StrippedParts(value);
    SignOf(body);
    PrefixOf(number);
    assert value == before + (sign + (prefix + Underscored(groups))) + after;
  }

  lemma StrippedParts(value: string)
    ensures var left, body := LStrip(value), Strip(value);
      && |left| <= |value| && |body| <= |left|
      && value == value[..|value| - |left|] + body + left[|body|..]
      && Blank(value[..|value| - |left|]) && Blank(left[|body|..])
  {
    var left, body := LStrip(value), Strip(value);
    assert left == body + left[|body|..];
    assert value == value[..|value| - |left|] + left;
  }

  lemma SignOf(body: string)
    ensures var number := WithoutSign(body);
      var sign := body[..|body| - |number|];
      body == sign + number && (sign == "" || sign == "+" || sign == "-")
  {
    var number := WithoutSign(body);
    assert |number| < |body| ==> body[..|body| - |number|] == [body[0]];
  }

  lemma PrefixOf(number: string)
    ensures var digits := WithoutPrefix(number);
      var prefix := number[..|number| - |digits|];
      && number == prefix + digits
      && (prefix == "" || prefix == "0x" || prefix == "0X" || prefix == "0x_" || prefix == "0X_")
  {
    var digits := WithoutPrefix(number);
    var prefix := number[..|number| - |digits|];
    assert |prefix| == 2 ==> prefix == [number[0], number[1]];
    assert |prefix| == 3 ==> prefix == [number[0], number[1], number[2]];
  }

  /** Exactly those texts read as hexadecimal. */
  lemma HexLiteralIff(value: string)
    ensures ParsesAsHex(value) <==>
      exists before, sign, prefix, groups, after :: HexLiteral(value, before, sign, prefix, groups, after)
  {
    hide ParsesAsHex, HexLiteral;
    if ParsesAsHex(value) {
      var before, sign, prefix, groups, after := ReadIsLiteral(value);
    }
    if before, sign, prefix, groups, after :| HexLiteral(value, before, sign, prefix, groups, after) {
      LiteralReads(value, before, sign, prefix, groups, after);
    }
  }
}
