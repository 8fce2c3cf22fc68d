/** Scanning dataset files and reading one record back (mmcrawler_datasets/dataset.py:98-107,
    459-590). A text file is its characters and an offset is a character position; a tar member
    carries its decoded text, or None when it cannot be extracted or decoded. */
module RecordScan {
  import opened Options
  import Text

  datatype Member = Member(name: string, isFile: bool, size: nat, text: Option<string>)

  datatype File = TextFile(text: string) | TarFile(members: seq<Member>)

  /** A JSON object, by its canonical text. */
  datatype Record = Record(canonical: string)

  /** Where a record was found; `line` counts from one. */
  datatype Place = Place(path: string, line: nat, offset: nat, member: Option<string>)

  /** What the scan yields: a parsed record with its place, or the error that ends the scan. */
  datatype Item = Row(place: Place, record: Record) | Broken

  /** What is not modelled of the record format, JSON objects and legal member names, and the limits
      on the bytes of a record (four mebibytes in the source) and on the members of a tar file (a
      hundred thousand). Everything below holds for any limits. */
  datatype Format = Format(parse: string -> Option<Record>, nameOk: string -> bool, maxRecordBytes: nat,
                           maxTarMembers: nat)

  function Parse(format: Format, text: string): Option<Record> { format.parse(text) }

  predicate NameOk(format: Format, name: string) { format.nameOk(name) }

  function CharBytes(c: char): nat {
    var n := c as int;
    if n < 0x80 then 1 else if n < 0x800 then 2 else if n < 0x10000 then 3 else 4
  }

  /** The length of the UTF-8 encoding. */
  function Bytes(s: string): (n: nat)
    ensures n >= |s|
  {
    if s == "" then 0 else CharBytes(s[0]) + Bytes(s[1..])
  }

  // ---- lines ----

  /** One past the newline that ends the line starting at `from`, or the end of the text. */
  function LineEnd(text: string, from: nat): (e: nat)
    requires from <= |text|
    ensures from <= e <= |text| && (from < |text| ==> from < e)
    decreases |text| - from
  {
    if from == |text| then from else if text[from] == '\n' then from + 1 else LineEnd(text, from + 1)
  }

  /** The text cut after every newline. */
  function Lines(text: string): seq<string>
    decreases |text|
  {
    if text == "" then []
    else
      var e := LineEnd(text, 0);
      [text[..e]] + Lines(text[e..])
  }

  /** A line ends after its first newline, or with the text. */
  lemma {:induction false} LineEndSays(text: string, from: nat)
    requires from < |text|
    ensures var e := LineEnd(text, from);
      '\n' !in text[from..e - 1] && (e == |text| || text[e - 1] == '\n')
    decreases |text| - from
  {
    if text[from] != '\n' && from + 1 < |text| {
      LineEndSays(text, from + 1);
      var e := LineEnd(text, from);
      assert text[from..e - 1] == [text[from]] + text[from + 1..e - 1];
    }
  }

  function Length(lines: seq<string>): nat {
    if lines == [] then 0 else |lines[0]| + Length(lines[1..])
  }

  function Joined(lines: seq<string>): (text: string)
    ensures |text| == Length(lines)
  {
    if lines == [] then "" else lines[0] + Joined(lines[1..])
  }

  /** The lines are the text in pieces: none is empty, a newline stands only at the end of one, and
      every line but the last has it. */
  lemma {:induction false} LinesSay(text: string)
    ensures var lines := Lines(text);
      && Joined(lines) == text
      && (forall k :: 0 <= k < |lines| ==> lines[k] != "" && '\n' !in lines[k][..|lines[k]| - 1])
      && (forall k :: 0 <= k < |lines| - 1 ==> lines[k][|lines[k]| - 1] == '\n')
    decreases |text|
  {
    if text != "" {
      var e := LineEnd(text, 0);
      LineEndSays(text, 0);
      LinesSay(text[e..]);
      hide LineEnd;
      var lines, rest := Lines(text), Lines(text[e..]);
      assert lines[0] == text[..e] && lines[1..] == rest && text[..e] + text[e..] == text;
      assert lines[0][..|lines[0]| - 1] == text[0..e - 1];
      assert e == |text| ==> rest == [];
    }
  }

  /** How many characters have a code point from `low` on. */
  function From(s: string, low: int): nat {
    if s == "" then 0 else (if s[0] as int >= low then 1 else 0) + From(s[1..], low)
  }

  /** UTF-8 takes one byte for a character, one more from U+0080, from U+0800 and from U+10000 on. */
  lemma {:induction false} BytesSay(s: string)
    ensures Bytes(s) == |s| + From(s, 0x80) + From(s, 0x800) + From(s, 0x10000)
  {
    if s != "" { BytesSay(s[1..]); }
  }

  lemma {:induction false} LineEndShift(text: string, from: nat, k: nat)
    requires from <= k <= |text|
    ensures LineEnd(text, k) == from + LineEnd(text[from..], k - from)
    decreases |text| - k
  {
    if k < |text| { LineEndShift(text, from, k + 1); }
  }

  // ---- what a scan yields ----

  /** One line: too long or not a record ends the scan, a blank one yields nothing. */
  function LineItems(path: string, current: string, line: nat, offset: nat, format: Format): seq<Item> {
    if Bytes(current) > format.maxRecordBytes then [Broken]
    else if Text.Strip(current) == "" then []
    else match Parse(format, Text.Strip(current))
      case None => [Broken]
      case Some(record) => [Row(Place(path, line, offset, None), record)]
  }

  predicate Ends(items: seq<Item>) { items != [] && items[0].Broken? }

  function TextItems(path: string, lines: seq<string>, line: nat, offset: nat, format: Format): seq<Item>
    decreases |lines|
  {
    if lines == [] then []
    else
      var items := LineItems(path, lines[0], line + 1, offset, format);
      if Ends(items) then items
      else items + TextItems(path, lines[1..], line + 1, offset + |lines[0]|, format)
  }

  predicate MemberOk(member: Member, format: Format) {
    member.isFile && NameOk(format, member.name) && member.size <= format.maxRecordBytes && member.text.Some?
  }

  /** One member: a bad, repeated or unparsable one, or one too many, ends the scan. */
  function MemberItem(path: string, m: Member, index: nat, names: set<string>, format: Format): Item {
    if index > format.maxTarMembers || !MemberOk(m, format) || m.name in names then Broken
    else match Parse(format, Text.Strip(m.text.value))
      case None => Broken
      case Some(record) => Row(Place(path, index, 0, Some(m.name)), record)
  }

  function TarItems(path: string, members: seq<Member>, index: nat, names: set<string>, format: Format): seq<Item>
    decreases |members|
  {
    if members == [] then []
    else
      var item := MemberItem(path, members[0], index + 1, names, format);
      if item.Broken? then [Broken]
      else [item] + TarItems(path, members[1..], index + 1, names + {members[0].name}, format)
  }

  function FileItems(path: string, files: map<string, File>, format: Format): seq<Item> {
    if path !in files then [Broken]
    else match files[path]
      case TextFile(text) => TextItems(path, Lines(text), 0, 0, format)
      case TarFile(members) => TarItems(path, members, 0, {}, format)
  }

  // ---- the scanning loops ----

  /** `readline(limit)` at an offset. */
  function ReadLine(text: string, offset: nat, limit: nat): string
    requires offset <= |text|
  {
    var e := LineEnd(text, offset);
    if e - offset <= limit then text[offset..e] else text[offset..offset + limit]
  }

  /** What the lines from an offset on still yield. */
  function Left(path: string, text: string, line: nat, offset: nat, format: Format): seq<Item>
    requires offset <= |text|
  {
    TextItems(path, Lines(text[offset..]), line, offset, format)
  }

  lemma LeftAtStart(path: string, text: string, format: Format)
    ensures Left(path, text, 0, 0, format) == TextItems(path, Lines(text), 0, 0, format)
  {
    assert text[0..] == text;
  }

  /** The offset-advancing loop with its bounded `readline` yields what a scan of the complete
      lines yields. */
  method ScanText(path: string, text: string, format: Format) returns (items: seq<Item>)
    ensures items == TextItems(path, Lines(text), 0, 0, format)
  {
    LeftAtStart(path, text, format);
    hide Lines, ReadLine, LineItems, TextItems, Left;
    items := [];
    var line, offset := 0, 0;
    while true
      invariant offset <= |text| && items + Left(path, text, line, offset, format) == Left(path, text, 0, 0, format)
      decreases |text| - offset
    {
      var current := ReadLine(text, offset, format.maxRecordBytes + 1);
      LineStep(path, text, line, offset, format);
      if current == "" {
        break;
      }
      line := line + 1;
      var found := LineItems(path, current, line, offset, format);
      items := items + found;
      if Ends(found) {
        break;
      }
      offset := offset + |current|;
    }
  }

  /** One turn: the bounded line yields what the complete line yields. */
  lemma LineStep(path: string, text: string, line: nat, offset: nat, format: Format)
    requires offset <= |text|
    ensures var current := ReadLine(text, offset, format.maxRecordBytes + 1);
      var found, left := LineItems(path, current, line + 1, offset, format), Left(path, text, line, offset, format);
      if current == "" then left == []
      else if Ends(found) then left == found
      else offset + |current| <= |text| && left == found + Left(path, text, line + 1, offset + |current|, format)
  {
    hide Lines, LineItems, LineEnd, Bytes, Left, ReadLine, Ends;
    if offset < |text| {
      BoundedRead(text, offset, format);
      BrokenTogether(path, text, offset, line + 1, format);
      LeftStep(path, text, line, offset, format);
    } else {
      EndOfText(path, text, line, format);
    }
  }

  lemma EndOfText(path: string, text: string, line: nat, format: Format)
    ensures Left(path, text, line, |text|, format) == []
    ensures ReadLine(text, |text|, format.maxRecordBytes + 1) == ""
  {
    assert text[|text|..] == "";
  }

  lemma LeftStep(path: string, text: string, line: nat, offset: nat, format: Format)
    requires offset < |text|
    ensures var lines, left := Lines(text[offset..]), Left(path, text, line, offset, format);
      && lines != [] && offset + |lines[0]| <= |text|
      && var found := LineItems(path, lines[0], line + 1, offset, format);
         if Ends(found) then left == found
         else left == found + Left(path, text, line + 1, offset + |lines[0]|, format)
  {
    hide Lines, LineItems, LineEnd;
    LinesStep(text, offset);
  }

  lemma LinesStep(text: string, offset: nat)
    requires offset < |text|
    ensures var lines := Lines(text[offset..]);
      && lines != [] && lines[0] != "" && offset + |lines[0]| <= |text|
      && lines[0] == text[offset..LineEnd(text, offset)]
      && lines[1..] == Lines(text[offset + |lines[0]|..])
  {
    hide LineEnd;
    LineEndShift(text, offset, offset);
    var e := LineEnd(text, offset);
    assert text[offset..][..e - offset] == text[offset..e] && text[offset..][e - offset..] == text[e..];
  }

  lemma BrokenTogether(path: string, text: string, offset: nat, line: nat, format: Format)
    requires offset < |text|
    ensures var current, lines := ReadLine(text, offset, format.maxRecordBytes + 1), Lines(text[offset..]);
      && lines != []
      && LineItems(path, current, line, offset, format) == LineItems(path, lines[0], line, offset, format)
      && (!Ends(LineItems(path, current, line, offset, format)) ==> Bytes(current) <= format.maxRecordBytes)
  {
    hide Lines, ReadLine, Bytes, Text.Strip;
    BoundedRead(text, offset, format);
  }

  /** A bounded read is over the byte limit exactly when the complete line is; otherwise it is the
      complete line. */
  lemma BoundedRead(text: string, offset: nat, format: Format)
    requires offset < |text|
    ensures var current, lines := ReadLine(text, offset, format.maxRecordBytes + 1), Lines(text[offset..]);
      && lines != [] && current != ""
      && (Bytes(current) > format.maxRecordBytes <==> Bytes(lines[0]) > format.maxRecordBytes)
      && (Bytes(current) <= format.maxRecordBytes ==>
            current == lines[0] && offset + |current| <= |text| && lines[1..] == Lines(text[offset + |current|..]))
  {
    LineEndShift(text, offset, offset);
    var e := LineEnd(text, offset);
    assert text[offset..][..e - offset] == text[offset..e];
    assert text[offset..][e - offset..] == text[e..];
  }

  /** What the members from a position on still yield. */
  function TarLeft(path: string, members: seq<Member>, i: nat, names: set<string>, format: Format): seq<Item>
    requires i <= |members|
  {
    TarItems(path, members[i..], i, names, format)
  }

  lemma TarEnds(path: string, members: seq<Member>, names: set<string>, format: Format)
    ensures TarLeft(path, members, 0, {}, format) == TarItems(path, members, 0, {}, format)
    ensures forall any :: TarLeft(path, members, |members|, any, format) == []
  {
    assert members[0..] == members;
  }

  lemma TarStep(path: string, members: seq<Member>, i: nat, names: set<string>, format: Format)
    requires i < |members|
    ensures var item := MemberItem(path, members[i], i + 1, names, format);
      TarLeft(path, members, i, names, format)
      == if item.Broken? then [Broken] else [item] + TarLeft(path, members, i + 1, names + {members[i].name}, format)
  {
    hide MemberItem;
    assert members[i..][0] == members[i] && members[i..][1..] == members[i + 1..];
  }

  method ScanTar(path: string, members: seq<Member>, format: Format) returns (items: seq<Item>)
    ensures items == TarItems(path, members, 0, {}, format)
  {
    hide MemberItem, TarLeft, TarItems;
    items := [];
    var names := {};
    TarEnds(path, members, names, format);
    for i := 0 to |members|
      invariant items + TarLeft(path, members, i, names, format) == TarLeft(path, members, 0, {}, format)
    {
      TarStep(path, members, i, names, format);
      var item := MemberItem(path, members[i], i + 1, names, format);
      items := items + [item];
      if item.Broken? {
        return;
      }
      names := names + {members[i].name};
    }
  }

  // ---- reading one record back ----

  /** The record stored at a place, or None for any error. */
  function ReadRecord(files: map<string, File>, place: Place, format: Format): Option<Record> {
    if place.path !in files then None
    else match files[place.path]
      case TextFile(text) =>
        if place.member.Some? || place.offset > |text| then None
        else Parse(format, Text.Strip(text[place.offset..LineEnd(text, place.offset)]))
      case TarFile(members) =>
        if place.member.None? then None
        else match TarRecord(members, place, format)
          case None => None
          case Some(text) => Parse(format, text)
  }

  /** The member at the indexed position, if it still is the indexed one. */
  function TarRecord(members: seq<Member>, place: Place, format: Format): Option<string> {
    if 0 < place.line <= |members| && place.line <= format.maxTarMembers
       && MemberOk(members[place.line - 1], format) && place.member == Some(members[place.line - 1].name)
    then Some(Text.Strip(members[place.line - 1].text.value))
    else None
  }

  /** `_read_indexed_tar_record`: walk to the indexed position and check what is there. */
  method ReadTarRecord(members: seq<Member>, place: Place, format: Format) returns (text: Option<string>)
    ensures text == TarRecord(members, place, format)
  {
    hide Text.Strip;
    for i := 0 to |members|
      invariant place.line == 0 || place.line > i
    {
      var m := members[i];
      if i + 1 > format.maxTarMembers {
        break;
      }
      if i + 1 == place.line {
        if !m.isFile || Some(m.name) != place.member || m.size > format.maxRecordBytes {
          break;
        }
        if !NameOk(format, m.name) || m.text.None? {
          break;
        }
        return Some(Text.Strip(m.text.value));
      }
    }
    return None;
  }

  /** Rows come in file order and read back, through offset or position, as the scanned record. */
  ghost predicate Faithful(files: map<string, File>, path: string, items: seq<Item>, after: nat, format: Format) {
    && (forall i :: 0 <= i < |items| && items[i].Row? ==>
          && items[i].place.path == path && items[i].place.line > after
          && ReadRecord(files, items[i].place, format) == Some(items[i].record))
    && (forall i, j :: 0 <= i < j < |items| && items[j].Row? ==>
        items[i].Row? && items[i].place.line < items[j].place.line)
  }

  lemma FaithfulPrepend(files: map<string, File>, path: string, first: Item, rest: seq<Item>, after: nat,
                        format: Format)
    requires first.Row? && first.place.path == path && first.place.line == after + 1
    requires ReadRecord(files, first.place, format) == Some(first.record)
    requires Faithful(files, path, rest, after + 1, format)
    ensures Faithful(files, path, [first] + rest, after, format)
  {
    hide ReadRecord;
  }

  lemma LineReadsBack(files: map<string, File>, path: string, text: string, line: nat, offset: nat, format: Format)
    requires path in files && files[path] == TextFile(text) && offset < |text|
    ensures var current := text[offset..LineEnd(text, offset)];
      var items := LineItems(path, current, line, offset, format);
      && |items| <= 1
      && (items != [] && items[0].Row? ==>
            items[0].place == Place(path, line, offset, None)
              && ReadRecord(files, items[0].place, format) == Some(items[0].record))
  {
    hide Text.Strip, Bytes, LineEnd, Parse;
  }

  lemma {:induction false} TextFaithful(files: map<string, File>, path: string, text: string, line: nat, offset: nat,
                                        format: Format)
    requires path in files && files[path] == TextFile(text) && offset <= |text|
    ensures Faithful(files, path, Left(path, text, line, offset, format), line, format)
    decreases |text| - offset
  {
    hide Lines, LineItems, ReadRecord, Faithful, LineEnd, Left, ReadLine;
    if offset < |text| {
      LineReadsBack(files, path, text, line + 1, offset, format);
      LinesStep(text, offset);
      LeftStep(path, text, line, offset, format);
      var current := Lines(text[offset..])[0];
      TextFaithful(files, path, text, line + 1, offset + |current|, format);
      FaithfulAppend(files, path, LineItems(path, current, line + 1, offset, format),
                     Left(path, text, line + 1, offset + |current|, format), line, format);
    } else {
      EndOfText(path, text, line, format);
      NothingFaithful(files, path, line, format);
    }
  }

  lemma NothingFaithful(files: map<string, File>, path: string, after: nat, format: Format)
    ensures Faithful(files, path, [], after, format) && Faithful(files, path, [Broken], after, format)
  {}

  /** What one line yields, put before the faithful items of the later lines. */
  lemma FaithfulAppend(files: map<string, File>, path: string, found: seq<Item>, rest: seq<Item>, after: nat,
                       format: Format)
    requires |found| <= 1 && Faithful(files, path, rest, after + 1, format)
    requires found != [] && found[0].Row? ==>
      found[0].place.path == path && found[0].place.line == after + 1
      && ReadRecord(files, found[0].place, format) == Some(found[0].record)
    ensures Faithful(files, path, if Ends(found) then found else found + rest, after, format)
  {
    hide ReadRecord, Faithful;
    if found == [] {
      assert found + rest == rest;
      FaithfulEarlier(files, path, rest, after, format);
    } else {
      assert found == [found[0]];
      if found[0].Row? {
        FaithfulPrepend(files, path, found[0], rest, after, format);
      } else {
        NothingFaithful(files, path, after, format);
      }
    }
  }

  lemma FaithfulEarlier(files: map<string, File>, path: string, items: seq<Item>, after: nat, format: Format)
    requires Faithful(files, path, items, after + 1, format)
    ensures Faithful(files, path, items, after, format)
  {
    hide ReadRecord;
  }

  lemma MemberReadsBack(files: map<string, File>, path: string, members: seq<Member>, i: nat, names: set<string>,
                        format: Format)
    requires path in files && files[path] == TarFile(members) && i < |members|
    ensures var item := MemberItem(path, members[i], i + 1, names, format);
      item.Row? ==> item.place.path == path && item.place.line == i + 1
                    && ReadRecord(files, item.place, format) == Some(item.record)
  {
    hide Text.Strip, Parse, NameOk;
  }

  lemma {:induction false} TarFaithful(files: map<string, File>, path: string, members: seq<Member>, i: nat,
                                       names: set<string>, format: Format)
    requires path in files && files[path] == TarFile(members) && i <= |members|
    ensures Faithful(files, path, TarItems(path, members[i..], i, names, format), i, format)
    decreases |members| - i
  {
    NothingFaithful(files, path, i, format);
    if i < |members| {
      hide ReadRecord, MemberItem, Faithful;
      assert members[i..][0] == members[i] && members[i..][1..] == members[i + 1..];
      MemberReadsBack(files, path, members, i, names, format);
      var item := MemberItem(path, members[i], i + 1, names, format);
      if item.Row? {
        TarFaithful(files, path, members, i + 1, names + {members[i].name}, format);
        FaithfulPrepend(files, path, item, TarItems(path, members[i + 1..], i + 1, names + {members[i].name}, format),
                        i, format);
      }
    }
  }

  /** Whatever file is scanned, reading a row's place gives the scanned record again. */
  lemma ScanReadsBack(files: map<string, File>, path: string, format: Format)
    ensures Faithful(files, path, FileItems(path, files, format), 0, format)
  {
    if path in files {
      match files[path] {
        case TextFile(text) =>
          LeftAtStart(path, text, format);
          TextFaithful(files, path, text, 0, 0, format);
        case TarFile(members) =>
          assert members[0..] == members;
          TarFaithful(files, path, members, 0, {}, format);
      }
    }
  }

  // ---- what is scanned, line by line and member by member ----

  /** A line that does not end the scan: short enough, and blank or a record. */
  predicate GoodLine(line: string, format: Format) {
    Bytes(line) <= format.maxRecordBytes && (Text.Strip(line) == "" || Parse(format, Text.Strip(line)).Some?)
  }

  /** The row of the k-th line, when every line so far is good: its number, the length of all earlier
      lines, and its record. */
  ghost predicate RowOfLine(path: string, lines: seq<string>, k: nat, line: nat, offset: nat, format: Format, x: Item)
  {
    && k < |lines| && (forall j :: 0 <= j <= k ==> GoodLine(lines[j], format))
    && x.Row? && x.place == Place(path, line + k + 1, offset + Length(lines[..k]), None)
    && Text.Strip(lines[k]) != "" && Parse(format, Text.Strip(lines[k])) == Some(x.record)
  }

  lemma {:induction false} TextRows(path: string, lines: seq<string>, line: nat, offset: nat, format: Format, x: Item)
    ensures x.Row? && x in TextItems(path, lines, line, offset, format)
      <==> exists k: nat :: RowOfLine(path, lines, k, line, offset, format, x)
  {
    hide Text.Strip, Bytes, Parse, RowOfLine;
    if lines == [] {
      NoLines(path, line, offset, format, x);
    } else {
      var found := LineItems(path, lines[0], line + 1, offset, format);
      var rest := lines[1..];
      FirstLine(path, lines, line, offset, format, x);
      RowsLater(path, lines, line, offset, format, x, rest, line + 1, offset + |lines[0]|);
      hide LineItems, GoodLine;
      if !Ends(found) {
        TextRows(path, rest, line + 1, offset + |lines[0]|, format, x);
      }
    }
  }

  lemma NoLines(path: string, line: nat, offset: nat, format: Format, x: Item)
    ensures !exists k: nat :: RowOfLine(path, [], k, line, offset, format, x)
  {}

  lemma FirstLine(path: string, lines: seq<string>, line: nat, offset: nat, format: Format, x: Item)
    requires lines != []
    ensures var found := LineItems(path, lines[0], line + 1, offset, format);
      && (Ends(found) <==> !GoodLine(lines[0], format)) && (Ends(found) ==> found == [Broken])
      && (x.Row? && x in found <==> RowOfLine(path, lines, 0, line, offset, format, x))
  {
    hide Text.Strip, Bytes, Parse;
  }

  lemma RowShift(path: string, lines: seq<string>, k: nat, line: nat, offset: nat, format: Format, x: Item)
    requires lines != [] && k > 0
    ensures RowOfLine(path, lines, k, line, offset, format, x)
      <==> GoodLine(lines[0], format) && RowOfLine(path, lines[1..], k - 1, line + 1, offset + |lines[0]|, format, x)
  {
    hide Text.Strip, Bytes, Parse, GoodLine;
    var rest := lines[1..];
    if k < |lines| {
      assert lines[..k][1..] == rest[..k - 1];
      assert forall j :: 0 < j <= k ==> lines[j] == rest[j - 1];
      assert forall j :: 0 <= j <= k - 1 ==> rest[j] == lines[j + 1];
    }
  }

  lemma RowsLater(path: string, lines: seq<string>, line: nat, offset: nat, format: Format, x: Item,
                  rest: seq<string>, next: nat, later: nat)
    requires lines != [] && rest == lines[1..] && next == line + 1 && later == offset + |lines[0]|
    ensures (exists k: nat :: RowOfLine(path, lines, k, line, offset, format, x)) <==>
      || RowOfLine(path, lines, 0, line, offset, format, x)
      || (GoodLine(lines[0], format) && exists k: nat :: RowOfLine(path, rest, k, next, later, format, x))
  {
    hide RowOfLine, GoodLine;
    if k: nat :| RowOfLine(path, lines, k, line, offset, format, x) {
      if k > 0 { RowShift(path, lines, k, line, offset, format, x); }
    }
    if k: nat :| RowOfLine(path, rest, k, next, later, format, x) {
      RowShift(path, lines, k + 1, line, offset, format, x);
    }
  }

  /** A scan of lines ends in an error exactly when some line is not good; what comes before is rows. */
  lemma {:induction false} TextBreaks(path: string, lines: seq<string>, line: nat, offset: nat, format: Format)
    ensures var items := TextItems(path, lines, line, offset, format);
      && (Broken in items <==> exists k :: 0 <= k < |lines| && !GoodLine(lines[k], format))
      && forall i :: 0 <= i < |items| - 1 ==> items[i].Row?
  {
    hide Text.Strip, Bytes, Parse;
    if lines != [] {
      var rest := lines[1..];
      FirstLine(path, lines, line, offset, format, Broken);
      TextBreaks(path, rest, line + 1, offset + |lines[0]|, format);
      LineAlone(path, lines[0], line + 1, offset, format);
      hide LineItems, GoodLine;
      assert lines == [lines[0]] + rest;
      assert (exists k :: 0 <= k < |lines| && !GoodLine(lines[k], format)) <==>
        !GoodLine(lines[0], format) || exists k :: 0 <= k < |rest| && !GoodLine(rest[k], format);
    }
  }

  lemma LineAlone(path: string, current: string, line: nat, offset: nat, format: Format)
    ensures var found := LineItems(path, current, line, offset, format);
      |found| <= 1 && (found != [] && !Ends(found) ==> found[0].Row?)
  {}

  /** A member that does not end the scan: within the limit on members, a file of a legal name and size
      that no earlier member has, whose text can be had and is a record. */
  predicate GoodMember(members: seq<Member>, k: nat, format: Format)
    requires k < |members|
  {
    var m := members[k];
    && k < format.maxTarMembers && m.isFile && m.size <= format.maxRecordBytes && NameOk(format, m.name)
    && (forall j :: 0 <= j < k ==> members[j].name != m.name)
    && m.text.Some? && Parse(format, Text.Strip(m.text.value)).Some?
  }

  /** The row of the k-th member, when every member so far is good. */
  ghost predicate RowOfMember(path: string, members: seq<Member>, k: nat, format: Format, x: Item) {
    && k < |members| && (forall j :: 0 <= j < k ==> GoodMember(members, j, format)) && GoodMember(members, k, format)
    && x == Row(Place(path, k + 1, 0, Some(members[k].name)),
                Parse(format, Text.Strip(members[k].text.value)).value)
  }

  lemma {:induction false} TarRows(path: string, members: seq<Member>, i: nat, names: set<string>, format: Format,
                                   x: Item)
    requires i <= |members| && names == set j | 0 <= j < i :: members[j].name
    requires forall j :: 0 <= j < i ==> GoodMember(members, j, format)
    ensures x.Row? && x in TarItems(path, members[i..], i, names, format)
      <==> exists k: nat :: k >= i && RowOfMember(path, members, k, format, x)
    decreases |members| - i
  {
    if i < |members| {
      var m := members[i];
      assert members[i..][0] == m && members[i..][1..] == members[i + 1..];
      MemberGood(path, members, i, names, format);
      var item := MemberItem(path, m, i + 1, names, format);
      assert RowOfMember(path, members, i, format, x) <==> !item.Broken? && x == item;
      if !item.Broken? {
        TarRows(path, members, i + 1, names + {m.name}, format, x);
      }
      hide MemberItem, GoodMember, Parse, Text.Strip;
    }
  }

  /** A scan of members ends in an error exactly when some member is not good; before it come rows. */
  lemma {:induction false} TarBreaks(path: string, members: seq<Member>, i: nat, names: set<string>, format: Format)
    requires i <= |members| && names == set j | 0 <= j < i :: members[j].name
    ensures var items := TarItems(path, members[i..], i, names, format);
      && (Broken in items <==> exists k :: i <= k < |members| && !GoodMember(members, k, format))
      && forall j :: 0 <= j < |items| - 1 ==> items[j].Row?
    decreases |members| - i
  {
    if i < |members| {
      var m := members[i];
      assert members[i..][0] == m && members[i..][1..] == members[i + 1..];
      MemberGood(path, members, i, names, format);
      TarBreaks(path, members, i + 1, names + {m.name}, format);
      hide MemberItem, GoodMember, Parse, Text.Strip;
    }
  }

  lemma MemberGood(path: string, members: seq<Member>, i: nat, names: set<string>, format: Format)
    requires i < |members| && names == set j | 0 <= j < i :: members[j].name
    ensures var item := MemberItem(path, members[i], i + 1, names, format);
      && (item.Broken? <==> !GoodMember(members, i, format))
      && (item.Row? ==> item == Row(Place(path, i + 1, 0, Some(members[i].name)),
                                    Parse(format, Text.Strip(members[i].text.value)).value))
  {
    hide Text.Strip, Parse, NameOk;
  }

  /** What scanning a text file yields: the rows of its lines up to the first bad one, and an error
      exactly when there is a bad one. A file that is not there yields an error. */
  lemma ScanTextSays(files: map<string, File>, path: string, lines: seq<string>, format: Format, x: Item)
    ensures path !in files ==> FileItems(path, files, format) == [Broken]
    ensures path in files && files[path].TextFile? && lines == Lines(files[path].text) ==>
      var items := FileItems(path, files, format);
      && (x.Row? && x in items <==> exists k: nat :: RowOfLine(path, lines, k, 0, 0, format, x))
      && (Broken in items <==> exists k :: 0 <= k < |lines| && !GoodLine(lines[k], format))
  {
    hide Text.Strip, Bytes, Parse, RowOfLine, GoodLine, Lines;
    TextRows(path, lines, 0, 0, format, x);
    TextBreaks(path, lines, 0, 0, format);
  }

  /** The same of a tar file and its members. */
  lemma ScanTarSays(files: map<string, File>, path: string, members: seq<Member>, format: Format, x: Item)
    ensures path in files && files[path] == TarFile(members) ==>
      var items := FileItems(path, files, format);
      && (x.Row? && x in items <==> exists k: nat :: RowOfMember(path, members, k, format, x))
      && (Broken in items <==> exists k :: 0 <= k < |members| && !GoodMember(members, k, format))
  {
    hide Text.Strip, Parse, RowOfMember, GoodMember;
    assert members[0..] == members;
    TarRows(path, members, 0, {}, format, x);
    TarBreaks(path, members, 0, {}, format);
  }
}
