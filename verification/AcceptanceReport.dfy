/** The durable acceptance report (release/acceptance_result.py): built from a decision and the
    evidence found on disk, persisted, and read back only when it is a passed report. */
module AcceptanceReport {
  import opened Text
  import opened Options
  import opened Sorting
  import opened ReleaseStore
  import opened EvidenceBundle

  datatype Status = Failed | PipelineAccepted | DatasetAccepted | ModelCandidate | ModelAccepted

  const REPORT_SCHEMA := "1.0"

  function StatusName(status: Status): string {
    match status
    case Failed => "FAILED"
    case PipelineAccepted => "PIPELINE_ACCEPTED"
    case DatasetAccepted => "DATASET_ACCEPTED"
    case ModelCandidate => "MODEL_CANDIDATE"
    case ModelAccepted => "MODEL_ACCEPTED"
  }

  function ParseStatus(text: string): (r: Option<Status>)
    ensures r.Some? ==> StatusName(r.value) == text
  {
    if text == "FAILED" then Some(Failed)
    else if text == "PIPELINE_ACCEPTED" then Some(PipelineAccepted)
    else if text == "DATASET_ACCEPTED" then Some(DatasetAccepted)
    else if text == "MODEL_CANDIDATE" then Some(ModelCandidate)
    else if text == "MODEL_ACCEPTED" then Some(ModelAccepted)
    else None
  }

  lemma StatusRoundTrip(status: Status)
    ensures ParseStatus(StatusName(status)) == Some(status)
  {}

  function ExpectedFor(stage: Mode): Status {
    match stage
    case PipelineSmoke => PipelineAccepted
    case LearningCandidate => DatasetAccepted
    case Candidate => ModelCandidate
    case ProductionModel => ModelAccepted
  }

  datatype Report = Report(
    stage: Mode, status: Status, reasons: seq<string>, expected: Status,
    violations: seq<string>, evidence: seq<Reference>)

  datatype Decision = Decision(status: Status, reasons: seq<string>)

  /** One item of the mapping from evidence names to absolute paths. */
  datatype Item = Item(name: string, path: string)

  predicate Passed(r: Report) {
    r.status == r.expected && r.violations == []
  }

  // ---- building ----

  /** `dict.fromkeys`: first occurrences, in order. */
  function Unique(s: seq<string>): (r: seq<string>)
    ensures Distinct(r) && Elements(r) == Elements(s)
    ensures r == [] <==> s == []
  {
    if s == [] then []
    else
      var before := Unique(s[..|s| - 1]);
      var last := s[|s| - 1];
      assert s == s[..|s| - 1] + [last];
      assert Elements(s) == Elements(s[..|s| - 1]) + {last};
      if last in before then
        assert last in Elements(before);
        before
      else
        assert Elements(before + [last]) == Elements(before) + {last};
        before + [last]
  }

  function Present(p: Platform, directory: string, tree: Tree, items: seq<Item>): seq<Reference> {
    if items == [] then []
    else
      var item := items[|items| - 1];
      var before := Present(p, directory, tree, items[..|items| - 1]);
      var file := FileAt(p, directory, tree, item.path);
      if file.None? then before else before + [Reference(item.name, item.path, p.sha(tree[file.value]))]
  }

  function Absent(p: Platform, directory: string, tree: Tree, items: seq<Item>): seq<string> {
    if items == [] then []
    else
      var item := items[|items| - 1];
      var before := Absent(p, directory, tree, items[..|items| - 1]);
      if FileAt(p, directory, tree, item.path).None? then before + ["missing_evidence:" + item.name] else before
  }

  predicate ItemByName(a: Item, b: Item) { StringLe(a.name, b.name) }

  /** The report of a decision over the evidence that is on disk. `None` stands for the errors a
      constructor or the stage check raises. */
  function Built(p: Platform, directory: string, tree: Tree, stage: Mode, decision: Decision, expected: Status,
                 items: seq<Item>): Option<Report>
  {
    var sorted := Sort(items, ItemByName);
    var violations := decision.reasons + Absent(p, directory, tree, sorted);
    var evidence := Present(p, directory, tree, sorted);
    if !AllValid(evidence) || expected != ExpectedFor(stage) then None
    else
      Some(Report(stage, if violations == [] then decision.status else Failed,
                  Unique(violations), expected, Unique(violations), evidence))
  }

  method Build(p: Platform, directory: string, tree: Tree, stage: Mode, decision: Decision, expected: Status,
               items: seq<Item>) returns (report: Option<Report>)
    ensures report == Built(p, directory, tree, stage, decision, expected, items)
  {
    hide FileAt, ValidReference;
    var sorted := Sort(items, ItemByName);
    var references: seq<Reference> := [];
    var violations := decision.reasons;
    for i := 0 to |sorted|
      invariant references == Present(p, directory, tree, sorted[..i])
      invariant violations == decision.reasons + Absent(p, directory, tree, sorted[..i])
    {
      assert sorted[..i + 1][..i] == sorted[..i];
      var file := FileAt(p, directory, tree, sorted[i].path);
      if file.None? {
        violations := violations + ["missing_evidence:" + sorted[i].name];
        continue;
      }
      references := references + [Reference(sorted[i].name, sorted[i].path, p.sha(tree[file.value]))];
    }
    assert sorted[..|sorted|] == sorted;
    if !AllValid(references) || expected != ExpectedFor(stage) {
      return None;
    }
    var status := if violations == [] then decision.status else Failed;
    report := Some(Report(stage, status, Unique(violations), expected, Unique(violations), references));
  }

  // ---- persistence ----

  function ToPayload(r: Report): Document {
    ReportDocument(REPORT_SCHEMA, ModeName(r.stage), StatusName(r.status), r.reasons, StatusName(r.expected),
                   r.violations, r.evidence, Passed(r))
  }

  predicate TextList(s: seq<string>) {
    && (forall x :: x in s ==> !Blank(x))
    && |s| == |Elements(s)|
  }

  function Load(bytes: Bytes): Option<Report> {
    if !bytes.File? || !bytes.document.ReportDocument? then None else LoadDocument(bytes.document)
  }

  function LoadDocument(d: Document): Option<Report>
    requires d.ReportDocument?
  {
    var stage := ParseMode(d.releaseStage);
    var expected := ParseStatus(d.expectedStatus);
    var status := ParseStatus(d.status);
    if d.schemaVersion != REPORT_SCHEMA || stage.None? || expected.None? || status.None? then None
    else if expected.value != ExpectedFor(stage.value) then None
    else if !TextList(d.reasons) || !TextList(d.violations) || !AllValid(d.evidence) then None
    else
      var r := Report(stage.value, status.value, d.reasons, expected.value, d.violations, d.evidence);
      if d.passed && ToPayload(r) == d then Some(r) else None
  }

  /** What the constructor-side checks of a report amount to. */
  ghost predicate WellFormed(r: Report) {
    && r.expected == ExpectedFor(r.stage)
    && TextList(r.reasons) && TextList(r.violations) && AllValid(r.evidence)
  }

  /** A written report is read back unchanged, in any text layout, exactly when it is a
      well-formed passed report. */
  lemma ReportRoundTrip(r: Report, layout: nat)
    ensures Load(File(layout, ToPayload(r))) == if WellFormed(r) && Passed(r) then Some(r) else None
  {
    ModeRoundTrip(r.stage);
    StatusRoundTrip(r.status);
    StatusRoundTrip(r.expected);
    hide ParseMode, ParseStatus, ModeName, StatusName, ValidReference, Blank;
  }

  /** A built report passes exactly when the decision had no reason, nothing was missing, and the
      decided status is the stage's; then, and only then, its file loads back as itself. */
  lemma BuiltRoundTrip(p: Platform, directory: string, tree: Tree, stage: Mode, decision: Decision, expected: Status,
                       items: seq<Item>, layout: nat)
    requires Built(p, directory, tree, stage, decision, expected, items).Some?
    ensures var r := Built(p, directory, tree, stage, decision, expected, items).value;
      && (Passed(r) <==> decision.reasons == [] && decision.status == expected
                         && Absent(p, directory, tree, Sort(items, ItemByName)) == [])
      && Load(File(layout, ToPayload(r))) == if Passed(r) then Some(r) else None
  {
    var r := Built(p, directory, tree, stage, decision, expected, items).value;
    ReportRoundTrip(r, layout);
    hide FileAt, ValidReference, Load, ToPayload, Blank;
    if Passed(r) {
      EmptyTextList();
    }
    assert ExpectedFor(stage) != Failed;
  }

  /** A built report that passes is well formed: its reasons are its violations, and there are none. */
  lemma BuiltPassedIsWellFormed(p: Platform, directory: string, tree: Tree, stage: Mode, decision: Decision,
                                expected: Status, items: seq<Item>)
    requires Built(p, directory, tree, stage, decision, expected, items).Some?
    requires Passed(Built(p, directory, tree, stage, decision, expected, items).value)
    ensures WellFormed(Built(p, directory, tree, stage, decision, expected, items).value)
  {
    hide FileAt, ValidReference, Blank;
    EmptyTextList();
  }

  lemma EmptyTextList()
    ensures TextList([])
  {}

  // ---- what a report says, in the terms of its documents ----

  /** The items found become references with the digest found, the others are reported missing. */
  lemma {:induction false} FoundAndMissing(p: Platform, directory: string, tree: Tree, items: seq<Item>, r: Reference,
                                           text: string)
    ensures r in Present(p, directory, tree, items) <==>
      exists item :: item in items && FileAt(p, directory, tree, item.path).Some?
        && r == Reference(item.name, item.path, p.sha(tree[FileAt(p, directory, tree, item.path).value]))
    ensures text in Absent(p, directory, tree, items) <==>
      exists item :: item in items && FileAt(p, directory, tree, item.path).None?
        && text == "missing_evidence:" + item.name
  {
    hide FileAt;
    if items != [] {
      var n := |items| - 1;
      FoundAndMissing(p, directory, tree, items[..n], r, text);
      assert items == items[..n] + [items[n]];
      assert forall item :: item in items <==> item in items[..n] || item == items[n];
    }
  }

  /** A report can be built exactly for the stage's own status and well-formed evidence. It then names
      the reasons and what is missing, each once, and what is there; it keeps the decided status
      exactly when it names nothing. */
  lemma BuiltSays(p: Platform, directory: string, tree: Tree, stage: Mode, decision: Decision, expected: Status,
                  items: seq<Item>, r: Reference, text: string)
    ensures Built(p, directory, tree, stage, decision, expected, items).Some? ==>
      var report := Built(p, directory, tree, stage, decision, expected, items).value;
      && report.stage == stage && report.expected == expected == ExpectedFor(stage)
      && report.reasons == report.violations && Distinct(report.violations)
      && (text in report.violations <==>
            text in decision.reasons
            || exists item :: item in items && FileAt(p, directory, tree, item.path).None?
                 && text == "missing_evidence:" + item.name)
      && (r in report.evidence <==>
            exists item :: item in items && FileAt(p, directory, tree, item.path).Some?
              && r == Reference(item.name, item.path, p.sha(tree[FileAt(p, directory, tree, item.path).value])))
      && report.status == if report.violations == [] then decision.status else Failed
  {
    hide FileAt, ValidReference, Present, Absent, ItemByName;
    var sorted := Sort(items, ItemByName);
    SameMembers(sorted, items);
    FoundAndMissing(p, directory, tree, sorted, r, text);
    var violations := decision.reasons + Absent(p, directory, tree, sorted);
    assert Elements(Unique(violations)) == Elements(violations);
    assert text in Elements(violations) <==> text in violations;
    assert text in Elements(Unique(violations)) <==> text in Unique(violations);
  }

  /** The references come in the order of their names. */
  lemma {:induction false} PresentInOrder(p: Platform, directory: string, tree: Tree, items: seq<Item>)
    requires forall i, j :: 0 <= i < j < |items| ==> Alphabetical(items[i].name, items[j].name)
    ensures var evidence := Present(p, directory, tree, items);
      && (forall i, j :: 0 <= i < j < |evidence| ==> Alphabetical(evidence[i].name, evidence[j].name))
      && forall r :: r in evidence ==> exists item :: item in items && item.name == r.name
  {
    hide FileAt, Alphabetical;
    if items != [] {
      var n := |items| - 1;
      PresentInOrder(p, directory, tree, items[..n]);
      var before := Present(p, directory, tree, items[..n]);
      assert items == items[..n] + [items[n]];
      forall r | r in before ensures Alphabetical(r.name, items[n].name) {
        var item :| item in items[..n] && item.name == r.name;
        var i :| 0 <= i < n && items[..n][i] == item;
        assert items[i] == item;
      }
    }
  }

  lemma EvidenceInOrder(p: Platform, directory: string, tree: Tree, stage: Mode, decision: Decision, expected: Status,
                        items: seq<Item>)
    requires Built(p, directory, tree, stage, decision, expected, items).Some?
    ensures var evidence := Built(p, directory, tree, stage, decision, expected, items).value.evidence;
      forall i, j :: 0 <= i < j < |evidence| ==> Alphabetical(evidence[i].name, evidence[j].name)
  {
    hide FileAt, ValidReference, Present, Absent, Alphabetical, StringLe;
    var sorted := Sort(items, ItemByName);
    ItemsRank();
    SortOrdered(items, ItemByName);
    forall i, j | 0 <= i < j < |sorted| ensures Alphabetical(sorted[i].name, sorted[j].name) {
      StringLeIff(sorted[i].name, sorted[j].name);
    }
    PresentInOrder(p, directory, tree, sorted);
  }

  lemma ItemsRank()
    ensures Ranking(ItemByName)
  {
    hide StringLe;
    forall x, y ensures ItemByName(x, y) || ItemByName(y, x) { StringLeTotal(x.name, y.name); }
    forall x, y, z | ItemByName(x, y) && ItemByName(y, z) ensures ItemByName(x, z) {
      StringLeTransitive(x.name, y.name, z.name);
    }
  }

  /** Which documents load: the stage with its own status, passed, without violations, with reasons that
      are distinct and not blank, and well-formed evidence. */
  lemma LoadIff(bytes: Bytes)
    ensures Load(bytes).Some? <==>
      && bytes.File? && bytes.document.ReportDocument?
      && var d := bytes.document;
         && d.schemaVersion == "1.0" && d.passed && d.status == d.expectedStatus && d.violations == []
         && (|| (d.releaseStage == "pipeline_smoke" && d.status == "PIPELINE_ACCEPTED")
             || (d.releaseStage == "learning_candidate" && d.status == "DATASET_ACCEPTED")
             || (d.releaseStage == "candidate" && d.status == "MODEL_CANDIDATE")
             || (d.releaseStage == "production_model" && d.status == "MODEL_ACCEPTED"))
         && (forall x :: x in d.reasons ==> !Blank(x)) && |d.reasons| == |Elements(d.reasons)|
         && forall r :: r in d.evidence ==> ValidReference(r)
    ensures Load(bytes).Some? ==>
      var r, d := Load(bytes).value, bytes.document;
      ModeName(r.stage) == d.releaseStage && r.reasons == d.reasons && r.evidence == d.evidence
  {
    hide ValidReference, Blank;
    EmptyTextList();
  }
}
