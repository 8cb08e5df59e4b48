/**
 * The answer-record parser of the question-answering helper: each retrieved
 * document's text is split into lines and walked with an index; six labelled
 * lines fill six fields, and the answer may continue over the following lines
 * until the next labelled line. One record is produced per document.
 */
module AnswerParser {
  import opened Text
  import opened Wrappers

  /** The six fields of an answer record, in the order the labels are tried. */
  datatype Field = Answer | Source | IssueDate | UpdateDate | SourcePath | UpdateFilesPath

  /** The label that introduces each field. */
  function LabelOf(f: Field): (tag: string)
    ensures |tag| >= 2 && tag[|tag| - 1] == ':' && !IsPySpace(tag[0])
  {
    match f
    case Answer => "Câu trả lời:"
    case Source => "Căn cứ:"
    case IssueDate => "Ngày ban hành:"
    case UpdateDate => "Ngày cập nhật:"
    case SourcePath => "Đường dẫn căn cứ:"
    case UpdateFilesPath => "Đường dẫn các file cập nhật:"
  }

  predicate StartsWith(s: string, prefix: string) {
    |prefix| <= |s| && s[..|prefix|] == prefix
  }

  /** An index at which the labels of two different fields disagree. */
  lemma LabelsDiffer(f: Field, g: Field) returns (k: nat)
    requires f != g
    ensures k < |LabelOf(f)| && k < |LabelOf(g)| && LabelOf(f)[k] != LabelOf(g)[k]
  {
    var a, b := LabelOf(f), LabelOf(g);
    k := if a[0] != b[0] then 0 else if a[1] != b[1] then 1 else if a[5] != b[5] then 5 else 11;
  }

  /** No label is a prefix of another, so at most one label starts any line. */
  lemma LabelsPrefixFree(line: string, f: Field, g: Field)
    requires StartsWith(line, LabelOf(f)) && StartsWith(line, LabelOf(g))
    ensures f == g
  {
    if f != g {
      var k := LabelsDiffer(f, g);
      assert false;
    }
  }

  /**
   * The label a (stripped) line begins with, if any, as the anchored
   * alternation of the six labels finds it: labels being prefix-free, the
   * alternative that matches is the only label that starts the line.
   */
  function MatchLabel(line: string): Option<Field> {
    if exists f :: StartsWith(line, LabelOf(f)) then
      var f :| StartsWith(line, LabelOf(f));
      forall g | StartsWith(line, LabelOf(g)) ensures g == f {
        LabelsPrefixFree(line, f, g);
      }
      Some(f)
    else None
  }

  /** One entry of the `results` list. */
  datatype AnswerRecord = AnswerRecord(
    answer: string,
    source: string,
    issueDate: string,
    updateDate: string,
    sourcePath: string,
    updateFilesPath: string)

  const EmptyRecord := AnswerRecord("", "", "", "", "", "")

  /** The response written back: the records wrapped under the key `results`. */
  datatype QaResponse = Results(results: seq<AnswerRecord>)

  function Get(rec: AnswerRecord, f: Field): string {
    match f
    case Answer => rec.answer
    case Source => rec.source
    case IssueDate => rec.issueDate
    case UpdateDate => rec.updateDate
    case SourcePath => rec.sourcePath
    case UpdateFilesPath => rec.updateFilesPath
  }

  /** The record with field `f` set to `v` and every other field kept. */
  function Set(rec: AnswerRecord, f: Field, v: string): (r: AnswerRecord)
    ensures Get(r, f) == v
    ensures forall g :: g != f ==> Get(r, g) == Get(rec, g)
  {
    match f
    case Answer => rec.(answer := v)
    case Source => rec.(source := v)
    case IssueDate => rec.(issueDate := v)
    case UpdateDate => rec.(updateDate := v)
    case SourcePath => rec.(sourcePath := v)
    case UpdateFilesPath => rec.(updateFilesPath := v)
  }

  /** What the label regular expression makes of one line of a document. */
  datatype LineKind =
    | Blank                                  // empty once stripped
    | Labelled(field: Field, value: string)  // starts with a label; the stripped text after it
    | Unlabelled(text: string)               // anything else, stripped

  /** Strip the line, then match the label at its start and strip what follows. */
  function Classify(raw: string): LineKind {
    var line := PyStrip(raw);
    if line == [] then Blank
    else match MatchLabel(line)
      case Some(f) => Labelled(f, PyStrip(line[|LabelOf(f)|..]))
      case None => Unlabelled(line)
  }

  /**
   * What the walk knows after some lines: the fields so far, and whether it
   * is inside the continuation of an answer (the inner loop).
   */
  datatype ScanState = ScanState(rec: AnswerRecord, inAnswer: bool)

  const Start := ScanState(EmptyRecord, false)

  /** The effect of one line on the walk. */
  function Step(st: ScanState, kind: LineKind): ScanState {
    match kind
    case Blank => st
    case Labelled(f, value) => ScanState(Set(st.rec, f, value), f == Answer)
    case Unlabelled(text) =>
      if st.inAnswer then st.(rec := st.rec.(answer := st.rec.answer + "\n" + text)) else st
  }

  /** The walk from state `st` over `lines`, first line first. */
  function Run(st: ScanState, lines: seq<string>): ScanState
    decreases |lines|
  {
    if lines == [] then st else Run(Step(st, Classify(lines[0])), lines[1..])
  }

  /** The record emitted for a sequence of lines: the answer is stripped once more. */
  function ParseLines(lines: seq<string>): AnswerRecord {
    var rec := Run(Start, lines).rec;
    rec.(answer := PyStrip(rec.answer))
  }

  /** The record emitted for one document's text. */
  function ParseDocument(pageContent: string): AnswerRecord {
    ParseLines(Split(pageContent, '\n'))
  }

  /** One more turn of the walk. */
  lemma RunUnfold(st: ScanState, lines: seq<string>, i: nat)
    requires i < |lines|
    ensures Run(st, lines[i..]) == Run(Step(st, Classify(lines[i])), lines[i + 1..])
  {
    assert lines[i..][1..] == lines[i + 1..];
  }

  /** A blank line leaves the walk where it was. */
  lemma RunBlank(st: ScanState, lines: seq<string>, i: nat)
    requires i < |lines| && PyStrip(lines[i]) == []
    ensures Run(st, lines[i..]) == Run(st, lines[i + 1..])
  {
    RunUnfold(st, lines, i);
  }

  /**
   * A labelled line sets its field to the stripped text after the label and
   * opens a continuation exactly for the answer, whether or not one was open.
   */
  lemma RunLabelled(rec: AnswerRecord, inAnswer: bool, lines: seq<string>, i: nat, f: Field)
    requires i < |lines| && PyStrip(lines[i]) != [] && MatchLabel(PyStrip(lines[i])) == Some(f)
    ensures Run(ScanState(rec, inAnswer), lines[i..])
         == Run(ScanState(Set(rec, f, PyStrip(PyStrip(lines[i])[|LabelOf(f)|..])), f == Answer), lines[i + 1..])
  {
    RunUnfold(ScanState(rec, inAnswer), lines, i);
  }

  /** Outside a continuation, an unlabelled line is passed over. */
  lemma RunStray(rec: AnswerRecord, lines: seq<string>, i: nat)
    requires i < |lines| && PyStrip(lines[i]) != [] && MatchLabel(PyStrip(lines[i])).None?
    ensures Run(ScanState(rec, false), lines[i..]) == Run(ScanState(rec, false), lines[i + 1..])
  {
    RunUnfold(ScanState(rec, false), lines, i);
  }

  /** Inside a continuation, an unlabelled line is appended to the answer after a newline. */
  lemma RunContinues(rec: AnswerRecord, lines: seq<string>, i: nat)
    requires i < |lines| && PyStrip(lines[i]) != [] && MatchLabel(PyStrip(lines[i])).None?
    ensures Run(ScanState(rec, true), lines[i..])
         == Run(ScanState(rec.(answer := rec.answer + "\n" + PyStrip(lines[i])), true), lines[i + 1..])
  {
    RunUnfold(ScanState(rec, true), lines, i);
  }

  /** A line that carries no label once stripped: blank, or plain text. */
  predicate Continues(line: string) {
    PyStrip(line) == [] || MatchLabel(PyStrip(line)).None?
  }

  /**
   * The inner loop that follows an answer label: blank lines are skipped,
   * every other unlabelled line is appended to the answer after a newline,
   * and the loop stops in front of the next labelled line (which it leaves
   * for the caller) or at the end of the lines.
   */
  method ContinueAnswer(lines: seq<string>, start: nat, rec0: AnswerRecord) returns (i: nat, rec: AnswerRecord)
    requires start <= |lines|
    ensures start <= i <= |lines|
    ensures i == |lines| || !Continues(lines[i])
    ensures forall j :: start <= j < i ==> Continues(lines[j])
    ensures Run(ScanState(rec, false), lines[i..]).rec == Run(ScanState(rec0, true), lines[start..]).rec
  {
    i, rec := start, rec0;
    while i < |lines|
      invariant start <= i <= |lines|
      invariant forall j :: start <= j < i ==> Continues(lines[j])
      invariant Run(ScanState(rec, true), lines[i..]) == Run(ScanState(rec0, true), lines[start..])
    {
      var nextLine := PyStrip(lines[i]);
      if nextLine == [] {
        RunBlank(ScanState(rec, true), lines, i);
        i := i + 1;
        continue;
      }
      var m := MatchLabel(nextLine);
      if m.Some? {
        RunLabelled(rec, true, lines, i, m.value);
        RunLabelled(rec, false, lines, i, m.value);
        break;
      } else {
        RunContinues(rec, lines, i);
        rec := rec.(answer := rec.answer + "\n" + nextLine);
        i := i + 1;
      }
    }
  }

  /**
   * The per-document loop over the lines with an index. The six local
   * strings of the source are the six fields of `rec`; after an answer label
   * the inner loop `ContinueAnswer` runs, and the labelled line that stops it
   * is handled here on the next turn.
   */
  method FormatDocument(pageContent: string) returns (r: AnswerRecord)
    ensures r == ParseDocument(pageContent)
  {
    var lines := Split(pageContent, '\n');
    var rec := EmptyRecord;
    var i := 0;
    assert lines[0..] == lines;
    while i < |lines|
      invariant 0 <= i <= |lines|
      invariant Run(ScanState(rec, false), lines[i..]).rec == Run(Start, lines).rec
    {
      var line := PyStrip(lines[i]);
      if line == [] {
        RunBlank(ScanState(rec, false), lines, i);
        i := i + 1;
        continue;
      }
      var m := MatchLabel(line);
      if m.Some? {
        var currentKey := m.value;
        var value := PyStrip(line[|LabelOf(currentKey)|..]);
        RunLabelled(rec, false, lines, i, currentKey);
        rec := Set(rec, currentKey, value);
        i := i + 1;
        if currentKey == Answer {
          i, rec := ContinueAnswer(lines, i, rec);
        }
      } else {
        RunStray(rec, lines, i);
        i := i + 1;
      }
    }
    r := rec.(answer := PyStrip(rec.answer));
  }

  /** The loop over the retrieved documents: one record per document, in order. */
  method FormatResults(documents: seq<string>) returns (response: QaResponse)
    ensures |response.results| == |documents|
    ensures forall k :: 0 <= k < |documents| ==> response.results[k] == ParseDocument(documents[k])
  {
    var formattedResults: seq<AnswerRecord> := [];
    for k := 0 to |documents|
      invariant |formattedResults| == k
      invariant forall j :: 0 <= j < k ==> formattedResults[j] == ParseDocument(documents[j])
    {
      var rec := FormatDocument(documents[k]);
      formattedResults := formattedResults + [rec];
    }
    response := Results(formattedResults);
  }
}
