/**
 * The layout in which the vector-store builder (and the fine-tuning script)
 * writes one row of the question-answer table as a document's text, and
 * the round trip it makes with the answer-record parser: parsing the text
 * gives back every field of the row, stripped, provided no field holds a
 * line break.
 */
module TrainingLayout {
  import opened Text
  import opened AnswerParser
  import opened AnswerParserProperties

  /** One row of the question-answer table. */
  datatype TableRow = TableRow(
    question: string,
    answer: string,
    source: string,
    issueDate: string,
    updateDate: string,
    sourcePath: string,
    updateFilesPath: string)

  /** The question label, which the parser does not know. */
  const QuestionLabel: string := "Câu hỏi:"

  /** A line of the layout: a label, a space, the value and the padding that follows it. */
  function LayoutLine(tag: string, v: string, pad: string): string {
    tag + " " + v + pad
  }

  /** The seven lines of a row's document: every value is followed by a space, but the last. */
  function LayoutLines(row: TableRow): seq<string> {
    [ LayoutLine(QuestionLabel, row.question, " "),
      LayoutLine(LabelOf(Answer), row.answer, " "),
      LayoutLine(LabelOf(Source), row.source, " "),
      LayoutLine(LabelOf(IssueDate), row.issueDate, " "),
      LayoutLine(LabelOf(UpdateDate), row.updateDate, " "),
      LayoutLine(LabelOf(SourcePath), row.sourcePath, " "),
      LayoutLine(LabelOf(UpdateFilesPath), row.updateFilesPath, "") ]
  }

  /** The document text: the seven lines joined by line breaks. */
  function Layout(row: TableRow): string {
    Join(LayoutLines(row), '\n')
  }

  predicate NoLineBreak(v: string) {
    '\n' !in v
  }

  /** The record the parser is meant to recover from a row: its six fields, stripped. */
  function Expected(row: TableRow): AnswerRecord {
    AnswerRecord(PyStrip(row.answer), PyStrip(row.source), PyStrip(row.issueDate),
      PyStrip(row.updateDate), PyStrip(row.sourcePath), PyStrip(row.updateFilesPath))
  }

  /** A line of the layout, stripped, is its label followed by the right-stripped rest. */
  lemma StripLayoutLine(tag: string, v: string, pad: string)
    requires |tag| >= 2 && !IsPySpace(tag[0]) && tag[|tag| - 1] == ':'
    ensures PyStrip(LayoutLine(tag, v, pad)) == tag + RStrip(IsPySpace, " " + v + pad)
  {
    assert LayoutLine(tag, v, pad) == tag + (" " + v + pad);
    StripAfterWord(IsPySpace, tag, " " + v + pad);
  }

  /** A labelled line of the layout is read as its field with the stripped value. */
  lemma ClassifyLayoutLine(f: Field, v: string, pad: string)
    requires pad == "" || pad == " "
    ensures Classify(LayoutLine(LabelOf(f), v, pad)) == Labelled(f, PyStrip(v))
  {
    var tag, line := LabelOf(f), LayoutLine(LabelOf(f), v, pad);
    var rest := RStrip(IsPySpace, " " + v + pad);
    StripLayoutLine(tag, v, pad);
    assert PyStrip(line)[..|tag|] == tag;
    LabelledLineSetsField(Start, line, f);
    assert PyStrip(line)[|tag|..] == rest;
    StripOfRStrip(IsPySpace, " " + v + pad);
    StripPadded(IsPySpace, ' ', v, pad);
  }

  /** An index at which the question label and the label of `f` disagree. */
  lemma QuestionLabelDiffers(f: Field) returns (k: nat)
    ensures k < |QuestionLabel| && k < |LabelOf(f)| && QuestionLabel[k] != LabelOf(f)[k]
  {
    var a, b := QuestionLabel, LabelOf(f);
    k := if a[0] != b[0] then 0 else if a[1] != b[1] then 1 else 4;
  }

  /** The question line is not taken for any field: the parser passes over it. */
  lemma ClassifyQuestionLine(q: string)
    ensures !Classify(LayoutLine(QuestionLabel, q, " ")).Labelled?
  {
    var line := LayoutLine(QuestionLabel, q, " ");
    StripLayoutLine(QuestionLabel, q, " ");
    var stripped := PyStrip(line);
    assert stripped[..|QuestionLabel|] == QuestionLabel;
    forall f | StartsWith(stripped, LabelOf(f)) ensures false {
      var k := QuestionLabelDiffers(f);
      assert false;
    }
    if MatchLabel(stripped).Some? {
      MatchLabelSpec(stripped, MatchLabel(stripped).value);
    }
  }

  /** The document text splits back into the seven lines. */
  lemma SplitLayout(row: TableRow)
    requires NoLineBreak(row.question) && NoLineBreak(row.answer) && NoLineBreak(row.source)
    requires NoLineBreak(row.issueDate) && NoLineBreak(row.updateDate)
    requires NoLineBreak(row.sourcePath) && NoLineBreak(row.updateFilesPath)
    ensures Split(Layout(row), '\n') == LayoutLines(row)
  {
    var lines := LayoutLines(row);
    forall k | 0 <= k < |lines| ensures '\n' !in lines[k] {
    }
    SplitJoin(lines, '\n');
  }

  /**
   * The walk over seven lines read as: one unlabelled line, then the six
   * labelled lines in the order of the fields. The answer's continuation
   * ends at the very next line, which is labelled.
   */
  lemma RunSevenLines(l0: string, l1: string, l2: string, l3: string, l4: string, l5: string, l6: string,
                      vs: AnswerRecord)
    requires !Classify(l0).Labelled?
    requires Classify(l1) == Labelled(Answer, vs.answer)
    requires Classify(l2) == Labelled(Source, vs.source)
    requires Classify(l3) == Labelled(IssueDate, vs.issueDate)
    requires Classify(l4) == Labelled(UpdateDate, vs.updateDate)
    requires Classify(l5) == Labelled(SourcePath, vs.sourcePath)
    requires Classify(l6) == Labelled(UpdateFilesPath, vs.updateFilesPath)
    ensures Run(Start, [l0, l1, l2, l3, l4, l5, l6]).rec == vs
  {
    var s2 := ScanState(Set(EmptyRecord, Answer, vs.answer), true);
    var s3 := ScanState(Set(s2.rec, Source, vs.source), false);
    var s4 := ScanState(Set(s3.rec, IssueDate, vs.issueDate), false);
    var s5 := ScanState(Set(s4.rec, UpdateDate, vs.updateDate), false);
    var s6 := ScanState(Set(s5.rec, SourcePath, vs.sourcePath), false);
    RunCons(Start, l0, [l1, l2, l3, l4, l5, l6]);
    RunCons(Start, l1, [l2, l3, l4, l5, l6]);
    RunCons(s2, l2, [l3, l4, l5, l6]);
    RunCons(s3, l3, [l4, l5, l6]);
    RunCons(s4, l4, [l5, l6]);
    RunCons(s5, l5, [l6]);
    RunCons(s6, l6, []);
  }

  lemma RunCons(st: ScanState, line: string, rest: seq<string>)
    ensures Run(st, [line] + rest) == Run(Step(st, Classify(line)), rest)
  {
    assert ([line] + rest)[1..] == rest;
  }

  /** The walk over a row's seven lines recovers the row's fields, stripped. */
  lemma RunLayout(row: TableRow)
    ensures Run(Start, LayoutLines(row)).rec == Expected(row)
  {
    ClassifyQuestionLine(row.question);
    ClassifyLayoutLine(Answer, row.answer, " ");
    ClassifyLayoutLine(Source, row.source, " ");
    ClassifyLayoutLine(IssueDate, row.issueDate, " ");
    ClassifyLayoutLine(UpdateDate, row.updateDate, " ");
    ClassifyLayoutLine(SourcePath, row.sourcePath, " ");
    ClassifyLayoutLine(UpdateFilesPath, row.updateFilesPath, "");
    RunSevenLines(
      LayoutLine(QuestionLabel, row.question, " "),
      LayoutLine(LabelOf(Answer), row.answer, " "),
      LayoutLine(LabelOf(Source), row.source, " "),
      LayoutLine(LabelOf(IssueDate), row.issueDate, " "),
      LayoutLine(LabelOf(UpdateDate), row.updateDate, " "),
      LayoutLine(LabelOf(SourcePath), row.sourcePath, " "),
      LayoutLine(LabelOf(UpdateFilesPath), row.updateFilesPath, ""),
      Expected(row));
  }

  /**
   * The round trip: a row written in the layout is parsed back into its six
   * answer fields, each stripped of surrounding whitespace.
   */
  lemma ParseLayout(row: TableRow)
    requires NoLineBreak(row.question) && NoLineBreak(row.answer) && NoLineBreak(row.source)
    requires NoLineBreak(row.issueDate) && NoLineBreak(row.updateDate)
    requires NoLineBreak(row.sourcePath) && NoLineBreak(row.updateFilesPath)
    ensures ParseDocument(Layout(row)) == Expected(row)
  {
    SplitLayout(row);
    RunLayout(row);
    StripIdempotent(IsPySpace, row.answer);
  }
}
