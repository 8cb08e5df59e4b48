/**
 * What the answer-record parser promises, stated over the line walk `Run`
 * and proved about it: labels are matched exactly, blank lines change
 * nothing, every field but the answer holds the value of its last labelled
 * line (or stays empty), and an answer runs on over the unlabelled lines
 * that follow it.
 */
module AnswerParserProperties {
  import opened Text
  import opened Wrappers
  import opened AnswerParser

  /** A stripped line is reported with field `f` exactly when the label of `f` starts it. */
  lemma MatchLabelSpec(line: string, f: Field)
    ensures MatchLabel(line) == Some(f) <==> StartsWith(line, LabelOf(f))
  {
    if StartsWith(line, LabelOf(f)) {
      var m := MatchLabel(line);
      LabelsPrefixFree(line, f, m.value);
    }
  }

  /** A line whose stripped form starts with no label is never taken for a labelled line. */
  lemma UnlabelledLine(line: string)
    requires PyStrip(line) != []
    requires forall f :: !StartsWith(PyStrip(line), LabelOf(f))
    ensures Classify(line) == Unlabelled(PyStrip(line))
  {
  }

  /** Walking a concatenation is walking its two parts one after the other. */
  lemma {:induction false} RunAppend(st: ScanState, a: seq<string>, b: seq<string>)
    ensures Run(st, a + b) == Run(Run(st, a), b)
    decreases |a|
  {
    if a == [] {
      assert a + b == b;
    } else {
      assert (a + b)[1..] == a[1..] + b;
      RunAppend(Step(st, Classify(a[0])), a[1..], b);
    }
  }

  predicate IsBlank(line: string) {
    PyStrip(line) == []
  }

  /** The lines that are not blank, in their order. */
  function NonBlank(lines: seq<string>): (r: seq<string>)
    ensures |r| <= |lines|
    ensures forall i :: 0 <= i < |r| ==> !IsBlank(r[i])
  {
    if lines == [] then []
    else (if IsBlank(lines[0]) then [] else [lines[0]]) + NonBlank(lines[1..])
  }

  /** Blank (or whitespace-only) lines are skipped: dropping all of them changes nothing. */
  lemma {:induction false} BlankLinesIgnored(st: ScanState, lines: seq<string>)
    ensures Run(st, lines) == Run(st, NonBlank(lines))
    decreases |lines|
  {
    if lines != [] {
      BlankLinesIgnored(Step(st, Classify(lines[0])), lines[1..]);
      var rest := NonBlank(lines[1..]);
      if IsBlank(lines[0]) {
        assert Classify(lines[0]) == Blank;
        assert NonBlank(lines) == rest;
      } else {
        assert ([lines[0]] + rest)[1..] == rest;
      }
    }
  }

  lemma ParseIgnoresBlankLines(lines: seq<string>)
    ensures ParseLines(lines) == ParseLines(NonBlank(lines))
  {
    BlankLinesIgnored(Start, lines);
  }

  /**
   * A labelled line sets its field to the stripped text after the label,
   * keeps every other field, and opens an answer continuation exactly when
   * its label is the answer label.
   */
  lemma LabelledLineSetsField(st: ScanState, line: string, f: Field)
    requires StartsWith(PyStrip(line), LabelOf(f))
    ensures Classify(line) == Labelled(f, PyStrip(PyStrip(line)[|LabelOf(f)|..]))
    ensures Get(Step(st, Classify(line)).rec, f) == PyStrip(PyStrip(line)[|LabelOf(f)|..])
    ensures forall g :: g != f ==> Get(Step(st, Classify(line)).rec, g) == Get(st.rec, g)
    ensures Step(st, Classify(line)).inAnswer == (f == Answer)
  {
    MatchLabelSpec(PyStrip(line), f);
  }

  /** An unlabelled line outside an answer continuation is ignored. */
  lemma StrayLineIgnored(st: ScanState, line: string)
    requires !st.inAnswer
    requires !Classify(line).Labelled?
    ensures Step(st, Classify(line)) == st
  {
  }

  predicate IsLabelFor(line: string, f: Field) {
    Classify(line).Labelled? && Classify(line).field == f
  }

  /** The value of the last line of `lines` labelled with `f`, if there is one. */
  function LastValue(lines: seq<string>, f: Field): Option<string> {
    if lines == [] then None
    else
      var kind := Classify(lines[|lines| - 1]);
      if kind.Labelled? && kind.field == f then Some(kind.value)
      else LastValue(lines[..|lines| - 1], f)
  }

  /** A field has no last value exactly when no line is labelled with it. */
  lemma {:induction false} LastValueNone(lines: seq<string>, f: Field)
    ensures LastValue(lines, f).None? <==> forall i :: 0 <= i < |lines| ==> !IsLabelFor(lines[i], f)
    decreases |lines|
  {
    if lines != [] {
      var init, last := lines[..|lines| - 1], lines[|lines| - 1];
      LastValueNone(init, f);
      assert lines == init + [last];
      if IsLabelFor(last, f) {
        assert LastValue(lines, f).Some?;
      } else {
        assert LastValue(lines, f) == LastValue(init, f);
        assert (forall i :: 0 <= i < |lines| ==> !IsLabelFor(lines[i], f))
            <==> (forall i :: 0 <= i < |init| ==> !IsLabelFor(init[i], f));
      }
    }
  }

  lemma RunLast(st: ScanState, lines: seq<string>)
    requires lines != []
    ensures Run(st, lines) == Step(Run(st, lines[..|lines| - 1]), Classify(lines[|lines| - 1]))
  {
    var init, last := lines[..|lines| - 1], lines[|lines| - 1];
    assert lines == init + [last];
    RunAppend(st, init, [last]);
    assert Run(Step(Run(st, init), Classify(last)), []) == Step(Run(st, init), Classify(last));
  }

  /**
   * Every field other than the answer holds the value of the last line
   * labelled with it: a later label overwrites an earlier one, and a field
   * whose label never occurs keeps what it had.
   */
  lemma {:induction false} FieldIsLastValue(st: ScanState, lines: seq<string>, f: Field)
    requires f != Answer
    ensures Get(Run(st, lines).rec, f) == LastValue(lines, f).GetOr(Get(st.rec, f))
    decreases |lines|
  {
    if lines != [] {
      var init := lines[..|lines| - 1];
      RunLast(st, lines);
      FieldIsLastValue(st, init, f);
    }
  }

  /** In a parsed document, each field but the answer is its last labelled value, or empty. */
  lemma ParsedFieldIsLastValue(lines: seq<string>, f: Field)
    requires f != Answer
    ensures Get(ParseLines(lines), f) == LastValue(lines, f).GetOr("")
  {
    FieldIsLastValue(Start, lines, f);
  }

  /** With no answer label, the walk never enters a continuation and the answer is untouched. */
  lemma {:induction false} NoAnswerLabelNoAnswer(rec: AnswerRecord, lines: seq<string>)
    requires LastValue(lines, Answer).None?
    ensures Run(ScanState(rec, false), lines).rec.answer == rec.answer
    ensures !Run(ScanState(rec, false), lines).inAnswer
    decreases |lines|
  {
    if lines != [] {
      var init := lines[..|lines| - 1];
      assert forall i :: 0 <= i < |init| ==> init[i] == lines[i];
      RunLast(ScanState(rec, false), lines);
      NoAnswerLabelNoAnswer(rec, init);
      assert !IsLabelFor(lines[|lines| - 1], Answer);
    }
  }

  lemma ParsedAnswerMissing(lines: seq<string>)
    requires LastValue(lines, Answer).None?
    ensures ParseLines(lines).answer == ""
  {
    NoAnswerLabelNoAnswer(EmptyRecord, lines);
  }

  /** What one unlabelled line adds to an answer: nothing if blank, else a newline and the stripped line. */
  function Piece(line: string): string {
    var text := PyStrip(line);
    if text == [] then "" else "\n" + text
  }

  /** What unlabelled lines add to an answer: each non-blank one, stripped, after a newline. */
  function Continuation(lines: seq<string>): string {
    if lines == [] then "" else Piece(lines[0]) + Continuation(lines[1..])
  }

  /** None of `lines` is a labelled line. */
  predicate NoLabelLine(lines: seq<string>) {
    lines == [] || (!Classify(lines[0]).Labelled? && NoLabelLine(lines[1..]))
  }

  lemma NoLabelLineSpec(lines: seq<string>)
    ensures NoLabelLine(lines) <==> forall i :: 0 <= i < |lines| ==> !Classify(lines[i]).Labelled?
  {
    if lines != [] {
      NoLabelLineSpec(lines[1..]);
      assert forall i :: 0 < i < |lines| ==> lines[i] == lines[1..][i - 1];
    }
  }

  lemma ContinuationStep(rec: AnswerRecord, line: string)
    requires !Classify(line).Labelled?
    ensures Step(ScanState(rec, true), Classify(line)) == ScanState(rec.(answer := rec.answer + Piece(line)), true)
  {
  }

  /** Inside a continuation, unlabelled lines extend the answer and nothing else. */
  lemma {:induction false} ContinuationAppends(rec: AnswerRecord, lines: seq<string>)
    requires NoLabelLine(lines)
    ensures Run(ScanState(rec, true), lines) == ScanState(rec.(answer := rec.answer + Continuation(lines)), true)
    decreases |lines|
  {
    if lines == [] {
      assert rec.answer + Continuation(lines) == rec.answer;
    } else {
      var piece, rest := Piece(lines[0]), lines[1..];
      var rec' := rec.(answer := rec.answer + piece);
      calc {
        Run(ScanState(rec, true), lines);
        Run(Step(ScanState(rec, true), Classify(lines[0])), rest);
        { ContinuationStep(rec, lines[0]); }
        Run(ScanState(rec', true), rest);
        { ContinuationAppends(rec', rest); }
        ScanState(rec'.(answer := rec'.answer + Continuation(rest)), true);
        { assert Continuation(lines) == piece + Continuation(rest);
          ConcatAssoc(rec.answer, piece, Continuation(rest)); }
        ScanState(rec.(answer := rec.answer + Continuation(lines)), true);
      }
    }
  }

  /**
   * An answer label followed by unlabelled lines and then another labelled
   * line: the answer is the text after its label with the non-blank lines
   * appended, and the line that ends the continuation is not skipped but
   * sets its own field.
   */
  lemma AnswerSpan(st: ScanState, head: string, cont: seq<string>, next: string, g: Field)
    requires StartsWith(PyStrip(head), LabelOf(Answer))
    requires NoLabelLine(cont)
    requires StartsWith(PyStrip(next), LabelOf(g)) && g != Answer
    ensures var after := Run(st, [head] + cont + [next]).rec;
      after.answer == PyStrip(PyStrip(head)[|LabelOf(Answer)|..]) + Continuation(cont) &&
      Get(after, g) == PyStrip(PyStrip(next)[|LabelOf(g)|..])
  {
    LabelledLineSetsField(st, head, Answer);
    var afterHead := Step(st, Classify(head));
    RunAppend(st, [head], cont);
    RunAppend(st, [head] + cont, [next]);
    assert Run(st, [head]) == afterHead;
    ContinuationAppends(afterHead.rec, cont);
    var mid := Run(afterHead, cont);
    LabelledLineSetsField(mid, next, g);
    assert Run(Step(mid, Classify(next)), []) == Step(mid, Classify(next));
  }
}
