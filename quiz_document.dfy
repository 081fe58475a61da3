/**
 * The quiz document: the text the language model returns, and how the main
 * screen cuts it into the sections it displays (`data.split("---")`, then
 * `parts[0]`, `parts[1]` and `parts[2]`).
 */
module QuizDocument {
  import opened Wrappers
  import opened Strings

  /** The marker the prompt asks the model to put between sections. */
  const Delimiter: string := "---"

  /** What the main screen shows: summary and keywords, the questions, and
      (folded away) the answers with their page citations. */
  datatype QuizView = QuizView(summary: string, questions: string, answers: string)

  /** `IndexError` raised by the read `parts[index]`. */
  datatype RenderError = IndexError(index: nat)

  /** Split the stored quiz on the delimiter and read the first three parts;
      the first read that is out of range raises. Parts after the third are
      not read. */
  function RenderQuiz(data: string): Result<QuizView, RenderError> {
    var parts := Split(data, Delimiter);
    if |parts| < 2 then Failure(IndexError(1))
    else if |parts| < 3 then Failure(IndexError(2))
    else Success(QuizView(parts[0], parts[1], parts[2]))
  }

  /** A document in the layout the prompt asks for: three sections with a
      delimiter between each two. */
  function Compose(v: QuizView): string {
    Join([v.summary, v.questions, v.answers], Delimiter)
  }

  lemma ComposeUnfold(v: QuizView)
    ensures Compose(v) == v.summary + Delimiter + (v.questions + Delimiter + v.answers)
  {
    var qa := [v.questions, v.answers];
    assert [v.summary, v.questions, v.answers][1..] == qa;
    assert qa[1..] == [v.answers];
    assert Join(qa, Delimiter) == v.questions + Delimiter + v.answers;
  }

  /** The three reads are in range exactly when the text holds at least two
      (non-overlapping) delimiters; with none `parts[1]` raises, with one
      `parts[2]` does. */
  lemma RenderQuizInRange(data: string)
    ensures RenderQuiz(data).Success? <==> Count(data, Delimiter) >= 2
    ensures Count(data, Delimiter) == 0 ==> RenderQuiz(data) == Failure(IndexError(1))
    ensures Count(data, Delimiter) == 1 ==> RenderQuiz(data) == Failure(IndexError(2))
  {
    SplitLength(data, Delimiter);
  }

  /** No displayed section holds a delimiter. */
  lemma RenderedSectionsFree(data: string)
    requires RenderQuiz(data).Success?
    ensures !Contains(RenderQuiz(data).value.summary, Delimiter)
    ensures !Contains(RenderQuiz(data).value.questions, Delimiter)
    ensures !Contains(RenderQuiz(data).value.answers, Delimiter)
  {
    var parts := Split(data, Delimiter);
    SplitPartsFree(data, Delimiter);
    assert RenderQuiz(data).value == QuizView(parts[0], parts[1], parts[2]);
  }

  /** What is displayed is the text itself, cut at its first two delimiters:
      with exactly two delimiters the sections and delimiters make up the
      whole text, and with more the text goes on past the answers with a
      delimiter and parts that are never displayed. */
  lemma RenderedPrefix(data: string)
    requires RenderQuiz(data).Success?
    ensures Count(data, Delimiter) == 2 ==> Compose(RenderQuiz(data).value) == data
    ensures Count(data, Delimiter) > 2 ==>
      data == Compose(RenderQuiz(data).value) + Delimiter
              + Join(Split(data, Delimiter)[3..], Delimiter)
  {
    var parts := Split(data, Delimiter);
    var v := QuizView(parts[0], parts[1], parts[2]);
    assert RenderQuiz(data).value == v;
    assert [v.summary, v.questions, v.answers] == parts[..3];
    SplitLength(data, Delimiter);
    JoinSplit(data, Delimiter);
    if |parts| > 3 {
      JoinAt(parts, 3, Delimiter);
    } else {
      assert parts[..3] == parts;
    }
  }

  /** A section can be followed by the delimiter without merging into it
      exactly when it does not end in a dash (for a section without a delimiter). */
  lemma SectionEndsCleanly(p: string)
    requires !Contains(p, Delimiter)
    ensures EndsCleanly(p, Delimiter) <==> (p == [] || p[|p| - 1] != '-')
  {
    var t := p + Delimiter;
    if p != [] && p[|p| - 1] == '-' {
      assert t[|p| - 1..|p| + 2] == Delimiter;
      assert OccursAt(t, Delimiter, |p| - 1);
    } else {
      forall j | 0 <= j < |p|
        ensures !OccursAt(t, Delimiter, j)
      {
        if j + 3 <= |p| {
          assert t[j..j + 3] == p[j..j + 3];
          assert !OccursAt(p, Delimiter, j);
        } else {
          assert t[j..j + 3][|p| - 1 - j] == p[|p| - 1];
        }
      }
    }
  }

  /** A document composed from sections that hold no delimiter, the first two
      not ending in a dash, is displayed as exactly those sections. */
  lemma ComposeRender(v: QuizView)
    requires !Contains(v.summary, Delimiter) && (v.summary == [] || v.summary[|v.summary| - 1] != '-')
    requires !Contains(v.questions, Delimiter) && (v.questions == [] || v.questions[|v.questions| - 1] != '-')
    requires !Contains(v.answers, Delimiter)
    ensures RenderQuiz(Compose(v)) == Success(v)
  {
    var parts := [v.summary, v.questions, v.answers];
    SectionEndsCleanly(v.summary);
    SectionEndsCleanly(v.questions);
    SplitJoin(parts, Delimiter);
  }

  /** The layout example: `"A### ---B### ---C"` shows `"A### "`, `"B### "` and `"C"`. */
  lemma LayoutExample()
    ensures RenderQuiz("A### ---B### ---C") == Success(QuizView("A### ", "B### ", "C"))
  {
    var v := QuizView("A### ", "B### ", "C");
    NoFirstCharNoOccurrence(v.summary, Delimiter);
    NoFirstCharNoOccurrence(v.questions, Delimiter);
    NoFirstCharNoOccurrence(v.answers, Delimiter);
    ComposeRender(v);
    ComposeUnfold(v);
    assert Compose(v) == "A### ---B### ---C";
  }

  /** With a single delimiter the read `parts[2]` raises. */
  lemma OneDelimiterExample()
    ensures RenderQuiz("A---B") == Failure(IndexError(2))
  {
    NoFirstCharNoOccurrence("A", Delimiter);
    NoFirstCharNoOccurrence("B", Delimiter);
    SectionEndsCleanly("A");
    SplitJoin(["A", "B"], Delimiter);
    assert ["A", "B"][1..] == ["B"];
    assert Join(["A", "B"], Delimiter) == "A---B";
  }

  /** A section followed by the delimiter is split off as the first part. */
  lemma SplitAfterSection(p: string, rest: string)
    requires !Contains(p, Delimiter) && (p == [] || p[|p| - 1] != '-')
    ensures Split(p + Delimiter + rest, Delimiter) == [p] + Split(rest, Delimiter)
  {
    var s := p + Delimiter + rest;
    SectionEndsCleanly(p);
    FindAfterCleanPart(p, Delimiter, rest);
    assert s[..|p|] == p;
    assert s[|p| + |Delimiter|..] == rest;
  }

  /** Whatever follows the answers and a further delimiter is never displayed:
      three sections in the prompt's layout, then a delimiter and any text at
      all, are shown as those three sections. */
  lemma TrailingPartsIgnored(v: QuizView, rest: string)
    requires !Contains(v.summary, Delimiter) && (v.summary == [] || v.summary[|v.summary| - 1] != '-')
    requires !Contains(v.questions, Delimiter) && (v.questions == [] || v.questions[|v.questions| - 1] != '-')
    requires !Contains(v.answers, Delimiter) && (v.answers == [] || v.answers[|v.answers| - 1] != '-')
    ensures RenderQuiz(v.summary + Delimiter + (v.questions + Delimiter + (v.answers + Delimiter + rest)))
            == Success(v)
  {
    var tail := v.answers + Delimiter + rest;
    var middle := v.questions + Delimiter + tail;
    SplitAfterSection(v.answers, rest);
    SplitAfterSection(v.questions, tail);
    SplitAfterSection(v.summary, middle);
    var fromAnswers := [v.answers] + Split(rest, Delimiter);
    var fromQuestions := [v.questions] + fromAnswers;
    var parts := [v.summary] + fromQuestions;
    assert parts[1] == fromQuestions[0] && parts[2] == fromQuestions[1] == fromAnswers[0];
  }

  /** With three delimiters the fourth part is never displayed. */
  lemma ExtraPartExample()
    ensures RenderQuiz("A---B---C---D") == Success(QuizView("A", "B", "C"))
  {
    var v := QuizView("A", "B", "C");
    NoFirstCharNoOccurrence(v.summary, Delimiter);
    NoFirstCharNoOccurrence(v.questions, Delimiter);
    NoFirstCharNoOccurrence(v.answers, Delimiter);
    TrailingPartsIgnored(v, "D");
    assert "A" + Delimiter + ("B" + Delimiter + ("C" + Delimiter + "D")) == "A---B---C---D";
  }
}
