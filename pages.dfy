/**
 * Page extraction and the prompt context built from it
 * (`extract_text_with_page` and the `full_context` join of `generate_quiz_system`).
 *
 * The PDF reader is not part of this model: a document is given as the
 * sequence of the texts its pages yield, in page order.
 */
module Pages {
  import opened Strings

  /** One `{"page": ..., "content": ...}` record: a 1-based page number and its text. */
  datatype PageRecord = PageRecord(page: nat, content: string)

  /** The records kept from `pageTexts`: one per page whose text is non-empty
      (a Python string is falsy exactly when it is empty), numbered from 1. */
  function KeptPages(pageTexts: seq<string>): seq<PageRecord>
    decreases |pageTexts|
  {
    if |pageTexts| == 0 then []
    else
      var n := |pageTexts|;
      KeptPages(pageTexts[..n - 1])
        + (if pageTexts[n - 1] != "" then [PageRecord(n, pageTexts[n - 1])] else [])
  }

  /** Every kept record is a non-empty page of the input, under its 1-based number. */
  ghost predicate RecordsFromPages(records: seq<PageRecord>, pageTexts: seq<string>) {
    forall k :: 0 <= k < |records| ==>
      && 1 <= records[k].page <= |pageTexts|
      && records[k].content == pageTexts[records[k].page - 1]
      && records[k].content != ""
  }

  /** Page numbers strictly increase along the records. */
  ghost predicate InPageOrder(records: seq<PageRecord>) {
    forall k, l :: 0 <= k < l < |records| ==> records[k].page < records[l].page
  }

  /** Every non-empty page of the input has a record. */
  ghost predicate CoversNonEmptyPages(records: seq<PageRecord>, pageTexts: seq<string>) {
    forall i :: 0 <= i < |pageTexts| && pageTexts[i] != "" ==>
      exists k :: 0 <= k < |records| && records[k].page == i + 1
  }

  /** The loop-step equation: one more page appends the record `(n, text)`
      exactly when its text is non-empty, and nothing otherwise. */
  lemma KeptPagesStep(pageTexts: seq<string>)
    requires |pageTexts| >= 1
    ensures var n := |pageTexts|;
      KeptPages(pageTexts) == KeptPages(pageTexts[..n - 1])
        + (if pageTexts[n - 1] != "" then [PageRecord(n, pageTexts[n - 1])] else [])
  {
  }

  /** Each kept record is a non-empty page of the input under its own number,
      and there are no more records than pages. */
  lemma {:induction false} KeptPagesSound(pageTexts: seq<string>)
    ensures |KeptPages(pageTexts)| <= |pageTexts|
    ensures RecordsFromPages(KeptPages(pageTexts), pageTexts)
    decreases |pageTexts|
  {
    if |pageTexts| > 0 {
      var n := |pageTexts|;
      var front := pageTexts[..n - 1];
      KeptPagesSound(front);
      KeptPagesStep(pageTexts);
      var records, before := KeptPages(pageTexts), KeptPages(front);
      forall k | 0 <= k < |records|
        ensures 1 <= records[k].page <= n
        ensures records[k].content == pageTexts[records[k].page - 1] != ""
      {
        if k < |before| {
          assert records[k] == before[k];
          assert front[before[k].page - 1] == pageTexts[before[k].page - 1];
        }
      }
    }
  }

  /** The kept records are in strictly increasing page order. */
  lemma {:induction false} KeptPagesOrdered(pageTexts: seq<string>)
    ensures InPageOrder(KeptPages(pageTexts))
    decreases |pageTexts|
  {
    if |pageTexts| > 0 {
      var n := |pageTexts|;
      var front := pageTexts[..n - 1];
      KeptPagesOrdered(front);
      KeptPagesSound(front);
      KeptPagesStep(pageTexts);
      var records, before := KeptPages(pageTexts), KeptPages(front);
      forall k | 0 <= k < |before|
        ensures records[k] == before[k] && records[k].page <= n - 1
      {
      }
    }
  }

  /** Every non-empty page is kept. */
  lemma {:induction false} KeptPagesComplete(pageTexts: seq<string>)
    ensures CoversNonEmptyPages(KeptPages(pageTexts), pageTexts)
    decreases |pageTexts|
  {
    if |pageTexts| > 0 {
      var n := |pageTexts|;
      var front := pageTexts[..n - 1];
      KeptPagesComplete(front);
      KeptPagesStep(pageTexts);
      var records, before := KeptPages(pageTexts), KeptPages(front);
      forall i | 0 <= i < n && pageTexts[i] != ""
        ensures exists k :: 0 <= k < |records| && records[k].page == i + 1
      {
        if i < n - 1 {
          assert front[i] == pageTexts[i];
          var k :| 0 <= k < |before| && before[k].page == i + 1;
          assert records[k] == before[k];
        } else {
          assert records[|records| - 1].page == n;
        }
      }
    }
  }

  /** `extract_text_with_page`: walk the pages in order and append a record
      for each page with text. */
  method ExtractTextWithPage(pageTexts: seq<string>) returns (pagesContent: seq<PageRecord>)
    ensures pagesContent == KeptPages(pageTexts)
    ensures |pagesContent| <= |pageTexts|
    ensures RecordsFromPages(pagesContent, pageTexts)
    ensures InPageOrder(pagesContent)
    ensures CoversNonEmptyPages(pagesContent, pageTexts)
  {
    pagesContent := [];
    for i := 0 to |pageTexts|
      invariant pagesContent == KeptPages(pageTexts[..i])
    {
      assert pageTexts[..i + 1][..i] == pageTexts[..i];
      var text := pageTexts[i];
      if text != "" {
        pagesContent := pagesContent + [PageRecord(i + 1, text)];
      }
    }
    assert pageTexts[..|pageTexts|] == pageTexts;
    KeptPagesSound(pageTexts);
    KeptPagesOrdered(pageTexts);
    KeptPagesComplete(pageTexts);
  }

  /** One record as it appears in the context: `f"[Page {page}] {content}"`. */
  function PageLabel(r: PageRecord): string {
    "[Page " + Decimal(r.page) + "] " + r.content
  }

  /** The labels of the records, in record order. */
  function Labels(records: seq<PageRecord>): seq<string> {
    seq(|records|, k requires 0 <= k < |records| => PageLabel(records[k]))
  }

  /** `"\n".join(...)` of the labels: the context handed to the language model. */
  function BuildContext(records: seq<PageRecord>): string {
    Join(Labels(records), "\n")
  }

  /** The three question styles offered on the main screen: short answer,
      multiple choice, and true/false. */
  datatype QuizType = ShortAnswer | MultipleChoice | TrueFalse

  /** `generate_quiz_system`: the language model, given here as the function
      `llm`, receives the question style and the context of the pages, and
      its reply is the quiz. The prompt template around them is left out. */
  function GenerateQuizSystem(pagesContent: seq<PageRecord>, quizType: QuizType,
                              llm: (QuizType, string) -> string): string
  {
    llm(quizType, BuildContext(pagesContent))
  }

  /** The context of no pages is the empty string; of one page, its label. */
  lemma ContextOfFewPages(records: seq<PageRecord>)
    requires |records| <= 1
    ensures records == [] ==> BuildContext(records) == ""
    ensures |records| == 1 ==> BuildContext(records) == "[Page " + Decimal(records[0].page) + "] " + records[0].content
  {
  }

  /** Labels follow the records' order: one more record adds a line break and its label. */
  lemma ContextAppend(records: seq<PageRecord>, r: PageRecord)
    requires |records| >= 1
    ensures BuildContext(records + [r]) == BuildContext(records) + "\n" + PageLabel(r)
  {
    assert Labels(records + [r]) == Labels(records) + [PageLabel(r)];
    JoinSnoc(Labels(records), PageLabel(r), "\n");
  }

  lemma LabelHasNoLineBreak(r: PageRecord)
    requires '\n' !in r.content
    ensures '\n' !in PageLabel(r)
  {
    var d := Decimal(r.page);
    assert forall i :: 0 <= i < |d| ==> d[i] != '\n';
  }

  /** Where no page text holds a line break, splitting the context on line
      breaks gives back the labels, one per record, in order. */
  lemma ContextLines(records: seq<PageRecord>)
    requires |records| >= 1
    requires forall k :: 0 <= k < |records| ==> '\n' !in records[k].content
    ensures Split(BuildContext(records), "\n") == Labels(records)
  {
    var labels := Labels(records);
    forall k | 0 <= k < |labels|
      ensures EndsCleanly(labels[k], "\n") && !Contains(labels[k], "\n")
    {
      LabelHasNoLineBreak(records[k]);
      SingleCharSeparator(labels[k], '\n');
    }
    SplitJoin(labels, "\n");
  }

  lemma DecimalPrefixEqual(a: string, b: string, ta: string, tb: string)
    requires forall i :: 0 <= i < |a| ==> IsDigit(a[i])
    requires forall i :: 0 <= i < |b| ==> IsDigit(b[i])
    requires |ta| >= 1 && !IsDigit(ta[0]) && |tb| >= 1 && !IsDigit(tb[0])
    requires a + ta == b + tb
    ensures a == b && ta == tb
  {
    var m := if |a| < |b| then |a| else |b|;
    assert IsDigit((a + ta)[m]) <==> m < |a|;
    assert IsDigit((b + tb)[m]) <==> m < |b|;
    assert |a| == |b|;
    assert a == (a + ta)[..|a|];
    assert b == (b + tb)[..|b|];
    assert ta == (a + ta)[|a|..];
    assert tb == (b + tb)[|b|..];
  }

  /** A label determines its record: the page number and the text can be read back. */
  lemma LabelInjective(a: PageRecord, b: PageRecord)
    ensures PageLabel(a) == PageLabel(b) <==> a == b
  {
    if PageLabel(a) == PageLabel(b) {
      var prefix := "[Page ";
      var da, db := Decimal(a.page), Decimal(b.page);
      var ta, tb := "] " + a.content, "] " + b.content;
      assert PageLabel(a) == prefix + (da + ta);
      assert PageLabel(b) == prefix + (db + tb);
      assert da + ta == PageLabel(a)[|prefix|..];
      assert db + tb == PageLabel(b)[|prefix|..];
      DecimalPrefixEqual(da, db, ta, tb);
      DecimalRoundTrip(a.page);
      DecimalRoundTrip(b.page);
      assert a.content == ta[2..];
      assert b.content == tb[2..];
    }
  }

  /** Some pages give a non-empty context: it starts with the first label. */
  lemma ContextNonEmpty(records: seq<PageRecord>)
    requires |records| >= 1
    ensures |BuildContext(records)| >= |PageLabel(records[0])| > 0
  {
    var labels := Labels(records);
    assert labels[0] == PageLabel(records[0]);
    if |labels| > 1 {
      assert BuildContext(records) == labels[0] + "\n" + Join(labels[1..], "\n");
    }
  }

  /** Where no page text holds a line break, the context determines the records. */
  lemma ContextInjective(records: seq<PageRecord>, others: seq<PageRecord>)
    requires forall k :: 0 <= k < |records| ==> '\n' !in records[k].content
    requires forall k :: 0 <= k < |others| ==> '\n' !in others[k].content
    requires BuildContext(records) == BuildContext(others)
    ensures records == others
  {
    if records == [] || others == [] {
      if records != [] {
        ContextNonEmpty(records);
      }
      if others != [] {
        ContextNonEmpty(others);
      }
      return;
    }
    ContextLines(records);
    ContextLines(others);
    assert |records| == |Labels(records)| == |Labels(others)| == |others|;
    forall k | 0 <= k < |records|
      ensures records[k] == others[k]
    {
      assert Labels(records)[k] == PageLabel(records[k]);
      assert Labels(others)[k] == PageLabel(others[k]);
      LabelInjective(records[k], others[k]);
    }
  }
}
