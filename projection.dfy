/**
 * Projection of retrieved nodes into typed context records
 * (`process_nodes_qa`, `process_nodes_pop` in ajrasakha/functions.py).
 *
 * A retrieved node carries its text, a metadata dictionary and a
 * similarity score. Question/answer nodes store text of the form
 * "Question: ...\n\nAnswer: ..."; POP (package of practices) nodes store
 * reference text, copied verbatim.
 */
module Projection {
  import opened PyStrings

  /** A retrieved node with its score. Metadata values are strings; the
      score is the retriever's float, modelled as a real and never inspected. */
  datatype ScoredNode = ScoredNode(text: string, metadata: map<string, string>, score: real)

  datatype QaMetadata = QaMetadata(
    agriSpecialist: string,
    crop: string,
    sources: string,
    state: string,
    similarityScore: real)

  datatype QaPair = QaPair(question: string, answer: string, metaData: QaMetadata)

  datatype PopMetadata = PopMetadata(
    pageNo: string,
    source: string,
    topics: string,
    similarityScore: real)

  datatype PopContext = PopContext(text: string, metaData: PopMetadata)

  const AnswerDelimiter := "\n\nAnswer:"
  const QuestionLabel := "Question:"

  const AgriSpecialistKey := "Agri Specialist"
  const CropKey := "Crop"
  const SourcesKey := "Source [Name and Link]"
  const StateKey := "State"
  const PageNoKey := "page_no"
  const SourceKey := "source"
  const HeadingsKey := "headings"

  const NotAvailable := "Not Available"
  const SourceNotAvailable := "Source Not Available"
  const LinkNotAvailable := "https://linknotavailable.com"
  const NoTopicsAvailable := "No topics available"

  /** `m.get(key, default)`. */
  function GetOr(m: map<string, string>, key: string, default: string): string {
    if key in m then m[key] else default
  }

  /** The question and answer of one node's text. Without the delimiter the
      question is the raw text, not stripped, and the answer is empty; with
      it, the text is cut at the delimiter's FIRST occurrence, the first
      "Question:" label is dropped from the part before, and both parts are
      stripped. Later delimiters stay inside the answer. */
  function SplitQa(text: string): (qa: (string, string))
    ensures !Contains(text, AnswerDelimiter) ==> qa == (text, "")
    ensures forall i :: IsFirstOccurrence(text, AnswerDelimiter, i) ==>
      qa == (Strip(ReplaceFirst(text[..i], QuestionLabel, "")),
             Strip(text[i + |AnswerDelimiter|..]))
  {
    if Contains(text, AnswerDelimiter) then
      var parts := Split1(text, AnswerDelimiter);
      assert text[..|parts[0]|] == parts[0];
      assert text[|parts[0]| + |AnswerDelimiter|..] == parts[1];
      assert forall i :: IsFirstOccurrence(text, AnswerDelimiter, i) ==> i == |parts[0]| by {
        forall i | IsFirstOccurrence(text, AnswerDelimiter, i) ensures i == |parts[0]| {
          FirstOccurrenceIsFind(text, AnswerDelimiter, i);
          FirstOccurrenceIsFind(text, AnswerDelimiter, |parts[0]|);
        }
      }
      (Strip(ReplaceFirst(parts[0], QuestionLabel, "")), Strip(parts[1]))
    else
      (text, "")
  }

  /** The metadata of a question/answer record: each field is the node's
      value for its key, or the field's sentinel when the key is missing;
      the score is the node's, unchanged. */
  function QaMetadataOf(node: ScoredNode): (md: QaMetadata)
    ensures AgriSpecialistKey in node.metadata ==> md.agriSpecialist == node.metadata[AgriSpecialistKey]
    ensures AgriSpecialistKey !in node.metadata ==> md.agriSpecialist == NotAvailable
    ensures CropKey in node.metadata ==> md.crop == node.metadata[CropKey]
    ensures CropKey !in node.metadata ==> md.crop == NotAvailable
    ensures SourcesKey in node.metadata ==> md.sources == node.metadata[SourcesKey]
    ensures SourcesKey !in node.metadata ==> md.sources == SourceNotAvailable
    ensures StateKey in node.metadata ==> md.state == node.metadata[StateKey]
    ensures StateKey !in node.metadata ==> md.state == NotAvailable
    ensures md.similarityScore == node.score
  {
    QaMetadata(
      GetOr(node.metadata, AgriSpecialistKey, NotAvailable),
      GetOr(node.metadata, CropKey, NotAvailable),
      GetOr(node.metadata, SourcesKey, SourceNotAvailable),
      GetOr(node.metadata, StateKey, NotAvailable),
      node.score)
  }

  /** The question/answer record of one node. */
  function QaPairOf(node: ScoredNode): QaPair {
    var qa := SplitQa(node.text);
    QaPair(qa.0, qa.1, QaMetadataOf(node))
  }

  /** The metadata of a POP record: as for question/answer records, with
      "headings" giving the topics. */
  function PopMetadataOf(node: ScoredNode): (md: PopMetadata)
    ensures PageNoKey in node.metadata ==> md.pageNo == node.metadata[PageNoKey]
    ensures PageNoKey !in node.metadata ==> md.pageNo == NotAvailable
    ensures SourceKey in node.metadata ==> md.source == node.metadata[SourceKey]
    ensures SourceKey !in node.metadata ==> md.source == LinkNotAvailable
    ensures HeadingsKey in node.metadata ==> md.topics == node.metadata[HeadingsKey]
    ensures HeadingsKey !in node.metadata ==> md.topics == NoTopicsAvailable
    ensures md.similarityScore == node.score
  {
    PopMetadata(
      GetOr(node.metadata, PageNoKey, NotAvailable),
      GetOr(node.metadata, SourceKey, LinkNotAvailable),
      GetOr(node.metadata, HeadingsKey, NoTopicsAvailable),
      node.score)
  }

  /** The POP record of one node: its text verbatim, not stripped or split,
      and its metadata with the node's score. */
  function PopContextOf(node: ScoredNode): (p: PopContext)
    ensures p.text == node.text
    ensures p.metaData.similarityScore == node.score
  {
    PopContext(node.text, PopMetadataOf(node))
  }

  /** `process_nodes_qa`: one record per node, in node order, record `i`
      built from node `i` alone. */
  method ProcessNodesQa(nodes: seq<ScoredNode>) returns (context: seq<QaPair>)
    ensures |context| == |nodes|
    ensures forall i :: 0 <= i < |nodes| ==> context[i] == QaPairOf(nodes[i])
  {
    context := [];
    for k := 0 to |nodes|
      invariant |context| == k
      invariant forall i :: 0 <= i < k ==> context[i] == QaPairOf(nodes[i])
    {
      var node := nodes[k];
      var text := node.text;
      var q, a := text, "";
      if Contains(text, AnswerDelimiter) {
        var parts := Split1(text, AnswerDelimiter);
        q := Strip(ReplaceFirst(parts[0], QuestionLabel, ""));
        a := Strip(parts[1]);
      }
      assert (q, a) == SplitQa(text);
      var pair := QaPair(
        q, a,
        QaMetadata(
          GetOr(node.metadata, AgriSpecialistKey, NotAvailable),
          GetOr(node.metadata, CropKey, NotAvailable),
          GetOr(node.metadata, SourcesKey, SourceNotAvailable),
          GetOr(node.metadata, StateKey, NotAvailable),
          node.score));
      assert pair == QaPairOf(node);
      ghost var prev := context;
      context := context + [pair];
      forall i | 0 <= i < k + 1 ensures context[i] == QaPairOf(nodes[i]) {
        if i < k { assert context[i] == prev[i]; }
      }
    }
  }

  /** `process_nodes_pop`: one record per node, in node order, record `i`
      built from node `i` alone. */
  method ProcessNodesPop(nodes: seq<ScoredNode>) returns (context: seq<PopContext>)
    ensures |context| == |nodes|
    ensures forall i :: 0 <= i < |nodes| ==> context[i] == PopContextOf(nodes[i])
  {
    context := [];
    for k := 0 to |nodes|
      invariant |context| == k
      invariant forall i :: 0 <= i < k ==> context[i] == PopContextOf(nodes[i])
    {
      var node := nodes[k];
      var pair := PopContext(
        node.text,
        PopMetadata(
          GetOr(node.metadata, PageNoKey, NotAvailable),
          GetOr(node.metadata, SourceKey, LinkNotAvailable),
          GetOr(node.metadata, HeadingsKey, NoTopicsAvailable),
          node.score));
      context := context + [pair];
    }
  }

  /** When the delimiter's first occurrence follows `before`, the question
      comes from `before` and the answer is all of `after`, stripped, even
      where `after` holds the delimiter again. */
  lemma SplitQaAtFirstDelimiter(text: string, before: string, after: string)
    requires text == before + AnswerDelimiter + after
    requires NoOccurrenceBefore(text, AnswerDelimiter, |before|)
    ensures SplitQa(text) == (Strip(ReplaceFirst(before, QuestionLabel, "")), Strip(after))
  {
    var i := |before|;
    assert text[i..i + |AnswerDelimiter|] == AnswerDelimiter;
    assert IsFirstOccurrence(text, AnswerDelimiter, i);
    assert text[..i] == before;
    assert text[i + |AnswerDelimiter|..] == after;
  }

  /** Only the leading label is dropped: whatever follows it, including
      another "Question:", is kept. */
  lemma LeadingLabelRemoved(rest: string)
    ensures ReplaceFirst(QuestionLabel + rest, QuestionLabel, "") == rest
  {
    var s := QuestionLabel + rest;
    assert s[0..|QuestionLabel|] == QuestionLabel;
    assert IsFirstOccurrence(s, QuestionLabel, 0);
    assert s[|QuestionLabel|..] == rest;
  }

  /** A node with no metadata at all gets every sentinel. */
  lemma EmptyMetadataGivesSentinels(text: string, score: real)
    ensures QaMetadataOf(ScoredNode(text, map[], score))
         == QaMetadata(NotAvailable, NotAvailable, SourceNotAvailable, NotAvailable, score)
    ensures PopMetadataOf(ScoredNode(text, map[], score))
         == PopMetadata(NotAvailable, LinkNotAvailable, NoTopicsAvailable, score)
  {
  }

  /** In "Question: <q>\n\nAnswer: ..." the delimiter cannot start before
      the one that follows `q` when `q` holds no delimiter: the delimiter
      has no proper prefix that is also its suffix, so no occurrence can
      straddle the end of `q`. */
  lemma DelimiterFollowsQuestion(q: string, rest: string)
    requires !Contains(q, AnswerDelimiter)
    ensures NoOccurrenceBefore(QuestionLabel + " " + q + AnswerDelimiter + rest, AnswerDelimiter,
                               |QuestionLabel| + 1 + |q|)
  {
    var D := AnswerDelimiter;
    var head := QuestionLabel + " ";
    var L := |head|;
    var text := head + q + D + rest;
    forall j | 0 <= j < L + |q| ensures !OccursAt(text, D, j) {
      var w := text[j..j + |D|];
      if j < L {
        assert w[0] == head[j];
        assert w[0] != D[0];
      } else if j + |D| <= L + |q| {
        assert w == q[j - L..j - L + |D|];
        assert !OccursAt(q, D, j - L);
      } else {
        var m := L + |q| - j;
        assert w[m] == D[0];
        if m == 1 {
          assert w[2] == D[1];
          assert w[2] != D[2];
        } else {
          assert w[m] != D[m];
        }
      }
    }
  }

  /** The stored format round-trips: a question and an answer without
      surrounding whitespace, the question without the delimiter, come back
      out of "Question: <q>\n\nAnswer: <a>". */
  lemma QaFormatRoundTrip(q: string, a: string)
    requires Strip(q) == q && Strip(a) == a
    requires !Contains(q, AnswerDelimiter)
    ensures SplitQa(QuestionLabel + " " + q + AnswerDelimiter + " " + a) == (q, a)
  {
    ConcatAssoc(QuestionLabel + " " + q + AnswerDelimiter, " ", a);
    SplitAfterQuestion(q, " " + a);
    QuestionRoundTrip(q);
    PaddedRoundTrip(a);
  }

  /** In the stored format the question's delimiter is the first one. */
  lemma SplitAfterQuestion(q: string, after: string)
    requires !Contains(q, AnswerDelimiter)
    ensures SplitQa(QuestionLabel + " " + q + AnswerDelimiter + after)
         == (Strip(ReplaceFirst(QuestionLabel + " " + q, QuestionLabel, "")), Strip(after))
  {
    DelimiterFollowsQuestion(q, after);
    SplitQaAtFirstDelimiter(QuestionLabel + " " + q + AnswerDelimiter + after, QuestionLabel + " " + q, after);
  }

  /** "Question: <q>" gives back `q` once the label is dropped and the rest
      stripped. */
  lemma QuestionRoundTrip(q: string)
    requires Strip(q) == q
    ensures Strip(ReplaceFirst(QuestionLabel + " " + q, QuestionLabel, "")) == q
  {
    ConcatAssoc(QuestionLabel, " ", q);
    LeadingLabelRemoved(" " + q);
    PaddedRoundTrip(q);
  }

  /** One space before stripped text is stripped away again. */
  lemma PaddedRoundTrip(a: string)
    requires Strip(a) == a
    ensures Strip(" " + a) == a
  {
    StripIgnoresPadding(" ", a, "");
    assert " " + a + "" == " " + a;
  }

  /** String concatenation is associative. */
  lemma ConcatAssoc(x: string, y: string, z: string)
    ensures x + y + z == x + (y + z)
  {
  }
}
