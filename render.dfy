/**
 * Markdown rendering of context records (`_truncate`, `render_qa_markdown`,
 * `render_pop_markdown` in ajrasakha/functions.py).
 *
 * Each record becomes one fixed-template block that opens with a heading
 * line and closes with "---\n"; the blocks are joined with "\n". Long
 * texts are optionally cut to a character count and marked with "...".
 * The two-decimal formatting of the similarity score is the parameter
 * `formatScore`.
 */
module Render {
  import opened PyStrings
  import opened Projection

  const Ellipsis := "..."
  const AnswerPlaceholder := "Answer not available"
  /** The default `max_len` of the Python functions. */
  const DefaultMaxLen := 300

  const BlockSeparator := "\n"
  const BlockEnd := "---\n"

  const QaHeading := "### \U{2753}Golden Dataset Question\n"
  const AnswerHeading := "\n\n### \U{2705} Answer\n"
  const PopHeading := "### \U{1F4C4} POP Reference\n**Text**  \n"

  /** The length of Python's `s[:n]` for a string of length `len`: a
      negative `n` counts from the end. */
  function SliceLength(len: nat, n: int): (k: nat)
    ensures k <= len
    ensures 0 <= n ==> k == if n < len then n else len
    ensures n < 0 ==> k + (if -n < len then -n else len) == len
  {
    if 0 <= n then (if n < len then n else len)
    else if -n < len then len + n else 0
  }

  /** `_truncate(text, max_len)`: the text itself when it has at most
      `maxLen` characters; otherwise its first `maxLen` characters (in the
      sense of Python's `text[:max_len]`) less trailing whitespace, then
      "..." (`TruncateMeaning` states it in full). */
  function Truncate(text: string, maxLen: int): (r: string)
    ensures 0 <= maxLen ==> |r| <= maxLen + |Ellipsis|
    ensures text != [] ==> r != []
  {
    if |text| <= maxLen then text
    else RStrip(text[..SliceLength(|text|, maxLen)]) + Ellipsis
  }

  /** What `Truncate` keeps: short text unchanged; long text cut to a
      prefix of Python's `text[:max_len]` that drops exactly its trailing
      whitespace, followed by "...". */
  lemma TruncateMeaning(text: string, maxLen: int)
    ensures |text| <= maxLen ==> Truncate(text, maxLen) == text
    ensures |text| > maxLen ==>
      var r := Truncate(text, maxLen);
      && |r| >= |Ellipsis|
      && r[|r| - |Ellipsis|..] == Ellipsis
      && |r| - |Ellipsis| <= SliceLength(|text|, maxLen)
      && r[..|r| - |Ellipsis|] == text[..|r| - |Ellipsis|]
      && (|r| == |Ellipsis| || !IsWhitespace(r[|r| - |Ellipsis| - 1]))
      && WhitespaceBetween(text, |r| - |Ellipsis|, SliceLength(|text|, maxLen))
  {
    if |text| > maxLen {
      var n := SliceLength(|text|, maxLen);
      var kept := RStrip(text[..n]);
      RStripMeaning(text[..n]);
      var r := kept + Ellipsis;
      assert kept == text[..|kept|];
      assert forall k :: |kept| <= k < n ==> text[k] == text[..n][k];
      assert r[..|kept|] == kept;
      assert r[|kept|..] == Ellipsis;
    }
  }

  /** A field shown as is, or truncated. */
  function Shown(s: string, truncate: bool, maxLen: int): string {
    if truncate then Truncate(s, maxLen) else s
  }

  /** The answer as rendered: with truncation an empty answer is replaced
      by the placeholder sentence (itself truncated); without truncation the
      answer is used as it is, even when empty. */
  function ShownAnswer(answer: string, truncate: bool, maxLen: int): (r: string)
    ensures !truncate ==> r == answer
    ensures truncate && answer != "" ==> r == Truncate(answer, maxLen)
    ensures truncate && answer == "" ==> r == Truncate(AnswerPlaceholder, maxLen)
    ensures truncate ==> r != ""
  {
    if truncate then Truncate(if answer != "" then answer else AnswerPlaceholder, maxLen)
    else answer
  }

  /** A rendered block: it opens with `heading` and closes with "---\n". */
  predicate Framed(block: string, heading: string) {
    && heading <= block
    && |block| >= |BlockEnd|
    && block[|block| - |BlockEnd|..] == BlockEnd
  }

  /** Where the pieces of a block `head + x + middle + y + lines + "---\n"`
      stand. */
  lemma Layout(head: string, x: string, middle: string, y: string, lines: string)
    ensures var block := head + (x + (middle + (y + (lines + BlockEnd))));
            && Framed(block, head)
            && |head| + |x| + |middle| + |y| <= |block|
            && block[|head|..|head| + |x|] == x
            && block[|head| + |x| + |middle|..|head| + |x| + |middle| + |y|] == y
  {
    var block := head + (x + (middle + (y + (lines + BlockEnd))));
    assert block[|head|..] == x + (middle + (y + (lines + BlockEnd)));
    assert block[|head| + |x|..] == middle + (y + (lines + BlockEnd));
    assert block[|head| + |x| + |middle|..] == y + (lines + BlockEnd);
    assert block[|block| - |BlockEnd|..] == BlockEnd;
  }

  /** Where the pieces of a block `head + x + lines + "---\n"` stand. */
  lemma ShortLayout(head: string, x: string, lines: string)
    ensures var block := head + (x + (lines + BlockEnd));
            && Framed(block, head)
            && |head| + |x| <= |block|
            && block[|head|..|head| + |x|] == x
  {
    var block := head + (x + (lines + BlockEnd));
    assert block[|head|..] == x + (lines + BlockEnd);
    assert block[|block| - |BlockEnd|..] == BlockEnd;
  }

  const MetadataHeading := "\n\n**Metadata**\n"

  /** The lines after the answer: the metadata heading and one line per
      field, ending in a line break (the block end follows). */
  function QaMetadataLines(md: QaMetadata, formatScore: real -> string): string {
    MetadataHeading
      + "- \U{1F468}\U{200D}\U{1F33E} Agri Specialist: " + md.agriSpecialist
      + "\n- \U{1F331} Crop: " + md.crop
      + "\n- \U{1F4D6} Source: " + md.sources
      + "\n- \U{1F3DE} State: " + md.state
      + "\n- \U{1F517} Similarity Score: " + formatScore(md.similarityScore) + "\n"
  }

  /** The Markdown block of one question/answer record: the heading, the
      question, the answer heading and the answer, then the metadata
      (`QaTemplateShape` states where each stands). */
  function QaTemplate(question: string, answer: string, md: QaMetadata, formatScore: real -> string)
    : string
  {
    QaHeading + (question + (AnswerHeading + (answer + (QaMetadataLines(md, formatScore) + BlockEnd))))
  }

  /** A question/answer block opens with the heading, shows the question
      right after it and the answer right after the answer heading, and
      closes with "---\n". */
  lemma QaTemplateShape(question: string, answer: string, md: QaMetadata, formatScore: real -> string)
    ensures var block := QaTemplate(question, answer, md, formatScore);
            var a := |QaHeading| + |question| + |AnswerHeading|;
            && Framed(block, QaHeading)
            && a + |answer| <= |block|
            && block[|QaHeading|..|QaHeading| + |question|] == question
            && block[a..a + |answer|] == answer
  {
    Layout(QaHeading, question, AnswerHeading, answer, QaMetadataLines(md, formatScore));
  }

  /** The block of record `r` as `render_qa_markdown` writes it. */
  function QaBlock(r: QaPair, truncate: bool, maxLen: int, formatScore: real -> string): string {
    QaTemplate(Shown(r.question, truncate, maxLen), ShownAnswer(r.answer, truncate, maxLen),
               r.metaData, formatScore)
  }

  /** The blocks of `results`, one per record, in record order. */
  function QaBlocks(results: seq<QaPair>, truncate: bool, maxLen: int, formatScore: real -> string)
    : seq<string>
  {
    seq(|results|, i requires 0 <= i < |results| => QaBlock(results[i], truncate, maxLen, formatScore))
  }

  /** `render_qa_markdown`: the blocks of the records, in record order,
      joined with "\n"; no records give the empty string. */
  method RenderQaMarkdown(results: seq<QaPair>, truncate: bool, maxLen: int, formatScore: real -> string)
    returns (md: string)
    ensures md == Join(BlockSeparator, QaBlocks(results, truncate, maxLen, formatScore))
    ensures results == [] ==> md == ""
  {
    var mdOutput: seq<string> := [];
    for k := 0 to |results|
      invariant |mdOutput| == k
      invariant forall i :: 0 <= i < k ==> mdOutput[i] == QaBlock(results[i], truncate, maxLen, formatScore)
    {
      var r := results[k];
      var question := if truncate then Truncate(r.question, maxLen) else r.question;
      var answer := if truncate then Truncate(if r.answer != "" then r.answer else AnswerPlaceholder, maxLen)
                    else r.answer;
      mdOutput := mdOutput + [QaTemplate(question, answer, r.metaData, formatScore)];
    }
    assert mdOutput == QaBlocks(results, truncate, maxLen, formatScore);
    md := Join(BlockSeparator, mdOutput);
  }

  /** The lines after the text: the metadata heading and one line per
      field, ending in a line break (the block end follows). */
  function PopMetadataLines(md: PopMetadata, formatScore: real -> string): string {
    MetadataHeading
      + "- \U{1F4D1} Page No: " + md.pageNo
      + "\n- \U{1F4D6} Source: " + md.source
      + "\n- \U{1F3F7} Topics: " + md.topics
      + "\n- \U{1F517} Similarity Score: " + formatScore(md.similarityScore) + "\n"
  }

  /** The Markdown block of one POP record: the heading, the text, then the
      metadata (`PopTemplateShape` states where each stands). */
  function PopTemplate(text: string, md: PopMetadata, formatScore: real -> string): string {
    PopHeading + (text + (PopMetadataLines(md, formatScore) + BlockEnd))
  }

  /** A POP block opens with the heading, shows the text right after it and
      closes with "---\n". */
  lemma PopTemplateShape(text: string, md: PopMetadata, formatScore: real -> string)
    ensures var block := PopTemplate(text, md, formatScore);
            && Framed(block, PopHeading)
            && |PopHeading| + |text| <= |block|
            && block[|PopHeading|..|PopHeading| + |text|] == text
  {
    ShortLayout(PopHeading, text, PopMetadataLines(md, formatScore));
  }

  /** The block of record `r` as `render_pop_markdown` writes it. */
  function PopBlock(r: PopContext, truncate: bool, maxLen: int, formatScore: real -> string): string {
    PopTemplate(Shown(r.text, truncate, maxLen), r.metaData, formatScore)
  }

  /** The blocks of `results`, one per record, in record order. */
  function PopBlocks(results: seq<PopContext>, truncate: bool, maxLen: int, formatScore: real -> string)
    : seq<string>
  {
    seq(|results|, i requires 0 <= i < |results| => PopBlock(results[i], truncate, maxLen, formatScore))
  }

  /** `render_pop_markdown`: the blocks of the records, in record order,
      joined with "\n"; no records give the empty string. */
  method RenderPopMarkdown(results: seq<PopContext>, truncate: bool, maxLen: int, formatScore: real -> string)
    returns (md: string)
    ensures md == Join(BlockSeparator, PopBlocks(results, truncate, maxLen, formatScore))
    ensures results == [] ==> md == ""
  {
    var mdOutput: seq<string> := [];
    for k := 0 to |results|
      invariant |mdOutput| == k
      invariant forall i :: 0 <= i < k ==> mdOutput[i] == PopBlock(results[i], truncate, maxLen, formatScore)
    {
      var r := results[k];
      var text := if truncate then Truncate(r.text, maxLen) else r.text;
      mdOutput := mdOutput + [PopTemplate(text, r.metaData, formatScore)];
    }
    assert mdOutput == PopBlocks(results, truncate, maxLen, formatScore);
    md := Join(BlockSeparator, mdOutput);
  }

  /** Block `k` of `blocks` stands at its offset in the blocks joined with
      "\n"; a separator follows it unless it is the last, and the last ends
      the document. */
  predicate PlacedInJoin(blocks: seq<string>, k: nat)
    requires k < |blocks|
  {
    var md := Join(BlockSeparator, blocks);
    var o := JoinOffset(BlockSeparator, blocks, k);
    && o + |blocks[k]| <= |md|
    && md[o..o + |blocks[k]|] == blocks[k]
    && (k + 1 < |blocks| ==>
          o + |blocks[k]| + 1 <= |md| && md[o + |blocks[k]|..o + |blocks[k]| + 1] == BlockSeparator)
    && (k + 1 == |blocks| ==> o + |blocks[k]| == |md|)
  }

  /** Every block of a joined document is placed as `PlacedInJoin` says. */
  lemma JoinedBlockAt(blocks: seq<string>, k: nat)
    requires k < |blocks|
    ensures PlacedInJoin(blocks, k)
  {
    JoinPlacesParts(BlockSeparator, blocks, k);
  }

  /** Every question/answer record has its block in the rendered document,
      in record order: block `k` is the block of record `k`, opens with the
      heading, closes with "---\n" and stands at its offset, followed by a
      separator unless it is the last, which ends the document. */
  lemma QaRenderPlacesBlocks(results: seq<QaPair>, truncate: bool, maxLen: int,
                             formatScore: real -> string, k: nat)
    requires k < |results|
    ensures var blocks := QaBlocks(results, truncate, maxLen, formatScore);
            && |blocks| == |results|
            && blocks[k] == QaBlock(results[k], truncate, maxLen, formatScore)
            && Framed(blocks[k], QaHeading)
            && PlacedInJoin(blocks, k)
  {
    var blocks := QaBlocks(results, truncate, maxLen, formatScore);
    var r := results[k];
    QaTemplateShape(Shown(r.question, truncate, maxLen), ShownAnswer(r.answer, truncate, maxLen),
                    r.metaData, formatScore);
    JoinedBlockAt(blocks, k);
  }

  /** Every POP record has its block in the rendered document, in record
      order, as for question/answer records. */
  lemma PopRenderPlacesBlocks(results: seq<PopContext>, truncate: bool, maxLen: int,
                              formatScore: real -> string, k: nat)
    requires k < |results|
    ensures var blocks := PopBlocks(results, truncate, maxLen, formatScore);
            && |blocks| == |results|
            && blocks[k] == PopBlock(results[k], truncate, maxLen, formatScore)
            && Framed(blocks[k], PopHeading)
            && PlacedInJoin(blocks, k)
  {
    var blocks := PopBlocks(results, truncate, maxLen, formatScore);
    var r := results[k];
    PopTemplateShape(Shown(r.text, truncate, maxLen), r.metaData, formatScore);
    JoinedBlockAt(blocks, k);
  }

  /** With truncation on and room for it, an empty answer is shown as the
      whole placeholder sentence. */
  lemma EmptyAnswerShowsPlaceholder(maxLen: int)
    requires |AnswerPlaceholder| <= maxLen
    ensures ShownAnswer("", true, maxLen) == AnswerPlaceholder
  {
  }

  /** The long-text example: 310 characters cut at the default 300 give at
      most 303 characters ending in "...". */
  lemma TruncateLongExample()
    ensures var r := Truncate(seq(310, _ => 'a'), DefaultMaxLen);
            |r| <= 303 && r[|r| - 3..] == Ellipsis
  {
    TruncateMeaning(seq(310, _ => 'a'), DefaultMaxLen);
  }
}
