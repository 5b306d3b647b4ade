# Retrieval context shaping in ajrasakha

This project models the part of `ajrasakha/functions.py` that turns retrieved
documents into context for the assistant. It has three parts:

- **Question/answer projection** (`process_nodes_qa`). Each retrieved node
  holds text stored as "Question: ...\n\nAnswer: ...", a metadata dictionary
  and a similarity score. Each node becomes a question/answer record. The text
  is split at the first "\n\nAnswer:". The first "Question:" in the part
  before it is dropped, wherever it stands, both parts are stripped, and metadata keys that are missing get
  fixed sentinel values.
- **POP projection** (`process_nodes_pop`). Each package-of-practices node
  becomes a record with the node text verbatim. Its page number, source and
  topics (from "headings") are looked up with defaults.
- **Truncation and Markdown rendering** (`_truncate`, `render_qa_markdown`,
  `render_pop_markdown`). Long texts are cut to `max_len` characters, stripped
  of trailing whitespace and marked with "...". Each record becomes one
  fixed-template Markdown block. The blocks are joined with "\n".

The project has three modules:

- `PyStrings` (`pystrings.dfy`) models the Python `str` operations the code
  uses over `seq<char>`: `in`, `split(sep, 1)`, `replace(x, y, 1)`, `strip`
  and `rstrip` with Python's full `isspace` table, and `join`. `Find` (the
  first occurrence, as `str.find` gives it) is the helper behind `in`,
  `split` and `replace`, and `LStrip` is the helper behind `strip`; the code
  calls neither `find` nor `lstrip` itself. Each operation comes with lemmas
  that characterise it.
- `Projection` (`projection.dfy`) holds the record datatypes, the per-node
  functions and the two projection loops as methods.
- `Render` (`render.dfy`) holds the truncation, the block templates and the
  two rendering loops as methods.

Three details of the code's behaviour are modelled as written:

- Text without "\n\nAnswer:" becomes the question raw, not stripped, with an
  empty answer (ajrasakha/functions.py:34).
- The "Answer not available" placeholder is used only when truncation is on;
  without it an empty answer stays empty (ajrasakha/functions.py:85).
- Blocks are joined with a single "\n" (ajrasakha/functions.py:101). A blank
  line appears between blocks because every block ends with "---\n".

Both projection loops and both rendering loops are methods with loop
invariants. Each one is proved equal to a per-element specification function.
The lemmas then state what those functions mean.

## Model

| member | source | states |
|---|---|---|
| Projection.ProcessNodesQa | ajrasakha/functions.py:29-52 | exactly one record per node, in node order; record `i` is built from node `i` alone (`QaPairOf`) |
| Projection.SplitQa | ajrasakha/functions.py:33-38 | without "\n\nAnswer:" the question is the raw, unstripped text and the answer is ""; otherwise the text is cut at the delimiter's first occurrence, the first "Question:" is dropped from the part before it, and both parts are stripped |
| Projection.SplitQaAtFirstDelimiter | ajrasakha/functions.py:35-38 | when the delimiter first occurs right after `before`, the answer is all of the rest, stripped, including any later delimiters |
| Projection.LeadingLabelRemoved | ajrasakha/functions.py:37 | only the first "Question:" is removed; any later one stays in the question |
| Projection.QaFormatRoundTrip | ajrasakha/functions.py:30-38 | the stored format "Question: q\n\nAnswer: a" is split back into `q` and `a` when both are stripped and `q` holds no delimiter |
| Projection.DelimiterFollowsQuestion | ajrasakha/functions.py:35-36 | in the stored format, no delimiter starts before the one that follows a delimiter-free question |
| Projection.SplitAfterQuestion | ajrasakha/functions.py:35-38 | in the stored format the split happens after the question |
| Projection.QuestionRoundTrip | ajrasakha/functions.py:37 | dropping the label from "Question: q" and stripping gives `q` |
| Projection.PaddedRoundTrip | ajrasakha/functions.py:38 | stripping " " + a gives back a stripped `a` |
| Projection.QaMetadataOf | ajrasakha/functions.py:43-49 | each field is the node's value for its key when the key is present and its sentinel ("Not Available", "Source Not Available") when it is not; the score is the node's score, unchanged |
| Projection.ProcessNodesPop | ajrasakha/functions.py:57-71 | exactly one record per node, in node order; record `i` is built from node `i` alone (`PopContextOf`) |
| Projection.PopContextOf | ajrasakha/functions.py:61-68 | the text is the node text verbatim and the score passes through |
| Projection.PopMetadataOf | ajrasakha/functions.py:63-68 | page number, source and topics are the values of "page_no", "source" and "headings" when present; otherwise they are "Not Available", "https://linknotavailable.com" and "No topics available"; the score passes through |
| Projection.EmptyMetadataGivesSentinels | ajrasakha/functions.py:44-47 | a node without metadata gets every sentinel; the same holds for POP records (lines 64-66) |
| Render.Truncate | ajrasakha/functions.py:75-77 | for `max_len >= 0` the result has at most `max_len + 3` characters; non-empty text stays non-empty |
| Render.TruncateMeaning | ajrasakha/functions.py:77 | text of at most `max_len` characters is returned unchanged; otherwise the result is a prefix of Python's `text[:max_len]` that drops exactly its trailing whitespace, followed by "..." |
| Render.SliceLength | ajrasakha/functions.py:77 | the length of Python's `text[:n]`, negative `n` counting from the end |
| Render.TruncateLongExample | ajrasakha/functions.py:75-77 | 310 characters cut at the default 300 give at most 303 characters ending in "..." |
| Render.ShownAnswer | ajrasakha/functions.py:85 | with truncation an empty answer becomes the truncated placeholder "Answer not available" and any other answer is truncated; without truncation the raw answer is used, even when empty |
| Render.EmptyAnswerShowsPlaceholder | ajrasakha/functions.py:85 | with room for it, an empty answer is shown as the whole placeholder |
| Render.QaTemplateShape | ajrasakha/functions.py:87-100 | a question/answer block opens with its heading, has the question right after the heading and the answer right after the answer heading, and ends with "---\n" |
| Render.PopTemplateShape | ajrasakha/functions.py:110-120 | a POP block opens with its heading, has the text right after it and ends with "---\n" |
| Render.RenderQaMarkdown | ajrasakha/functions.py:80-101 | the result is the records' blocks joined with "\n", in record order; no records give "" |
| Render.QaRenderPlacesBlocks | ajrasakha/functions.py:82-101 | there is one block per record and none is dropped; block `k` is record `k`'s block, framed by its heading and "---\n", and stands at its offset in the output, followed by "\n" unless it is the last, which ends the output |
| Render.RenderPopMarkdown | ajrasakha/functions.py:104-121 | the result is the records' blocks joined with "\n", in record order; no records give "" |
| Render.PopRenderPlacesBlocks | ajrasakha/functions.py:106-121 | as for question/answer records, with the POP heading |
| Render.JoinedBlockAt | ajrasakha/functions.py:101 | every block of the joined document stands at its offset, followed by the separator unless it is the last, which ends the document |
| Render.Layout | ajrasakha/functions.py:87-100 | where the heading, the two inserted texts and the block end stand in a block |
| Render.ShortLayout | ajrasakha/functions.py:110-120 | where the heading, the inserted text and the block end stand in a block |
| PyStrings.Find | ajrasakha/functions.py:35 | the lowest index where the pattern occurs, or none when it does not occur |
| PyStrings.FindFrom | ajrasakha/functions.py:35 | the scan behind `Find`: the first occurrence at or after an index, given none before it |
| PyStrings.FirstOccurrenceIsFind | ajrasakha/functions.py:35 | the first occurrence is unique, and it is what `find` reports |
| PyStrings.Split1 | ajrasakha/functions.py:36 | `split(sep, 1)` gives one part, the text itself, exactly when `sep` is absent; otherwise it gives the parts before and after the first occurrence, which rebuild the text |
| PyStrings.Split1Join | ajrasakha/functions.py:36 | joining the parts of `split(sep, 1)` with `sep` gives back the text |
| PyStrings.ReplaceFirst | ajrasakha/functions.py:37 | `replace(x, y, 1)` leaves text without `x` unchanged and otherwise replaces only the first occurrence |
| PyStrings.LStrip | ajrasakha/functions.py:37-38 | `lstrip` never lengthens |
| PyStrings.LStripMeaning | ajrasakha/functions.py:37-38 | `lstrip` keeps a suffix that does not start with whitespace and drops only whitespace |
| PyStrings.RStrip | ajrasakha/functions.py:77 | `rstrip` never lengthens |
| PyStrings.RStripMeaning | ajrasakha/functions.py:77 | `rstrip` keeps a prefix that does not end with whitespace and drops only whitespace |
| PyStrings.Strip | ajrasakha/functions.py:37-38 | `strip` never lengthens |
| PyStrings.StripMeaning | ajrasakha/functions.py:37-38 | `strip` keeps an inner slice with no whitespace at either end and drops only whitespace |
| PyStrings.StripIsUnique | ajrasakha/functions.py:37-38 | any such trim of a text is its `strip` |
| PyStrings.StrippedHasNoOuterWhitespace | ajrasakha/functions.py:37-38 | a stripped text has no whitespace at either end |
| PyStrings.StripIdempotent | ajrasakha/functions.py:37-38 | stripping twice is stripping once |
| PyStrings.StripIgnoresPadding | ajrasakha/functions.py:37-38 | whitespace added at either end does not change the stripped text |
| PyStrings.Join | ajrasakha/functions.py:101 | joining no parts gives "" and joining one part gives that part |
| PyStrings.JoinPlacesParts | ajrasakha/functions.py:101 | `join` keeps every part in order at its offset, with the separator between consecutive parts and after none but those |

## Left out

- `get_retriever` (ajrasakha/functions.py:12-25) is not modelled. It only wires up the HuggingFace embedding model, the MongoDB Atlas vector store and the llama_index retriever, which are foreign library calls with network and disk I/O.
- The `:.2f` formatting of the similarity score is the function parameter `formatScore: real -> string` of the rendering members. Floating-point formatting is not modelled, and the score is a `real` that the model never inspects.
- `async` has no effect, because none of the functions awaits anything. Every operation is modelled as sequential.
- The classes from `models` (`ContextQuestionAnswerPair`, `QuestionAnswerPairMetaData`, `ContextPOP`, `POPMetaData`) and llama_index's `NodeWithScore` are outside this file. They are modelled as datatypes holding only the fields the code uses. Any validation those classes perform is not modelled.
- Metadata is a `map<string, string>`. Values of other types, such as a numeric `page_no` that would end up in the record and be printed through `str()`, are not modelled.
- Render.Truncate: the bound of at most `max_len + 3` characters is stated only for `max_len >= 0`. With a negative `max_len`, Python's `text[:max_len]` counts from the end and can keep more. `TruncateMeaning` states what happens for every `max_len`.
- Python strings are sequences of code points, and Dafny `char` values are Unicode scalar values. Surrogate code points, which a Python `str` can hold and a Dafny `string` cannot, are not modelled.
