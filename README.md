# Evidence preparation of the web-search agent, in Dafny

This project models the evidence-preparation core of `llm_web_search_agent`,
a Spring/langchain4j service that answers questions from web search results.
The core consists of two Java classes.

- `CommonUtility` holds:
  - token accounting;
  - the wrapper around the LLM relevance filter;
  - page augmentation, which adds the fetched page text to a search snippet;
  - two greedy token-budget packers under the 8000-token ceiling: a word
    splitter and a content batcher.
- `PreprocessingContentRetriever` handles each web-search hit in three steps:
  1. It augments the hit with its page text.
  2. If the hit is estimated at more than 1000 tokens, it compresses it
     through the shared embedding store. Compression splits the text into
     sentences, keeps those longer than 10 characters, cuts them into groups
     of 15 and ingests each group as one document. It then queries the store
     with the question, clears the store, and joins the hits with spaces.
  3. It passes the result through the relevance filter.

  Null and blank results are dropped.

The langchain4j `TextSegment` and `Document` constructors throw an
`IllegalArgumentException` for a text whose `trim()` is empty
(`IsRejectedText`). The model follows each such throw to the handler that
catches it.

The tokenizer, the page fetch, the relevance assistant, the web search and the
embedding store's ingestion, similarity search and removal are outside code.
They enter the model as function-valued parameters: `Collaborators`,
`StoreBehaviour` and the retriever's `webSearch`. Every property below holds
for every behaviour of that outside code.

Modules, one for each part of the program:

- `Wrappers`: `Option`.
- `JavaStrings`: the Java string operations the core relies on.
  - `StringUtils.isBlank` uses `Character.isWhitespace`.
  - `String.split("\\s+")` uses the six-character regex class `\s`.
  - `String.trim` strips characters up to U+0020.
  - `String.join` is modelled as well.
- `Packing`: a specification of one greedy left-to-right packing pass, and
  the facts that the splitter and the batcher share.
  - The groups flatten back to the input.
  - None is empty.
  - Each fits the ceiling unless it is a lone oversized element.
  - Each was closed only because the next element did not fit.
  - Such a packing is unique.
- `Subsequences`: order-preserving selection.
- `CommonUtility`: the first class. The two packers are imperative methods.
  Their loop invariants are tied to `Packing`.
- `EmbeddingStore`: the in-memory store, as a class holding the ingested
  documents.
- `PreprocessingContentRetriever`: the pieces of the pipeline as functions,
  the same pipeline as a `Retriever` class whose methods change the store,
  and the lemmas about the pipeline.

Where the code differs from its documented intent, the model follows the code.
These are the cases:

- When the hit has no url, the page fetch fails or the page is blank, the
  augmented text is `""`. The original snippet is not kept. The
  `TextSegment` constructor refuses `""`, and `extractWebPageContentFromUrl`
  does not catch that throw. It ends the whole stream in `getWebContents`,
  whose handler returns the empty list. So one hit without a page empties
  the result for every hit (`UnfetchedHitAborts`, `NoPageFetched`), and the
  documents that earlier hits' compressions left stay in the store.
- The store is cleared only after a successful query. When the query fails,
  the documents just ingested stay in the store, and the next item's query
  sees them (`CompressionLeaksOnQueryFailure`). An empty store after every
  compression holds only when the query and the clear succeed
  (`CompressionClearsStore`).
- `retrieve` returns the pipeline's result as it is. The token-reduction step
  is commented out, so nothing bounds the total token count of the result.
- A text of `\s` characters only has no `\s+` words, so the splitter emits no part at
  all. It emits at least one part exactly when there is a word
  (`WordSplitProperties`).
- When the first word alone is over 8000 tokens, the splitter's first part
  has empty text. Its `TextSegment` constructor throws, so the splitter fails
  (`SplitRefusesLeadingEmptyPart`). The empty text fails too
  (`SplitRefusesEmptyText`).
- The splitter bounds the sum of its per-word estimates. It does not bound
  the estimate of the joined text.

## Model

| member | source | states |
|---|---|---|
| `CommonUtility.CalculateTokenCount` | src/main/java/com/smartagent/smartAgent/utility/CommonUtility.java:93-97 | The token count of the empty list is 0. |
| `CommonUtility.ContentTokenCount` | src/main/java/com/smartagent/smartAgent/utility/CommonUtility.java:99-101 | The single-item count equals the list count of the one-item list. |
| `CommonUtility.TokenCountAppend` | src/main/java/com/smartagent/smartAgent/utility/CommonUtility.java:93-97 | The list token count is additive over concatenation. |
| `CommonUtility.TokenCountCons` | src/main/java/com/smartagent/smartAgent/utility/CommonUtility.java:93-101 | The list count is the single-item count of the first item plus the count of the rest, so it is the sum of the per-item estimates. |
| `CommonUtility.FilterRelevantData` | src/main/java/com/smartagent/smartAgent/utility/CommonUtility.java:42-60 | There is a result exactly when all of these hold: the input text is not blank; the assistant returns without throwing; its extraction is not blank; and the `TextSegment` constructor accepts the extraction (a refusal is caught by the same handler). The result is then the extraction under the input's metadata. |
| `CommonUtility.ExtractWebPageContentFromUrl` | src/main/java/com/smartagent/smartAgent/utility/CommonUtility.java:68-84 | With no url, a failed fetch or a blank page, the `TextSegment` constructor refuses the text `""`, and the call throws (`None`). Otherwise the text is the snippet, a newline and the page text, which is not blank. The call succeeds with that text under the unchanged metadata exactly when the constructor accepts it. |
| `CommonUtility.VisiblePageIsKept` | src/main/java/com/smartagent/smartAgent/utility/CommonUtility.java:73-83 | An available page with a character above U+0020 always gives an augmented item. |
| `CommonUtility.SplitContentIntoSmallerParts` | src/main/java/com/smartagent/smartAgent/utility/CommonUtility.java:110-138 | Produces `SplitParts`. There is one part per group of `WordGroups` of the `\s+` words, each its group's builder text, trimmed, under the content's metadata; if any of those parts is empty, its `TextSegment` constructor throws and the result is `None`. |
| `CommonUtility.WordGroups` | src/main/java/com/smartagent/smartAgent/utility/CommonUtility.java:117-135 | The splitter's word groups: they concatenate back to the words, and the first group is empty exactly when the first word alone is over 8000. |
| `CommonUtility.SplitParts` | src/main/java/com/smartagent/smartAgent/utility/CommonUtility.java:117-135 | When the split succeeds, there is one part per word group, in order. Each part is its group's builder text, trimmed, under the content's metadata, and no part is refused by the `TextSegment` constructor. |
| `CommonUtility.IsRejectedText` | src/main/java/com/smartagent/smartAgent/utility/CommonUtility.java:125 | The `TextSegment` and `Document` constructors refuse a text exactly when every character of it is up to U+0020. |
| `CommonUtility.WordGroupsIsSplit` | src/main/java/com/smartagent/smartAgent/utility/CommonUtility.java:117-135 | `WordGroups` is a word split: first a leading empty group exactly when the first word alone is over 8000, then a greedy packing of the words under 8000. |
| `CommonUtility.WordSplitUnique` | src/main/java/com/smartagent/smartAgent/utility/CommonUtility.java:117-135 | Every word split equals `WordGroups`, so the loop's groups are fixed by the words and the estimates. |
| `CommonUtility.SplitKeepsWord` | src/main/java/com/smartagent/smartAgent/utility/CommonUtility.java:120-122 | A word that fits joins the open part, and the closed and open groups remain a greedy packing of the words read so far. |
| `CommonUtility.SplitStartsPart` | src/main/java/com/smartagent/smartAgent/utility/CommonUtility.java:123-129 | A word that does not fit closes the open part and opens the next one. On the first word, the part it closes is the empty one. |
| `CommonUtility.SplitFinish` | src/main/java/com/smartagent/smartAgent/utility/CommonUtility.java:132-135 | After the loop, the builder is non-empty exactly when there were words. Emitting it completes the split. |
| `CommonUtility.WordSplitProperties` | src/main/java/com/smartagent/smartAgent/utility/CommonUtility.java:117-135 | The splitter's groups concatenate to the `\s+` word list, so no word is lost, duplicated or reordered. When no word alone exceeds 8000, no group's per-word estimates exceed 8000. There are groups exactly when there are words. |
| `CommonUtility.PartText` | src/main/java/com/smartagent/smartAgent/utility/CommonUtility.java:121-127 | A part's text is its words joined with single spaces, then trimmed. It is exactly that join when the first word starts and the last word ends above U+0020. |
| `CommonUtility.SplitRefusesLeadingEmptyPart` | src/main/java/com/smartagent/smartAgent/utility/CommonUtility.java:123-125 | When the first word alone is over 8000, the first part is empty and the splitter fails. |
| `CommonUtility.SplitRefusesEmptyText` | src/main/java/com/smartagent/smartAgent/utility/CommonUtility.java:117-134 | The empty text gives one empty word, whose part is empty, so the splitter fails. |
| `CommonUtility.SplitAcceptsVisibleWords` | src/main/java/com/smartagent/smartAgent/utility/CommonUtility.java:117-135 | When the first word fits and every word has a character above U+0020, the splitter succeeds with the parts of `WordGroups`. |
| `CommonUtility.CreateOptimalBatchesUnderTokenLimit` | src/main/java/com/smartagent/smartAgent/utility/CommonUtility.java:146-176 | The batches are a greedy packing of the items under 8000: each batch is closed as soon as the next item would push its sum past the ceiling. They are also the result of the functional pass `GreedyPack`. |
| `CommonUtility.BatchKeepsItem` | src/main/java/com/smartagent/smartAgent/utility/CommonUtility.java:155-157 | An item that fits joins the open batch. The running count stays the batch's token count, and the batches remain a greedy packing of the items read. |
| `CommonUtility.BatchStartsBatch` | src/main/java/com/smartagent/smartAgent/utility/CommonUtility.java:158-167 | An item that does not fit closes the open batch, which is empty only before the first item, and the item opens a new batch. |
| `CommonUtility.BatchFinish` | src/main/java/com/smartagent/smartAgent/utility/CommonUtility.java:170-173 | The last batch is non-empty exactly when there were items. Adding it completes the packing. |
| `CommonUtility.BatchBounds` | src/main/java/com/smartagent/smartAgent/utility/CommonUtility.java:151-173 | Every batch is non-empty, and the batches flatten back to the items. A batch of two or more items stays within 8000. A batch over 8000 is a lone item that alone is over 8000. Each batch plus the first item of the next one is over 8000. |
| `CommonUtility.FiveItemsOfTwoThousand` | src/main/java/com/smartagent/smartAgent/utility/CommonUtility.java:146-176 | Five items of 2000 tokens each are batched as the first four (8000 exactly) and then the fifth. |
| `Packing.GreedyPackingUnique` | src/main/java/com/smartagent/smartAgent/utility/CommonUtility.java:151-173 | Two greedy packings of the same input under the same costs are equal, so the pass has only one possible outcome. |
| `Packing.GroupEndBounds` | src/main/java/com/smartagent/smartAgent/utility/CommonUtility.java:155-166 | The first group of the functional pass fits unless it is a lone element. It ends at the input's end or just before an element that does not fit. |
| `Packing.PackingCons` | src/main/java/com/smartagent/smartAgent/utility/CommonUtility.java:155-166 | A fitting, non-empty group that cannot take the next element, placed in front of a greedy packing of the rest, gives a greedy packing of the whole. |
| `Packing.GreedyPack` | src/main/java/com/smartagent/smartAgent/utility/CommonUtility.java:151-173 | The functional greedy pass: its groups laid end to end are the input, and none is empty. |
| `Packing.GreedyPackIsGreedy` | src/main/java/com/smartagent/smartAgent/utility/CommonUtility.java:151-173 | The functional pass `GreedyPack` meets the greedy-packing specification. |
| `Packing.PackingIsGreedyPack` | src/main/java/com/smartagent/smartAgent/utility/CommonUtility.java:151-173 | Every greedy packing equals `GreedyPack`. |
| `Packing.FirstGroupMaximal` | src/main/java/com/smartagent/smartAgent/utility/CommonUtility.java:155-166 | No greedy packing has a shorter first group than another greedy packing of the same input. |
| `Packing.PackingHead` | src/main/java/com/smartagent/smartAgent/utility/CommonUtility.java:155-166 | The first group is a non-empty prefix of the input. It fits unless it is a lone element. It is the whole input when it is the only group, and otherwise the next element would have overflowed it. |
| `Packing.PackingStart` | src/main/java/com/smartagent/smartAgent/utility/CommonUtility.java:155-166 | The first element alone is a greedy packing of itself. |
| `Packing.PackingExtend` | src/main/java/com/smartagent/smartAgent/utility/CommonUtility.java:155-157 | Adding an element that fits to the open group keeps the packing greedy. |
| `Packing.PackingClose` | src/main/java/com/smartagent/smartAgent/utility/CommonUtility.java:158-167 | Closing the open group on an element that does not fit, and opening a new group with that element, keeps the packing greedy. |
| `Packing.PackingOverflowIsSingleton` | src/main/java/com/smartagent/smartAgent/utility/CommonUtility.java:158-166 | A group over the ceiling is a lone element that alone is over it. |
| `Packing.PackingAllFit` | src/main/java/com/smartagent/smartAgent/utility/CommonUtility.java:118-129 | When no element alone exceeds the ceiling, no group does. |
| `Packing.PackingOfEmpty` | src/main/java/com/smartagent/smartAgent/utility/CommonUtility.java:170-173 | The only greedy packing of no elements is the empty one. |
| `Packing.SumAppend` | src/main/java/com/smartagent/smartAgent/utility/CommonUtility.java:93-97 | A sum of estimates is additive over concatenation. |
| `Packing.FlattenAppend` | src/main/java/com/smartagent/smartAgent/utility/CommonUtility.java:146-176 | Flattening distributes over the concatenation of group lists. |
| `JavaStrings.Words` | src/main/java/com/smartagent/smartAgent/utility/CommonUtility.java:117 | The maximal runs outside `\s` are non-empty and contain no `\s`. |
| `JavaStrings.WordsFlatten` | src/main/java/com/smartagent/smartAgent/utility/CommonUtility.java:117 | The words laid end to end are the text with every `\s` character removed (`DropRegexSpaces`, an independent character-by-character definition). So no character outside `\s` is lost, duplicated or reordered. |
| `JavaStrings.WordsSplitAtSpace` | src/main/java/com/smartagent/smartAgent/utility/CommonUtility.java:117 | A `\s` character separates words: the words of `a`, a `\s` character and `b` are the words of `a` followed by those of `b`. No word spans a `\s` character. |
| `JavaStrings.WordsOfWord` | src/main/java/com/smartagent/smartAgent/utility/CommonUtility.java:117 | A non-empty text without `\s` is a single word. |
| `JavaStrings.DropRegexSpaces` | src/main/java/com/smartagent/smartAgent/utility/CommonUtility.java:117 | The reference for the word split: the text with every `\s` character removed. It contains no `\s`. |
| `JavaStrings.SplitOnWhitespace` | src/main/java/com/smartagent/smartAgent/utility/CommonUtility.java:117 | `String.split("\\s+")`: no piece contains `\s`, and the pieces laid end to end are the text with every `\s` character removed. |
| `JavaStrings.SplitOnWhitespaceShape` | src/main/java/com/smartagent/smartAgent/utility/CommonUtility.java:117 | The `\s+` pieces contain no `\s`, and only the first may be empty. `""` gives `[""]`. A text that starts outside `\s` gives a non-empty first piece. There are no pieces exactly when the text is non-empty and consists only of `\s`. |
| `JavaStrings.WordsEmpty` | src/main/java/com/smartagent/smartAgent/utility/CommonUtility.java:117 | There are no words exactly when every character is in `\s`. |
| `JavaStrings.TrimStartAppend` | src/main/java/com/smartagent/smartAgent/utility/CommonUtility.java:125 | Leading trimming stops inside the first string, unless that string is all characters up to U+0020. |
| `JavaStrings.TrimSpaceAppended` | src/main/java/com/smartagent/smartAgent/utility/CommonUtility.java:125 | A trailing space does not change the trimmed text. |
| `JavaStrings.TrimClean` | src/main/java/com/smartagent/smartAgent/utility/CommonUtility.java:134 | A text whose first and last characters are above U+0020 is its own trim. |
| `JavaStrings.Trim` | src/main/java/com/smartagent/smartAgent/utility/CommonUtility.java:125 | `String.trim`: the result is empty exactly when every character is up to U+0020. |
| `JavaStrings.TrimStartVisible` | src/main/java/com/smartagent/smartAgent/utility/CommonUtility.java:125 | Leading trimming empties a text of characters up to U+0020. Otherwise it stops at a character above U+0020. |
| `JavaStrings.TrimEndKeepsFirst` | src/main/java/com/smartagent/smartAgent/utility/CommonUtility.java:125 | Trailing trimming never removes a first character above U+0020. |
| `JavaStrings.IsBlank` | src/main/java/com/smartagent/smartAgent/retriever/PreprocessingContentRetriever.java:110 | `StringUtils.isBlank`: every character is a `Character.isWhitespace` character. |
| `JavaStrings.BlankAppend` | src/main/java/com/smartagent/smartAgent/utility/CommonUtility.java:76-77 | A concatenation is blank exactly when both of its parts are blank. |
| `JavaStrings.JoinBlank` | src/main/java/com/smartagent/smartAgent/retriever/PreprocessingContentRetriever.java:146 | A join with a blank separator is blank exactly when every joined text is blank. |
| `JavaStrings.JoinWith` | src/main/java/com/smartagent/smartAgent/retriever/PreprocessingContentRetriever.java:146 | `String.join`: the texts with the separator between each two. |
| `JavaStrings.JoinSnoc` | src/main/java/com/smartagent/smartAgent/retriever/PreprocessingContentRetriever.java:160 | Joining one more text adds the separator and that text. |
| `JavaStrings.JoinEdges` | src/main/java/com/smartagent/smartAgent/retriever/PreprocessingContentRetriever.java:160 | A join starts with the first text and ends with the last. |
| `CommonUtility.SpacedIsJoin` | src/main/java/com/smartagent/smartAgent/utility/CommonUtility.java:121 | The builder text of a non-empty word list is the words joined with single spaces, plus one trailing space. |
| `PreprocessingContentRetriever.SentenceEnd` | src/main/java/com/smartagent/smartAgent/retriever/PreprocessingContentRetriever.java:133 | The index of the first `.`, `!` or `?`, which is the first place where the lookbehind can match, or the length when there is none. |
| `PreprocessingContentRetriever.SpaceRun` | src/main/java/com/smartagent/smartAgent/retriever/PreprocessingContentRetriever.java:133 | The length of the `\s` run that `\s*` consumes. |
| `PreprocessingContentRetriever.SplitIntoSentences` | src/main/java/com/smartagent/smartAgent/retriever/PreprocessingContentRetriever.java:133 | There is at least one piece, and `""` gives `[""]`. Every piece but the last ends in a sentence end. |
| `PreprocessingContentRetriever.SentencePieces` | src/main/java/com/smartagent/smartAgent/retriever/PreprocessingContentRetriever.java:133 | A sentence end can occur only as the last character of a piece. Pieces after the first are non-empty and do not start with `\s`. A non-empty text gives no empty piece. |
| `PreprocessingContentRetriever.SentencesFlatten` | src/main/java/com/smartagent/smartAgent/retriever/PreprocessingContentRetriever.java:133 | The pieces, concatenated, are proved equal to `DropSpacesAfterEnds`, an independent character-by-character definition: the text with each `\s` run that follows a sentence end removed. |
| `PreprocessingContentRetriever.FilterSentences` | src/main/java/com/smartagent/smartAgent/retriever/PreprocessingContentRetriever.java:134-136 | Every kept piece is longer than 10 characters. |
| `PreprocessingContentRetriever.FilterSentencesCounts` | src/main/java/com/smartagent/smartAgent/retriever/PreprocessingContentRetriever.java:134-136 | Every piece longer than 10 characters is kept as often as it occurs, and no other piece is kept. |
| `PreprocessingContentRetriever.FilterSentencesInOrder` | src/main/java/com/smartagent/smartAgent/retriever/PreprocessingContentRetriever.java:134-136 | The kept pieces are a subsequence of the pieces, so the original order is kept. |
| `PreprocessingContentRetriever.GroupCountBounds` | src/main/java/com/smartagent/smartAgent/retriever/PreprocessingContentRetriever.java:138-139 | For every group index below `(n + 14) / 15`, the `subList` bounds are valid and the window is not empty. |
| `PreprocessingContentRetriever.GroupSentences` | src/main/java/com/smartagent/smartAgent/retriever/PreprocessingContentRetriever.java:138-140 | There are `(n + 14) / 15` groups, that is, n / 15 rounded up. |
| `PreprocessingContentRetriever.GroupSizes` | src/main/java/com/smartagent/smartAgent/retriever/PreprocessingContentRetriever.java:138-140 | There are no groups exactly when there are no sentences. Every group but the last has 15 sentences, and the last has between 1 and 15. |
| `PreprocessingContentRetriever.GroupsPrefixFlatten` | src/main/java/com/smartagent/smartAgent/retriever/PreprocessingContentRetriever.java:138-140 | The first k groups, concatenated, are the first min(15 k, n) sentences. |
| `PreprocessingContentRetriever.GroupsFlatten` | src/main/java/com/smartagent/smartAgent/retriever/PreprocessingContentRetriever.java:138-140 | The groups, concatenated in order, are the filtered sentences. |
| `PreprocessingContentRetriever.Joined` | src/main/java/com/smartagent/smartAgent/retriever/PreprocessingContentRetriever.java:158-161 | There is one document per group. |
| `PreprocessingContentRetriever.GroupedDocuments` | src/main/java/com/smartagent/smartAgent/retriever/PreprocessingContentRetriever.java:138-142 | There are `(n + 14) / 15` documents. Document i is group i joined with `" "`. Each group has 1 to 15 sentences, and together the groups cover the sentences in order. |
| `PreprocessingContentRetriever.IngestAll` | src/main/java/com/smartagent/smartAgent/retriever/PreprocessingContentRetriever.java:158-166 | Ingestion keeps the earlier documents first and adds at most one document per group. |
| `PreprocessingContentRetriever.IngestAllAppends` | src/main/java/com/smartagent/smartAgent/retriever/PreprocessingContentRetriever.java:158-166 | Ingestion only appends. The earlier documents stay first, and the added ones are a subsequence of the group documents, in order. |
| `PreprocessingContentRetriever.IngestAllCompose` | src/main/java/com/smartagent/smartAgent/retriever/PreprocessingContentRetriever.java:158-166 | A failed ingestion is swallowed: ingesting `a` then `c` is ingesting `c` from wherever `a` left the store, so the later groups are still ingested whatever failed before. |
| `PreprocessingContentRetriever.IngestAllSucceeds` | src/main/java/com/smartagent/smartAgent/retriever/PreprocessingContentRetriever.java:158-166 | When the store never fails, every group document that the `Document` constructor accepts is appended, in group order. |
| `PreprocessingContentRetriever.Compress` | src/main/java/com/smartagent/smartAgent/retriever/PreprocessingContentRetriever.java:131-151 | After a compression the store is either empty or holds its earlier documents first. |
| `PreprocessingContentRetriever.CompressionClearsStore` | src/main/java/com/smartagent/smartAgent/retriever/PreprocessingContentRetriever.java:174-178 | A successful query followed by a successful clear leaves the store empty, and the compressed text is the hits joined with `" "`. |
| `PreprocessingContentRetriever.CompressedTextBlank` | src/main/java/com/smartagent/smartAgent/retriever/PreprocessingContentRetriever.java:142-146 | After a successful query, the compressed text is blank exactly when every hit is blank. |
| `PreprocessingContentRetriever.CompressionQueryFailure` | src/main/java/com/smartagent/smartAgent/retriever/PreprocessingContentRetriever.java:174-183 | A failed query gives the empty text and no clear happens. The store keeps its earlier documents, followed by those of this text that were ingested. |
| `PreprocessingContentRetriever.CompressionLeaksOnQueryFailure` | src/main/java/com/smartagent/smartAgent/retriever/PreprocessingContentRetriever.java:174-183 | When every ingestion succeeds but the query fails, all the documents of this text that the `Document` constructor accepts stay in the store. |
| `PreprocessingContentRetriever.Process` | src/main/java/com/smartagent/smartAgent/retriever/PreprocessingContentRetriever.java:105-121 | On either path, a processed item has non-blank text and the metadata of the extracted item. |
| `PreprocessingContentRetriever.Collect` | src/main/java/com/smartagent/smartAgent/retriever/PreprocessingContentRetriever.java:84-94 | A stream ended by a throw returns nothing. There are never more items than hits. |
| `PreprocessingContentRetriever.WebContents` | src/main/java/com/smartagent/smartAgent/retriever/PreprocessingContentRetriever.java:82-96 | Every item returned has non-blank text. |
| `PreprocessingContentRetriever.ShortItemBypassesStore` | src/main/java/com/smartagent/smartAgent/retriever/PreprocessingContentRetriever.java:107-116 | An item estimated at 1000 tokens or fewer goes straight to the relevance filter, and the store is untouched. |
| `PreprocessingContentRetriever.LongItemIsCompressed` | src/main/java/com/smartagent/smartAgent/retriever/PreprocessingContentRetriever.java:107-114 | An item over 1000 tokens is compressed, and the store ends as the compression leaves it. A compressed text that is blank, or that the `TextSegment` constructor refuses, gives no item. Otherwise the filter sees the compressed text under the item's metadata. |
| `PreprocessingContentRetriever.CollectOutput` | src/main/java/com/smartagent/smartAgent/retriever/PreprocessingContentRetriever.java:84-91 | Each output item has non-blank text. There are no more items than hits, and their metadata is a subsequence of the hits' metadata (hit order is kept). |
| `PreprocessingContentRetriever.CollectStep` | src/main/java/com/smartagent/smartAgent/retriever/PreprocessingContentRetriever.java:86-94 | After a throw, a further hit changes nothing. A hit whose augmentation throws ends the stream with the empty list, and the store stays as the earlier hits left it. Otherwise the item is what processing the augmented hit returns, against the store that the earlier hits left. It carries the hit's metadata and is added exactly when it is non-null with non-blank text. The store ends as that processing leaves it. |
| `PreprocessingContentRetriever.OutputStep` | src/main/java/com/smartagent/smartAgent/retriever/PreprocessingContentRetriever.java:89-90 | Keeping a non-null, non-blank item and dropping any other item both preserve the output invariants. |
| `PreprocessingContentRetriever.AllShortAndRelevant` | src/main/java/com/smartagent/smartAgent/retriever/PreprocessingContentRetriever.java:84-91 | When every hit is augmented, short and judged relevant, the stream does not throw. Output item i is the relevant extraction of hit i's augmented text, so there is one item per hit, in hit order. The store is never used. |
| `PreprocessingContentRetriever.NothingRelevant` | src/main/java/com/smartagent/smartAgent/retriever/PreprocessingContentRetriever.java:84-91 | When the assistant never returns a usable extraction, the output is empty. |
| `PreprocessingContentRetriever.NoPageFetched` | src/main/java/com/smartagent/smartAgent/retriever/PreprocessingContentRetriever.java:84-94 | When the first hit has no available page, the result is empty and the store is untouched. |
| `PreprocessingContentRetriever.UnfetchedHitAborts` | src/main/java/com/smartagent/smartAgent/retriever/PreprocessingContentRetriever.java:84-94 | The first hit whose augmentation throws makes the whole result empty. The store keeps what the hits before it left. |
| `PreprocessingContentRetriever.CollectNotAborted` | src/main/java/com/smartagent/smartAgent/retriever/PreprocessingContentRetriever.java:86-91 | While every hit is augmented, the stream does not throw. |
| `PreprocessingContentRetriever.AbortPersists` | src/main/java/com/smartagent/smartAgent/retriever/PreprocessingContentRetriever.java:86-94 | Once a prefix of the hits has thrown, the later hits change neither the result nor the store. |
| `PreprocessingContentRetriever.Retriever.Retrieve` | src/main/java/com/smartagent/smartAgent/retriever/PreprocessingContentRetriever.java:56-73 | Returns the `getWebContents` result unchanged, whatever its token count, and the store ends as that call leaves it. |
| `PreprocessingContentRetriever.Retriever.GetWebContents` | src/main/java/com/smartagent/smartAgent/retriever/PreprocessingContentRetriever.java:82-96 | A failed search gives `[]` and leaves the store untouched. Otherwise the hits are augmented and processed one after another, and null and blank results are dropped. The first augmentation that throws ends the call with `[]`, and the store stays as the earlier hits left it. The result and the new store are those of `WebContents`. |
| `PreprocessingContentRetriever.Retriever.ProcessExtractedContent` | src/main/java/com/smartagent/smartAgent/retriever/PreprocessingContentRetriever.java:105-121 | The result and the new store are those of the per-item decision, `Process`. This includes a refused compressed text, which gives null. |
| `PreprocessingContentRetriever.Retriever.FilterDataWithEmbedding` | src/main/java/com/smartagent/smartAgent/retriever/PreprocessingContentRetriever.java:131-151 | The text and the new store are those of the ingest-query-clear compression, `Compress`. |
| `PreprocessingContentRetriever.Retriever.IngestGroups` | src/main/java/com/smartagent/smartAgent/retriever/PreprocessingContentRetriever.java:142 | The store ends as the ingestion of every group's joined document, in order, leaves it. |
| `PreprocessingContentRetriever.Retriever.IngestDataToEmbeddingStore` | src/main/java/com/smartagent/smartAgent/retriever/PreprocessingContentRetriever.java:158-166 | The group joined with `" "` is appended when the `Document` constructor accepts it and the ingestion succeeds. Otherwise the store is unchanged. |
| `PreprocessingContentRetriever.Retriever.RetrieveDataFromEmbeddingStore` | src/main/java/com/smartagent/smartAgent/retriever/PreprocessingContentRetriever.java:174-183 | A failed query gives `[]` and no clear. A successful one returns the hits, and its clear empties the store unless the clear fails. |
| `PreprocessingContentRetriever.Retriever.ClearData` | src/main/java/com/smartagent/smartAgent/retriever/PreprocessingContentRetriever.java:188-194 | A successful removal empties the store. A failed one is swallowed and leaves the store unchanged. |
| `EmbeddingStore.Store.IngestData` | src/main/java/com/smartagent/smartAgent/service/impl/DataIngestionServiceImpl.java:27-29 | A successful ingestion appends the document. A failed one adds nothing. |
| `EmbeddingStore.Store.RetrieveData` | src/main/java/com/smartagent/smartAgent/service/impl/DataIngestionServiceImpl.java:31-35 | A query returns the search result on the current documents and changes nothing. |
| `EmbeddingStore.Store.ClearData` | src/main/java/com/smartagent/smartAgent/service/impl/DataIngestionServiceImpl.java:37-39 | A successful `removeAll` empties the store. A failed one leaves it as it was. |

## Left out

- Outside code is not modelled. This covers the network page fetch, the OpenAI tokenizer, the LLM relevance assistant and its prompt, the web search, and the embedding model with its similarity ranking. It enters only as arbitrary functions, and every property holds for all of them.
- The three collaborators that throw are modelled as returning `None`: the page fetch, the assistant call and the web search. A store operation that throws is modelled as returning `false`.
- The catch-all handlers are modelled for the throws the model produces: the constructors' refusals and the outside calls that fail. In `retrieve` and `filterDataWithEmbedding` there is no such throw, so those handlers are not modelled. The handlers would also catch runtime exceptions, such as a null from an outside call. Those are not modelled either.
- `IsRejectedText` takes langchain4j's not-blank check to be `trim().isEmpty()`. langchain4j is not part of this model.
- `Query.from` refuses a blank question. The question always comes from an existing `Query`, so this is not modelled.
- Outside calls are modelled as pure functions of their arguments: the LLM answer, the fetched page, the web search and the similarity search. The similarity search is also a function of the store's documents. Equal arguments therefore give equal answers, which the real services do not promise: duplicate hits, for instance, ask the assistant twice, and the real answers may differ. Every property holds for any fixed answer function. The model leaves out only that repeated equal calls may get different answers.
- A null `extractedData` from the assistant is taken as blank, which the wrapper maps to no result. A null text segment is not modelled.
- The relevance filter is modelled as taking the item's text. The Java call passes a `String` where the assistant interface declares a list of strings. That mismatch is a matter of the Java types and is not modelled.
- Java `int` overflow of the token sums is not modelled. Sums are unbounded naturals.
- `String.length()` counts UTF-16 units. The model counts characters, so sentences with supplementary characters can differ by the surrogate count.
- `EmbeddingStore.Store`: a store document is one ingested text, and a failed ingestion adds nothing. langchain4j's cut of a document into paragraph segments, and a partially failed ingestion, are not modelled.
- The query's metadata beyond its text is not modelled.
- The total token count in `retrieve` is only logged. The log, like all logging, is not modelled.
- `CommonUtility.CreateOptimalBatchesUnderTokenLimit`: its `ensures` states the greedy-packing specification and equality with `GreedyPack`. The bounds, the non-emptiness, the round trip and the maximality are not stated there. They follow by `BatchBounds`.
- `CommonUtility.SplitContentIntoSmallerParts`: its `ensures` ties the result to `SplitParts`. The round trip, the bounds and the non-emptiness of the groups are not stated there. They follow by `WordSplitProperties`. The part texts follow by `PartText`, and success or failure by `SplitRefusesLeadingEmptyPart`, `SplitRefusesEmptyText` and `SplitAcceptsVisibleWords`. The method finishes its pass after a refused part instead of stopping at the throw. Nothing it does has an effect, so the result is the same.
- The splitter and the batcher are private and not called anywhere. They are modelled as standalone operations.
- The full semantics of Java regular expressions are not modelled. The sentence split is a scanner for the one pattern it uses, and the word split is a scanner for the other.
