# Transcript proofreading and editing pipeline, in Dafny

This project models the text-handling core of a tool that turns a speech
transcript into an edited Markdown document with a language model. The model
call itself is not modelled: it is a parameter `complete` of type
`string -> Result<string, string>`, so every property below holds for every
reply the service could give, including failure.

The core has five parts. Each is one Dafny module, and the shared pieces have
modules of their own:

- `TextProcessor` (text_processor.py) is the proofreading splitter and merger.
  - It normalises whitespace, cuts the text into paragraphs and sentence pieces,
    and packs the pieces greedily into chunks.
  - Each new chunk is seeded with a sentence-aligned tail of the one before.
  - It merges proofread chunks by dropping the leading lines a chunk repeats
    from the end of the part before it.
- `ChunkingProcessor` (chunking_processor.py) is the editing splitter.
  - It packs the same way.
  - It gives every chunk its number, the total and a context: first/last
    flags, a summary of the previous chunk and a preview of the next.
- `EditingProcessor` (editing_processor.py) covers the per-chunk work:
  - the editing prompt;
  - the parse of a reply into headings and golden quotes;
  - the batch that stops at the first failure;
  - the standalone golden-quote extraction.
- `MergingProcessor` (merging_processor.py) is the structural merger.
  - It trims lines repeated across a chunk boundary.
  - It deduplicates titles and quotes in order: the first of every similar
    group wins.
  - It moves one freshly written golden-quotes section to the end and spaces
    the headings.
  - It writes the processing summary.
- `LlmProcessor` (llm_processor.py) holds the entry points:
  - basic proofreading;
  - domain and keyword expansion;
  - editing, routed through one chunk or through the split/edit/merge pipeline;
  - golden-quote extraction;
  - the full pipeline.

Supporting modules:

- `Common`: Option/Result and a few small sequence lemmas.
- `Strings`: Python's `isspace`, `strip`, `lower`, `in`, `split` and `join` on `seq<char>`.
- `Whitespace`: the `_clean_text` substitution chain and the `\n{3,}` collapse.
- `Segmenter`: the paragraph cutting, sentence pieces, overlap and packing.
  Both splitters carry line-for-line copies of this code, so it is modelled
  once with the sizes as a parameter.
- `Markdown`: the heading, list-item and golden-quotes-section patterns.

Every `re` pattern the core uses is a hand-written recursive function that
follows how Python's `re` finds non-overlapping matches.

Every loop of the source is a method with invariants. Its `ensures` ties it to
a specification function. The properties are proved about those functions as
lemmas:

- nothing but whitespace changes, measured on `Visible`, the non-space
  characters in order;
- round trips (headings, quote lists, split/join);
- first-occurrence deduplication;
- error propagation.

Details the model keeps exactly as the code has them:

- A text that fits in one chunk is returned uncleaned, and in editing its
  context is only "single".
- The proofreading splitter cuts paragraphs longer than `chunk_size`. The
  editing splitter cuts those longer than `chunk_size // 2`.
- Chunks have no global size bound. `PackChunkBound` gives the bound that
  holds.
- Quote similarity is case-sensitive, and containment needs both cleaned
  quotes to be longer than 10 characters.
- `_process_subsequent_chunk` drops two kinds of line: the duplicate lines
  among the first three lines (counting blank lines), and every blank line
  met before the first kept line, wherever it sits, also after the first
  three (merging_processor.py:94-96). A line kept before a later duplicate
  stays. The joined result is then stripped (merging_processor.py:110), so
  it starts with a visible line (`KeptStartsVisible`).
- The heading-spacing passes run after the blank-line collapse, so the final
  text can hold three newlines in a row: "a\n\n# b" comes out of
  `_optimize_merged_content` as "a\n\n\n# b" (`SpacingAddsNewline`).
- `split_for_editing` has no empty-input check: an empty text is one
  empty chunk.

## Model

| member | source | states |
|---|---|---|
| Strings.Strip | text_processor.py:215 | str.strip(): the result is no longer than the input and starts and ends with non-whitespace |
| Strings.VisibleStrip | text_processor.py:215 | stripping removes whitespace only: the visible characters are unchanged |
| Strings.JoinSplit | merging_processor.py:83-110 | joining the pieces of `s.split(c)` with `c` gives `s` back |
| Strings.SplitJoin | llm_processor.py:198-213 | splitting a join of separator-free parts gives the parts back |
| Whitespace.VisibleCollapse | text_processor.py:213 | the `\n{3,}` → `\n\n` substitution only removes newlines |
| Whitespace.CollapseNoTripleNewline | text_processor.py:213 | after the collapse no three newlines are adjacent |
| Whitespace.CollapseIdempotent | text_processor.py:213 | collapsing twice is collapsing once |
| Whitespace.CleanTextChars | text_processor.py:203-215 | the cleaned text holds no `\r` and no tab |
| Whitespace.CleanTextShape | text_processor.py:203-215 | the cleaned text has no double space, no triple newline and no edge whitespace |
| Whitespace.CleanTextVisible | text_processor.py:203-215 | cleaning changes whitespace only |
| Segmenter.ParagraphsProperties | text_processor.py:94-98 | the paragraphs of a blank-line split are non-empty and stripped, and hold every visible character of the text in order |
| Segmenter.SplitLongParagraph | text_processor.py:112-127 | the character loop returns exactly the sentence pieces of the paragraph |
| Segmenter.SentencePiecesLayout | text_processor.py:112-127 | the raw pieces concatenate to the paragraph; every piece but the last ends at a sentence mark after more than 100 characters; the last has no such late mark |
| Segmenter.SentencePiecesShape | text_processor.py:112-127 | pieces are non-empty and stripped and keep every visible character |
| Segmenter.GetOverlapText | text_processor.py:159-173 | the scan loop returns the overlap tail |
| Segmenter.OverlapTextTail | text_processor.py:159-173 | the tail is at most `overlap_size` long, is a slice of the text, is the text itself when it fits, and starts after the first sentence mark of the last `overlap_size` characters |
| Segmenter.CombineParagraphsToChunks | text_processor.py:129-157 | the packing loop returns the greedy packing of the paragraphs |
| Segmenter.PackLayout | text_processor.py:129-157 | each chunk is its overlap seed plus its own group of paragraphs joined by blank lines; a chunk that took two or more paragraphs fits the size; a group's first paragraph did not fit onto the chunk before; the groups concatenate to the paragraphs in order |
| Segmenter.PackNonEmpty | text_processor.py:153-157 | no chunk is empty, and there is a chunk exactly when there is a paragraph |
| Segmenter.PackChunkBound | text_processor.py:136-151 | every chunk is within the larger of the chunk size and the longest paragraph plus overlap plus 2 |
| Segmenter.SplitByParagraphs | text_processor.py:94-110 | the paragraph loop returns the paragraphs, each longer than the limit replaced by its sentence pieces |
| Segmenter.ExpandParagraphs | text_processor.py:100-108 | the paragraph loop of `SplitByParagraphs`: the pieces are each paragraph in order, or its sentence pieces when it is longer than the limit |
| Segmenter.SplitByParagraphsProperties | text_processor.py:94-110 | every piece is non-empty and stripped, and the pieces keep every visible character of the text |
| TextProcessor.SplitText | text_processor.py:21-50 | split_text returns the chunks of the specification function |
| TextProcessor.SplitChunksCases | text_processor.py:31-37 | no chunk exactly for blank input; a short text comes back unchanged as the only chunk; no chunk is empty |
| TextProcessor.SplitChunksLayout | text_processor.py:39-50 | a long text's chunks are laid out from paragraph groups that hold every visible character of the text |
| TextProcessor.ProcessOverlap | text_processor.py:175-201 | the skip loop computes the trimmed result |
| TextProcessor.LeadingRepeatsIs | text_processor.py:186-192 | the skip count is the unique k within the first five lines such that lines before k repeat the previous tail and line k does not |
| TextProcessor.DeduplicatedSlice | text_processor.py:175-201 | the trimmed result is a slice of the current text |
| TextProcessor.DeduplicatedVisible | text_processor.py:175-201 | only a prefix of the visible characters is dropped |
| TextProcessor.DeduplicatedKeeps | text_processor.py:177-178 | an empty side returns the current text as is; a first line not repeated keeps everything, stripped |
| TextProcessor.MergeResults | text_processor.py:52-92 | merge_results returns "" for no results and the only result unchanged for one |
| TextProcessor.CollectParts | text_processor.py:73-83 | the loop collects each result stripped, each one after the first trimmed against the part before |
| TextProcessor.MergedPartsSuffix | text_processor.py:73-83 | each part keeps a suffix of the visible characters of its result, and the first keeps all of them |
| TextProcessor.MergedShape | text_processor.py:85-92 | the merge of two or more results keeps the visible characters of the parts, has no triple newline and is stripped |
| ChunkingProcessor.SplitForEditing | chunking_processor.py:21-63 | split_for_editing returns the entries of the specification function |
| ChunkingProcessor.AttachContexts | chunking_processor.py:52-60 | the loop numbers the chunks and attaches their contexts |
| ChunkingProcessor.EditingInfosShort | chunking_processor.py:35-42 | a text that fits is one entry: the raw text, index 1, total 1, marked single |
| ChunkingProcessor.EditingInfosLong | chunking_processor.py:44-63 | entries are numbered 1..n with total n, none single, only the first marked first, only the last marked last; contents are laid out from groups holding every visible character of the text; a non-blank text gives at least one entry |
| ChunkingProcessor.GenerateContext | chunking_processor.py:149-168 | first iff index 0, last iff the final index, no previous summary iff first, no next preview iff last |
| ChunkingProcessor.ClausesShape | chunking_processor.py:172-173 | the clauses of `re.split('[。！？.!?]+')` after the filter are non-empty, stripped and mark-free, and keep every visible non-mark character |
| ChunkingProcessor.SummaryClauses | chunking_processor.py:170-179 | with more than two clauses the summary cuts back into exactly the last two clauses |
| ChunkingProcessor.PreviewClauses | chunking_processor.py:181-190 | with more than two clauses the preview cuts back into exactly the first two clauses |
| ChunkingProcessor.DigestShort | chunking_processor.py:175-176 | with at most two clauses summary and preview agree: the text when at most 100 characters, else 103 characters starting with its first 100 |
| ChunkingProcessor.Truncated | chunking_processor.py:176 | the cut text is at most 103 characters and starts with the first 100 characters of the text |
| ChunkingProcessor.ChunkingMeansSplitting | chunking_processor.py:206-217 | a text over the 3000 threshold takes the long path of the splitter with its 2000/200 defaults: no entry is marked single, only the first is marked first and only the last marked last, and a non-blank text gives an entry; a text with no place to cut (no sentence mark) can still come back as one entry 1/1 |
| ChunkingProcessor.EntriesContents | chunking_processor.py:52-60 | the entries' contents are the packed chunks in order |
| Markdown.HeadingRoundTrip | editing_processor.py:146-152 | a heading line of 1 to 3 `#`, a space and a stripped title parses back to that level and title |
| Markdown.HeadingShape | editing_processor.py:146-152 | a parsed heading has level 1..3 and a non-empty stripped title, and the line is the marks, whitespace and the title |
| Markdown.ListItemRoundTrip | editing_processor.py:163-167 | "- q" parses back to q |
| Markdown.ListItemShape | editing_processor.py:163-167 | a parsed item is non-empty and stripped, after a `-` or `*` and whitespace |
| Markdown.RemoveSectionsClean | merging_processor.py:250 | after removing the golden-quotes sections no section marker is left |
| Markdown.RemoveSectionsKeeps | merging_processor.py:250 | a text with no marker is unchanged |
| Markdown.RemoveSectionsIdempotent | merging_processor.py:250 | removing the sections twice is removing them once |
| Markdown.QuoteItemsOfLines | editing_processor.py:163-167 | the list items of "- q" lines are the quotes |
| Markdown.GoldenQuotesAppended | editing_processor.py:155-167 | a marker-free text followed by a fresh section yields exactly the section's quotes |
| EditingProcessor.PromptFrame | editing_processor.py:81-136 | every prompt starts with the chunk's "第 index/total 个文本块" opening and ends with the content and the closing request |
| EditingProcessor.PromptPositionNote | editing_processor.py:92-98 | exactly one position note follows the base prompt unless single: first before last, middle otherwise |
| EditingProcessor.PromptAsksForQuotes | editing_processor.py:121-128 | the output rules end with the golden-quotes request iff the chunk is last or single |
| EditingProcessor.PromptCarriesContext | editing_processor.py:100-111 | summary and preview lines appear when not single and given; domain and keyword lines appear when non-empty; a single chunk's prompt has no context part |
| EditingProcessor.PromptContextParts | editing_processor.py:81-136 | the prompt is the base, the context part, the domain part, the format rules and the tail; a single chunk has no context part, otherwise it is the position note, the summary line and the preview line; the summary line is empty iff no summary is given and otherwise is "\n前一块内容摘要：" and the summary, likewise the preview; the domain part is the domain line and the keywords line, each empty iff its input is empty, so the domain part is empty iff both are; without summary and preview a non-single prompt is base, position note, format rules and tail |
| EditingProcessor.ParseEditingResult | editing_processor.py:140-173 | the parse keeps the reply as content, with the headings and the quotes of the specification function |
| EditingProcessor.CollectTitles | editing_processor.py:145-152 | the heading loop returns the headings of the lines in order |
| EditingProcessor.HeadingsWellFormed | editing_processor.py:146-152 | every parsed heading has level 1..3 and a non-empty stripped title |
| EditingProcessor.HeadingDocument | editing_processor.py:145-152 | a document of heading lines parses back to exactly those headings |
| EditingProcessor.ParsedQuotesAtEnd | editing_processor.py:154-173 | content is the reply; quotes are empty unless index == total or total == 1, and empty without a section |
| EditingProcessor.CollectQuoteItems | editing_processor.py:163-167 | the item loop returns the list items of the section |
| EditingProcessor.EditChunk | editing_processor.py:22-74 | success iff the completion succeeds; content and raw result are the stripped reply with the chunk's number and total; a failure names the chunk |
| EditingProcessor.EditChunksBatch | editing_processor.py:175-199 | the batch loop computes the edits in order, stopping at the first failure |
| EditingProcessor.EditedSuccess | editing_processor.py:188-199 | the batch succeeds iff every chunk does, with one result per chunk in order |
| EditingProcessor.EditedFailure | editing_processor.py:190-196 | a failed batch reports the error of its first failing chunk, all chunks before it having succeeded |
| EditingProcessor.EditedFailureStays | editing_processor.py:190-196 | once a prefix fails, the whole batch fails with the same error |
| EditingProcessor.ExtractGoldenQuotesFromText | editing_processor.py:201-259 | extraction returns the dash quotes of the reply, none on failure |
| EditingProcessor.CollectDashQuotes | editing_processor.py:246-252 | the line loop returns the non-empty remainders of lines starting "- " |
| EditingProcessor.DashQuotesProper | editing_processor.py:246-252 | every extracted quote is non-empty and stripped |
| EditingProcessor.DashQuotesRoundTrip | editing_processor.py:246-252 | quotes written as "- q" lines read back as themselves |
| MergingProcessor.WordCharsIdempotent | merging_processor.py:150 | removing non-word characters twice is removing them once |
| MergingProcessor.TitlesSimilarIff | merging_processor.py:165-182 | titles are similar iff both are non-empty, one contains the other, and their lengths differ by at most 3 |
| MergingProcessor.QuotesSimilarIff | merging_processor.py:222-243 | quotes are similar iff both are non-empty and their cleaned forms are equal, or both are longer than 10 with one containing the other and lengths within 5 |
| MergingProcessor.WordCharsOfWords | merging_processor.py:150 | a text of word characters only is unchanged by the cleaning |
| MergingProcessor.WordCharsOfNone | merging_processor.py:150 | a text without word characters cleans to empty |
| MergingProcessor.QuotesCaseSensitive | merging_processor.py:222-243 | no case folding: any two different quotes of equal length made of word characters only are not similar |
| MergingProcessor.QuotesDifferInCase | merging_processor.py:222-243 | a word-character quote that changes under lower-casing is not similar to its lower-cased form |
| MergingProcessor.QuotesOfPunctuation | merging_processor.py:222-243 | any two non-empty quotes without word characters are similar: both clean to empty |
| MergingProcessor.SiftSubsequence | merging_processor.py:140-163 | first-wins deduplication keeps a subsequence of its input |
| MergingProcessor.SiftApart | merging_processor.py:148-161 | no kept item clashes with an earlier kept one |
| MergingProcessor.SiftCovers | merging_processor.py:148-161 | every input item is kept or clashes with a kept one |
| MergingProcessor.SiftKeeps | merging_processor.py:148-161 | an item that clashes with nothing is always kept |
| MergingProcessor.SiftPrefix | merging_processor.py:148-161 | deduplicating a prefix gives a prefix of the result |
| MergingProcessor.DropHashes | merging_processor.py:117 | `^#+\s*` removal leaves a suffix; nothing changes without a leading `#`; otherwise the rest does not start with whitespace |
| MergingProcessor.ShortNeverDuplicate | merging_processor.py:119-121 | a line or previous text under 5 characters never makes a duplicate |
| MergingProcessor.DuplicateIgnoresMarks | merging_processor.py:114-124 | a heading line is a duplicate exactly when its text is |
| MergingProcessor.ProcessSubsequentChunk | merging_processor.py:81-110 | the line loop computes the processed chunk |
| MergingProcessor.KeptSubsequence | merging_processor.py:91-108 | the kept lines are a subsequence of the chunk's lines |
| MergingProcessor.KeptStartsVisible | merging_processor.py:94-96 | the first kept line is not blank |
| MergingProcessor.KeptTail | merging_processor.py:99-108 | from line 3 on, once a line is kept every later line is kept |
| MergingProcessor.KeptAllVisible | merging_processor.py:91-108 | with no duplicate line, every visible character is kept |
| MergingProcessor.ProcessedAfterNothing | merging_processor.py:81-110 | after an empty previous part nothing visible is dropped |
| MergingProcessor.SimilarToSeen | merging_processor.py:153-157 | the loop over the seen set finds a similar key iff one exists |
| MergingProcessor.DeduplicateTitles | merging_processor.py:140-163 | the loop keeps exactly the first-wins deduplication of the titles by their cleaned keys |
| MergingProcessor.KeySetSnoc | merging_processor.py:159-161 | the seen set grows by the key of each kept title |
| MergingProcessor.SimilarToKept | merging_processor.py:211-215 | the inner loop finds a similar kept quote iff one exists |
| MergingProcessor.DeduplicateQuotes | merging_processor.py:198-220 | the loop keeps exactly the first-wins deduplication of the stripped non-blank quotes |
| MergingProcessor.NonBlank | merging_processor.py:205-208 | the quotes considered are non-empty and stripped |
| MergingProcessor.MergeTitles | merging_processor.py:126-138 | the extend loop deduplicates all titles in chunk order |
| MergingProcessor.MergeGoldenQuotes | merging_processor.py:184-196 | the extend loop deduplicates all quotes in chunk order |
| MergingProcessor.MergedTitlesProperties | merging_processor.py:126-182 | merged titles are a subsequence, pairwise not similar, cover every input title, and keep every title whose key is empty |
| MergingProcessor.DeduplicatedQuotesProperties | merging_processor.py:198-243 | deduplicated quotes are a subsequence of the stripped non-blank quotes, non-empty, stripped and pairwise not similar |
| MergingProcessor.MergeContent | merging_processor.py:58-79 | the loop computes the merged content |
| MergingProcessor.MergedContentShape | merging_processor.py:58-79 | merged content keeps the parts' visible characters, has no triple newline, is stripped, and its first part is the first result stripped |
| MergingProcessor.BuildQuotesSection | merging_processor.py:253-255 | the loop writes the heading and one "- q" line per quote |
| MergingProcessor.OptimizeMergedContent | merging_processor.py:245-266 | the method computes the optimised content |
| MergingProcessor.VisibleSpaceHeadings | merging_processor.py:263 | the heading-spacing pass adds newlines only |
| MergingProcessor.VisibleSpaceAfterHeadings | merging_processor.py:264 | the after-heading pass adds newlines only |
| MergingProcessor.OptimizedVisible | merging_processor.py:245-266 | the optimised content has the visible characters of the text with its sections removed and the fresh section added; with no quotes, those of the content |
| MergingProcessor.QuotesSectionAtEnd | merging_processor.py:248-257 | the text with the fresh section appended yields exactly the merged quotes as its golden quotes |
| MergingProcessor.SpacingAddsNewline | merging_processor.py:245-266 | for any characters a and b that are not whitespace or `#`, the text a, a blank line and the heading "# b" has no triple newline, yet with no quotes it is optimised to a, three newlines and "# b": the heading pass runs after the collapse and the final strip does not reach the middle |
| MergingProcessor.MergeEditedChunks | merging_processor.py:13-56 | no results give an empty result; one result passes through unchanged |
| MergingProcessor.MergedChunksContent | merging_processor.py:35-56 | merging two or more results keeps the visible characters of the joined parts, with the quotes section moved to the end |
| MergingProcessor.MergedChunksQuotesSection | merging_processor.py:43-47 | the merged content before spacing lists exactly the merged quotes in its section |
| MergingProcessor.CreateContentSummary | merging_processor.py:268-304 | the method builds the summary text |
| MergingProcessor.AppendTitles | merging_processor.py:284-293 | the loop writes at most ten title lines and the overflow line |
| MergingProcessor.AppendQuotes | merging_processor.py:296-302 | the loop writes at most three quote lines and the overflow line |
| MergingProcessor.SummaryLayout | merging_processor.py:274-302 | the summary starts with the counts line, then up to 10 indented title lines and up to 3 quote lines, each block with its overflow line |
| LlmProcessor.ProofreadPromptParts | llm_processor.py:24-37 | the proofreading prompt is the instructions, the domain line, a newline, the keywords line and the tail with the text after "原文：" and the closing request; the domain line is empty iff the domain is, the keywords line iff the keywords are, so with neither the prompt is instructions, newline and tail |
| LlmProcessor.BasicProofread | llm_processor.py:21-59 | success iff the completion succeeds, with the stripped reply; a failure carries the "基础校对请求失败: " prefix |
| LlmProcessor.ExpandDomainKnowledge | llm_processor.py:100-136 | blank input gives ""; a failed call gives the input back; otherwise the stripped reply |
| LlmProcessor.ExpandKeywords | llm_processor.py:138-178 | blank input gives ""; a failed call gives the keywords back; otherwise the stripped reply |
| LlmProcessor.BlankInputNeedsNoCall | llm_processor.py:102-103 | for blank input the answer is the same whatever the service does |
| LlmProcessor.FailingServiceKeepsInput | llm_processor.py:133-136 | a service that always fails leaves non-blank domain and keywords as given |
| LlmProcessor.EditShortText | llm_processor.py:67-78 | a short text is edited as the single chunk 1/1; success iff that completion succeeds, with the stripped reply |
| LlmProcessor.EditLongText | llm_processor.py:83-98 | a long text succeeds iff every chunk of the split is edited, and is then the merge of the results in chunk order |
| LlmProcessor.EditAndOrganizeText | llm_processor.py:61-98 | the calls of edit_and_organize compute the routed edit |
| LlmProcessor.FullTextSteps | llm_processor.py:220-231 | the pipeline succeeds iff proofreading and the edit of its output both do, returns the pair, and a failed proofread stops it |
| LlmProcessor.CollectChunkQuotes | llm_processor.py:196-206 | the chunk loop gathers the quotes of every chunk in order |
| LlmProcessor.ExtractGoldenQuotes | llm_processor.py:180-218 | the method returns the "- q" listing of the extracted quotes |
| LlmProcessor.ExtractedQuotesListable | llm_processor.py:180-213 | every listed quote is non-empty, stripped and one line |
| LlmProcessor.ExtractedQuotesDistinct | llm_processor.py:208-211 | on the long path no two listed quotes are similar |
| LlmProcessor.ListingRoundTrip | llm_processor.py:213 | a "- q" listing joined with newlines reads back as its quotes |
| LlmProcessor.ListingReadsBack | llm_processor.py:180-218 | the listing returned reads back as exactly the extracted quotes |

## Left out

- I/O, logging, HTTP and the OpenAI client are left out. The completion is a
  deterministic function parameter. The temperatures are floats that do not
  affect the text logic.
- app.py (the Streamlit front end, settings cache and result files) is not
  part of this model.
- The processors are modelled as values. Their constructor fields never
  change after `__init__`, so no class is needed.
- `str.lower()` is ASCII-only. `\w` is ASCII letters, digits and `_`, plus the
  explicit `一-鿿` range.
- `strip()` and `\s` use Python's `isspace` set. Unicode case folding and
  other scripts' word characters are not modelled.
- Markdown.QuoteItems, EditingProcessor.CollectTitles, EditingProcessor.CollectQuoteItems:
  these require the lines to contain no newline. That always holds for the
  output of `split('\n')`, which is how the source calls them.
- MergingProcessor.QuotesSectionAtEnd, MergingProcessor.MergedChunksQuotesSection:
  the round trip is proved on the text before the newline collapse and the
  heading-spacing passes, not on the final content.
- The Python set iteration order in `_deduplicate_titles` is not modelled.
  The answer of the membership scan does not depend on it.
- `create_content_summary` inside edit_and_organize only feeds the log. The
  model computes it and discards it.
- The exception handler of `extract_golden_quotes` is left out: nothing
  inside its `try` can fail once the per-chunk extraction has swallowed
  remote errors.
- `basic_proofread` and `edit_chunk` wrap every exception, including a
  reply with no choices. The model has one failure value per call.
