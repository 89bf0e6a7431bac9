# PDF translator core, modelled in Dafny

This project models the core of `PDFTranslator`, the class at the centre of a
PDF translation application. The class reads the text blocks of every page of
a PDF document and merges blocks that sit close together vertically. It turns
each merged block into a text unit and has each unit translated by an online
translation service. When the service keeps failing, a small word dictionary
is used instead. Finally it redacts the unit's box and writes the translation
back into it. The font size is shrunk when the text is too wide, and the text
is wrapped into lines that fit the box.

The modules follow the stages of that pipeline:

- `Geometry`: boxes, their union and their width and height.
- `Strings`: Python's `str.isspace`, `strip`, `split`, `join` and `isdigit`.
- `Splitting`: the two `re.split` calls. One splits at blank lines (paragraphs); the other splits after `.`, `!` or `?` followed by whitespace (sentences).
- `Blocks`: raw page blocks and their line lists. A line list is a class `LineList`, because the merge extends it in place. This module also holds the stable sort by top edge.
- `Merge`: `_merge_related_blocks`. There is a specification (`Step`, `Run`, `Plan`, `FinalItems`) and the imperative walk proved against it.
- `Extract`: the span loop of `analyze_pdf`, which builds one `TextUnit` per merged block with non-blank text.
- `Chunking`: the greedy packing of sentences into chunks of at most 4000 characters.
- `Fallback`: `_fallback_dictionary_translation`, meaning whole-word, case-insensitive replacement, entry by entry.
- `Translate`: `translate_text`, covering paragraph mode, the retry loop, chunked requests and the fallback.
- `Layout`: `adjust_font_size` and `calculate_text_wrap`.
- `Rewrite`: the per-unit gate, the redaction and line placement of `translate_pdf`, its grouping of units by page, and its progress values.

Each loop of the source is a `method` with loop invariants. Each method is
proved equal to a specification function, and the lemmas state what those
functions promise. The exception is `Extract.AnalyzeDocument`, whose contract
is weaker (see "## Left out").

The translation service is a parameter of type `Provider`. It is a function
from the number of requests made so far, the target language and the text to
either a translation or `None`. `None` stands for a request that raised. Every
function threads the request counter through, so the model shows how many
requests each path makes. Two kinds of service are used to state properties:

- a service that `Echoes` returns its input unchanged;
- a service that `Fails` always raises.

The document library is not modelled. Its page blocks are input records. Its
editing calls (`add_redact_annot` with `apply_redactions`, and `insert_text`)
are the `Command` values that `TranslatePdf` returns.

Floating-point numbers are modelled as reals, and Python's `int()` of a float
as truncation toward zero (`Layout.Trunc`).

### Behaviour of the code worth knowing

- **Width factor.** The width estimate of `adjust_font_size` never looks at the target language. When any character is above code point 1000, it takes the first non-default table entry, `1.0`. Otherwise it takes `0.6`.
- **Chunk limit.** The packed chunk limit counts only sentence lengths. The joining spaces are not counted, so a chunk of several sentences can exceed 4000 characters by its spaces (`Chunking.ChunkLengths`). A single sentence longer than the limit forms a chunk of its own.
- **Merge reference height.** The merge compares a block's top edge with the current group's reference height. That height is the group's first block's top edge until something is merged, and then the bottom edge of the united box.
- **Extraction box.** The extraction box seeds the maxima at 0, so a unit's right and bottom edges are never below 0.
- **Result type.** `translate_text` returns only a string. There is no success flag. After a failed fallback it returns the original text, and that is the fallback's own result anyway.
- **Line placement.** Lines whose baseline falls below the box are skipped one by one. For a non-negative font size the baselines increase, so this is a prefix of the lines (`Rewrite.InsertedPrefix`).

## Model

| member | source | states |
|---|---|---|
| Geometry.Union | translaterapp.py:277-285 | the merged box contains both boxes, and each of its edges is one of the two boxes' edges |
| Geometry.Width | translaterapp.py:437-440 | a box's width is never negative, and it is `x1 - x0` unless that is negative |
| Geometry.Height | translaterapp.py:437-440 | a box's height is never negative, and it is `y1 - y0` unless that is negative |
| Strings.StripSpec | translaterapp.py:58 | `strip()` removes a blank prefix and suffix; the result is empty exactly when the text is blank, and otherwise starts and ends with a non-whitespace character |
| Strings.TrimStartSpec | translaterapp.py:58 | `lstrip` removes exactly the leading whitespace |
| Strings.TrimEndSpec | translaterapp.py:58 | `rstrip` removes exactly the trailing whitespace |
| Strings.WordsAreWords | translaterapp.py:330 | every element of `split()` is a non-empty run of non-whitespace characters, and there is none exactly when the text is blank |
| Strings.WordsOfJoin | translaterapp.py:98 | joining with a blank separator keeps every word of every part, in order |
| Strings.WordsOfStrip | translaterapp.py:227 | stripping does not change the words |
| Strings.JoinLength | translaterapp.py:98 | a joined string is as long as its parts plus one separator between each two |
| Splitting.NextSentenceBreak | translaterapp.py:89-90 | the first index at or after the start where the sentence pattern matches: the pattern matches there and nowhere before it; the end when it matches nowhere |
| Splitting.SentencesHaveNoBreak | translaterapp.py:89-90 | the sentence pattern matches inside no piece of the split: every boundary is cut |
| Splitting.SplitSentences | translaterapp.py:89-90 | `re.split` always yields at least one piece |
| Splitting.WordsOfSentences | translaterapp.py:89-90 | splitting into sentences removes only whitespace: the sentences hold exactly the words of the text, in order |
| Splitting.LastNewline | translaterapp.py:57 | the last newline in a range, with no newline after it in the range; -1 exactly when the range holds no newline |
| Splitting.ParagraphBreakEnd | translaterapp.py:57 | -1 exactly when `\n\s*\n` cannot match at the index; otherwise the newline ending the longest match there, as the greedy `\s*` gives |
| Splitting.NextParagraphBreak | translaterapp.py:57 | the first index at or after the start where `\n\s*\n` matches, with no match before it; the end when it matches nowhere |
| Splitting.PrefixNoParagraphBreak | translaterapp.py:57 | text before the first separator holds no separator |
| Splitting.RawParagraphsHaveNoBreak | translaterapp.py:57 | `\n\s*\n` matches inside no piece of the split: every blank-line separator is cut |
| Splitting.ParagraphBreakIsBlank | translaterapp.py:57 | a paragraph separator is whitespace only |
| Splitting.SplitParagraphsRaw | translaterapp.py:57 | splitting at blank lines yields at least one piece |
| Splitting.WordsOfRawParagraphs | translaterapp.py:57 | splitting at blank lines removes only whitespace |
| Splitting.StripNonBlankStripped | translaterapp.py:58 | the kept paragraphs are non-empty and stripped |
| Splitting.WordsOfStripNonBlank | translaterapp.py:58 | stripping and dropping blank paragraphs keeps every word |
| Splitting.ParagraphsKeepWords | translaterapp.py:55-58 | every paragraph is stripped and non-empty, and together the paragraphs hold exactly the words of the text, in order |
| Splitting.NonBlankHasParagraph | translaterapp.py:51-61 | a non-blank text has at least one paragraph, so the `not paragraphs` return is unreachable after the blank check |
| Splitting.ParagraphsWithin | translaterapp.py:57-58 | no paragraph is longer than its text |
| Blocks.LineList.Extend | translaterapp.py:274 | `extend` appends the other lines to the list and changes nothing else |
| Blocks.InsertPermutes | translaterapp.py:247 | one insertion step of the sort keeps every block |
| Blocks.InsertSorted | translaterapp.py:247 | one insertion step keeps the blocks ordered by top edge |
| Blocks.WithTopInsert | translaterapp.py:247 | an inserted block goes after every block with the same top edge |
| Blocks.SortByTopSorted | translaterapp.py:247 | the sort orders the blocks by top edge |
| Blocks.SortByTopPermutes | translaterapp.py:247 | the sort is a permutation of the blocks |
| Blocks.SortByTopStable | translaterapp.py:247 | the sort is stable: blocks with equal top edges keep their input order |
| Blocks.SortKeepsLists | translaterapp.py:247 | sorting keeps the same line lists, still unshared |
| Merge.StepPositions | translaterapp.py:254-288 | one pass of the loop adds a text block's position to the grouped positions, and any other block's position to the passed ones |
| Merge.RunPositions | translaterapp.py:254-288 | after the loop, the groups and the open accumulator hold the text blocks and the pass-throughs hold the rest |
| Merge.PlanPositions | translaterapp.py:254-292 | every text block is merged into exactly one group, in sorted order, and every other block is passed through exactly once, in sorted order |
| Merge.TextPositionsExact | translaterapp.py:255-258 | the text positions are increasing, each is a text block, and every text block is among them |
| Merge.PlanWellFormed | translaterapp.py:276-285 | every output refers to blocks of the right kind, and a merged box contains the box of every block merged into it |
| Merge.MergeAttained | translaterapp.py:276-285 | uniting a box with one more block's keeps each edge equal to the same edge of some member |
| Merge.RunAttained | translaterapp.py:254-291 | throughout the walk, each edge of every group's box, open or closed, is the same edge of one of its members |
| Merge.PlanBoxesExact | translaterapp.py:254-294 | a merged block's box is exactly the union of its members' boxes: it contains each of them and each of its edges is attained by one |
| Merge.MergedLinesInOrder | translaterapp.py:272-274 | at the level of the plan: read group after group, the groups' gathered lines are the lines of every text block exactly once, in sorted order |
| Merge.RunHeads | translaterapp.py:254-291 | the walk closes groups in order of their first block, and the open group starts after every closed one |
| Merge.PlanHeads | translaterapp.py:254-294 | the groups of the output start at strictly increasing positions, so no two share a head |
| Merge.FinalItemsHeads | translaterapp.py:269-274 | with distinct heads, each group head's list ends up holding exactly the lines of all its members: no later group overwrites it |
| Merge.RealizedItemAt | translaterapp.py:254-294 | one output block with a list holds what its entry stands for: a passed block its own lines, a merged block its members' lines in order |
| Merge.RealizedItems | translaterapp.py:254-294 | after the walk every output block with a list holds what its entry stands for |
| Merge.TextLinesOfPlan | translaterapp.py:254-294 | when every output block holds what its entry stands for, the text blocks' lists read in output order are the groups' gathered lines |
| Merge.MergedListsInOrder | translaterapp.py:241-294 | after the walk, the lists the merged text blocks actually hold, read in output order, are the lines of every text block exactly once, in sorted order |
| Merge.FinalItemsUntouched | translaterapp.py:272-274 | a line list no group starts at keeps its contents |
| Merge.NotYetHead | translaterapp.py:268-274 | before a block is reached, its line list is as it was |
| Merge.StepItemsPass | translaterapp.py:255-258 | passing a block through changes no line list |
| Merge.StepItemsStart | translaterapp.py:263-270 | starting a group changes no line list |
| Merge.StepItemsMerge | translaterapp.py:271-274 | merging a block appends its lines to the list of its group's first block, and to no other list |
| Merge.CurrentAfterStart | translaterapp.py:268-270 | a new group starts as a copy of the block |
| Merge.CurrentAfterMerge | translaterapp.py:276-285 | after a merge, the current block is still the copy of the group's first block, with its box replaced by the union of the two boxes |
| Merge.TracksPass | translaterapp.py:255-258 | the loop's state follows the specification across a pass-through |
| Merge.TracksStart | translaterapp.py:263-270 | the loop's state follows the specification across the start of a group |
| Merge.TracksMerge | translaterapp.py:271-288 | the loop's state follows the specification across a merge, and only the group head's list grows |
| Merge.ExtendGroup | translaterapp.py:273-274 | extending the shared list of the group head changes only that list |
| Merge.MergeRelatedBlocks | translaterapp.py:241-294 | no blocks give no blocks; otherwise the output is the plan over the blocks sorted by top edge; every line list ends up holding what the plan says; and the output's text blocks, read in order, hold the original lines of every text block exactly once, in sorted order |
| Merge.Walk | translaterapp.py:249-294 | the loop over the sorted blocks produces exactly the plan and leaves the line lists as the plan says |
| Merge.Advance | translaterapp.py:255-288 | one pass of the loop keeps the loop state in step with the specification |
| Extract.KeptSpansKept | translaterapp.py:212-216 | the spans kept are non-blank, and each is one of the block's spans |
| Extract.RawTextBlank | translaterapp.py:214-224 | the block text is blank exactly when no span was kept |
| Extract.NoneKeptIffAllBlank | translaterapp.py:212-224 | no span is kept exactly when every span is blank |
| Extract.WordsOfRawText | translaterapp.py:212-215 | the block text holds exactly the words of the kept spans, in order |
| Extract.CoverContains | translaterapp.py:207-222 | the unit's box covers every kept span |
| Extract.CoverAttained | translaterapp.py:207-222 | each edge of the unit's box is an edge of a kept span (the right and bottom edges are floored at 0) |
| Extract.UnitFacts | translaterapp.py:212-233 | an emitted unit carries the block's page, type and page size; its text is non-empty, stripped and holds the words of its spans; its spans are the non-blank spans in order; and its box covers them |
| Extract.UnitNone | translaterapp.py:224 | a block yields no unit exactly when all its spans are blank |
| Extract.ExtractUnit | translaterapp.py:203-233 | the span loop builds exactly the unit the specification describes, or none |
| Extract.ExtractAll | translaterapp.py:202-233 | one unit per merged block that has lines and non-blank text, in order |
| Extract.PageUnitsWellFormed | translaterapp.py:202-233 | every unit of a page is well formed and carries that page's number and size |
| Extract.PageUnitsOfPlan | translaterapp.py:202-233 | when every merged block holds its plan entry's lines, extraction gives the units of the plan |
| Extract.AnalyzePage | translaterapp.py:197-233 | the page's units are those extracted from the merge of its blocks; every line list of the sorted blocks holds what the merge plan says; and the units are those of the plan over the lines the blocks held before the merge |
| Extract.AnalyzeDocument | translaterapp.py:179-233 | the units come in page order, each well formed and carrying its page's size |
| Chunking.PackPartition | translaterapp.py:95-103 | the running length is the open chunk's length, and nothing is lost or reordered |
| Chunking.PackDoneGood | translaterapp.py:95-103 | every closed chunk is non-empty and keeps the limit when it has two or more sentences |
| Chunking.PackGreedy | translaterapp.py:95-103 | a chunk is closed only because the next sentence would push it past the limit |
| Chunking.GroupsCorrect | translaterapp.py:91-107 | the chunks partition the sentences in order; none is empty; a chunk of several sentences adds up to at most 4000; and each chunk is maximal |
| Chunking.WordsOfJoinEach | translaterapp.py:98-107 | joining each chunk's sentences keeps every word, in order |
| Chunking.PackChunks | translaterapp.py:91-107 | the packing loop produces exactly the specified chunks |
| Chunking.JoinEachAt | translaterapp.py:98 | the k-th chunk is the k-th group joined with single spaces |
| Chunking.ChunkLengths | translaterapp.py:91-107 | each chunk is as long as its sentences plus one space per sentence after the first, so a chunk of several sentences is at most 4000 plus its joining spaces |
| Fallback.ReplaceLength | translaterapp.py:161-162 | each replaced occurrence changes the length by the difference of the two words' lengths |
| Fallback.MatchCountPositive | translaterapp.py:161-162 | the substitution replaces something exactly when the pattern matches somewhere |
| Fallback.ReplaceNoMatch | translaterapp.py:161-162 | without a match the substitution returns the text itself |
| Fallback.ReplaceUnchangedIffNoMatch | translaterapp.py:161-162 | when a dictionary word and its translation differ in length, the substitution leaves the text unchanged exactly when the word does not occur in it as a whole word, ignoring case |
| Fallback.SpanishEntriesValid | translaterapp.py:20-26 | the Spanish table's words are non-empty and each translation differs in length from its word |
| Fallback.ApplyEntriesNonEmpty | translaterapp.py:152-162 | applying the table never empties a non-empty text |
| Fallback.FallbackFacts | translaterapp.py:137-167 | a language without a table gets the text back; a non-empty text never comes back empty |
| Fallback.FallbackTranslation | translaterapp.py:137-167 | the entry loop applies every entry of the language's table in order, each to the previous result |
| Translate.SendChunks | translaterapp.py:110-119 | the chunk loop never lowers the request counter, and a failure costs at least one request |
| Translate.Attempt | translaterapp.py:80-123 | an attempt never lowers the request counter, and a failed attempt made at least one request |
| Translate.Retry | translaterapp.py:79-131 | retrying never lowers the request counter |
| Translate.ParagraphResults | translaterapp.py:64-73 | one result per paragraph, and short or numeric paragraphs are passed through unchanged |
| Translate.ChunksKeepWords | translaterapp.py:87-107 | cutting a long text into chunks loses only whitespace |
| Translate.SendChunksEcho | translaterapp.py:110-119 | with a pass-through service the chunk loop succeeds and keeps every word |
| Translate.SendChunksFail | translaterapp.py:110-119 | with a failing service the chunk loop fails after exactly one request, unless every chunk is blank |
| Translate.AttemptEcho | translaterapp.py:82-122 | with a pass-through service an attempt succeeds and keeps every word, and a text within 4000 characters comes back as it is |
| Translate.AttemptFail | translaterapp.py:82-124 | with a failing service an attempt on a non-blank text makes exactly one request and fails |
| Translate.RetryFail | translaterapp.py:79-131 | with a failing service every attempt is spent, one request each, and the result is the dictionary fallback |
| Translate.FailingServiceFallsBack | translaterapp.py:51-135 | with paragraph preservation off and a failing service, a non-blank text costs exactly `max_retries` requests and comes back through the dictionary fallback, never empty |
| Translate.ParagraphsFail | translaterapp.py:64-76 | with a failing service the paragraph loop returns each short or numeric paragraph as it is and every other one through the dictionary fallback |
| Translate.FailingServicePreserving | translaterapp.py:51-135 | with paragraph preservation on, as `translate_pdf` calls it, and a failing service, a non-blank text comes back non-empty; a one-paragraph text costs exactly `max_retries` requests and comes back through the dictionary fallback |
| Translate.PlainEcho | translaterapp.py:79-122 | with a pass-through service and at least one attempt, the words are kept, and a text within 4000 characters comes back as it is |
| Translate.StrippedSendable | translaterapp.py:58 | stripped paragraphs within the limit can each be sent whole |
| Translate.ParagraphsEchoWords | translaterapp.py:64-76 | with a pass-through service, paragraph-by-paragraph translation keeps every word |
| Translate.ParagraphsEchoSame | translaterapp.py:64-73 | with a pass-through service, paragraphs that can be sent whole come back unchanged |
| Translate.EchoKeepsWords | translaterapp.py:38-135 | with a pass-through service and at least one attempt, translation keeps every word of the text, in order, in both modes |
| Translate.EchoWithinLimit | translaterapp.py:51-122 | with a pass-through service, a non-blank text within 4000 characters comes back as it is, or as its stripped paragraphs joined by blank lines when it has several and they are preserved |
| Translate.AttemptTranslation | translaterapp.py:80-123 | the body of one attempt: exactly the specified reply and request count |
| Translate.SendAll | translaterapp.py:110-119 | the chunk loop: exactly the specified translations, or a failure at the first failing request |
| Translate.RetryTranslation | translaterapp.py:79-135 | the retry loop and the fallback give exactly the specified result and request count |
| Translate.TranslateText | translaterapp.py:38-135 | `translate_text` gives exactly the specified result and request count |
| Translate.TranslateParagraphs | translaterapp.py:65-76 | the paragraph loop gives exactly the specified results |
| Layout.FontSizeBounds | translaterapp.py:373-383 | for a positive size and a non-negative width, the adjusted size is between 70% of the original and the original; it is the original exactly when the text fits; and unless it hits the 70% floor, the text fits the width at the adjusted size |
| Layout.SelectFactor | translaterapp.py:364-371 | the factor loop yields 1.0 when some character is above code point 1000, else 0.6 |
| Layout.AdjustFontSize | translaterapp.py:347-383 | `adjust_font_size` computes the specified size |
| Layout.PlaceKeeps | translaterapp.py:319-340 | adding a sentence or word keeps every line within the per-line count, unless the line is a single over-long word |
| Layout.PlaceAllKeeps | translaterapp.py:317-340 | the packing loop keeps that invariant |
| Layout.ItemsOK | translaterapp.py:319-331 | every piece fed to the packing is a sentence within the count or a single word |
| Layout.PackedLinesFit | translaterapp.py:313-343 | every packed line keeps to the per-line character count, except a line holding a single word longer than that |
| Layout.FinishWords | translaterapp.py:342-343 | closing the last line keeps every word |
| Layout.PlaceWords | translaterapp.py:319-340 | adding a piece adds exactly its words to the lines |
| Layout.PlaceAllWords | translaterapp.py:317-343 | the lines hold exactly the words of the pieces, in order |
| Layout.WithinWidth | translaterapp.py:302-309 | a line within the per-line character count has an estimated width within the box width |
| Layout.ItemsWords | translaterapp.py:317-331 | the pieces hold exactly the words of the sentences |
| Layout.WrapKeepsWords | translaterapp.py:296-345 | wrapping only inserts line breaks: the lines hold exactly the words of the text, in order |
| Layout.WrapFits | translaterapp.py:296-345 | for a positive size and a non-negative width, every line's estimated width fits, except a line holding a single word too long for any line |
| Layout.CalculateTextWrap | translaterapp.py:296-345 | `calculate_text_wrap` computes the specified lines |
| Layout.PackLines | translaterapp.py:313-345 | the sentence loop computes the specified lines |
| Layout.PlaceWordsOf | translaterapp.py:329-340 | the word loop places the sentence's words one after another |
| Layout.PlaceOne | translaterapp.py:319-327 | one placement extends the open line or starts a new one, as specified |
| Rewrite.OnPageMembers | translaterapp.py:402-407 | a unit is on page `p`'s list exactly when it is one of the units and is on page `p` |
| Rewrite.LineYMonotone | translaterapp.py:468-476 | baselines start one font size below the top and never go up from line to line |
| Rewrite.InsertedPrefix | translaterapp.py:467-494 | for a non-negative size, the written lines are the first `m` wrapped lines, in order; each sits two points right of the box's left edge, at its baseline, inside the box; and the first line left out would fall below the box |
| Rewrite.InsertsOnPage | translaterapp.py:474-494 | line placement only inserts text, on the unit's own page |
| Rewrite.BlockCommandsShape | translaterapp.py:420-494 | a unit failing the gate yields nothing and makes no request; one passing it yields the redaction of its box first and then only insertions on its own page |
| Rewrite.BlockRedactions | translaterapp.py:420-450 | a unit is redacted once if it passes the gate, and otherwise not at all |
| Rewrite.PageRedactions | translaterapp.py:420-450 | a page redacts exactly the units passing the gate, in order |
| Rewrite.DocRedactionsExact | translaterapp.py:414-450 | every unit passing the gate is redacted exactly once, page by page and in extraction order within a page, and nothing else is |
| Rewrite.ProgressValuesAt | translaterapp.py:500 | the `p`-th value reported is `(p + 1) / total` |
| Rewrite.ProgressFacts | translaterapp.py:499-501 | one progress value per page; they lie in (0, 1], rise strictly, and end at exactly 1 |
| Rewrite.GroupByPage | translaterapp.py:402-407 | each page with units maps to exactly its units, in order, and no other page appears |
| Rewrite.PlaceLines | translaterapp.py:474-494 | the line loop issues exactly the specified insertions |
| Rewrite.RenderBlock | translaterapp.py:420-494 | the block loop's body issues exactly the specified commands and requests |
| Rewrite.RenderPage | translaterapp.py:420-497 | the block loop issues the commands of each unit in turn |
| Rewrite.RenderPageOf | translaterapp.py:414-420 | a page with units renders exactly its units; one without renders nothing |
| Rewrite.RenderDocument | translaterapp.py:410-502 | the page loop issues the commands of every page in page order, makes the matching requests and reports `(p+1)/total` after page `p` |
| Rewrite.TranslatePdf | translaterapp.py:385-517 | for units that all lie on the document's pages: no units, or a document without pages, give `None` and no requests; otherwise the commands of every page in order, the matching request count, and one progress value per page |

## Left out

- The Streamlit interface, the warning and error messages, the progress bar widget and `time.sleep`: they are presentation and timing. The progress values themselves are modelled.
- The PDF library: opening, saving and copying the document, `get_fonts`, `get_text`, and `page.rect`. Pages and blocks are input records, and redactions and insertions are output commands.
- The network: the translation service is the `Provider` parameter. Its construction (`self.translator(...)`) can fail only together with the request it precedes, so both are one request in the model.
- Floating point: values are reals, so rounding and overflow to infinity are not modelled.
- `extend_dictionaries` is empty in the source and has no model.
- The `isinstance` conversions in the fallback: every value is already a string there.
- The RGB-tuple colour conversion: a span's colour is an integer in the extracted data, so the tuple branch is never taken; the colour is passed through.
- `\w` and `re.IGNORECASE` are approximated. `Fallback.IsWordChar` accepts exactly these characters: ASCII letters, digits and `_`; U+00AA, U+00B5 and U+00BA; U+00C0 to U+00FF except U+00D7 and U+00F7; and every character above U+00FF that is not whitespace and lies outside U+2000 to U+206F and U+3000 to U+303F. This differs from Python's Unicode `\w` in both directions. It rejects the Latin-1 superscript digits and fractions (U+00B2, U+00B3, U+00B9, U+00BC to U+00BE). Above U+00FF it accepts punctuation, symbols and marks outside those two blocks, such as U+037E and U+FF0C. Case folding covers only the ASCII and Latin-1 capitals.
- `str.isdigit()` is restricted to the ASCII digits.
- Exceptions other than a request to the translation service raising are not modelled. A raising request covers the translator's construction and its `translate` call, which the retry loop catches (translaterapp.py:83-127); it is the `None` of a `Provider`. That leaves out the outer `try` of `translate_pdf` and the per-block `try`. Apart from those requests no step of the model raises: a division by zero is excluded by requires clauses that the callers meet, since a box width is never negative.
- Extract.AnalyzeDocument: states that the units are well formed, in page order and carry their page's size, not their exact value. The exact value of one page is stated by `Extract.AnalyzePage`.
- Blocks.DistinctLists: merging and extraction require that no two raw blocks of a page share a line list. This holds for freshly extracted page blocks.
- `Geometry.Width` and `Geometry.Height` take a box's width and height as `max(x1 - x0, 0)` and `max(y1 - y0, 0)`, as the PDF library's rectangles report them. That library is not part of this model.
- The font list that `analyze_pdf` collects is never used, and it is not modelled.
