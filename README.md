# Text segmentation for speech synthesis

This project models the text-segmentation core of a text-to-speech server,
`app/core/text_processing.py`. The core cuts input text into chunks the
speech model can take, in three families.

- **The legacy splitter** `split_text_into_chunks` (module `Legacy`). It cuts
  the text into sentences at the first sentence ending and packs the
  sentences greedily. An over-long sentence is re-split at sub-delimiters
  and then packed word by word. The delimiter pass at lines 66-83 is the
  same code as the streaming one at lines 290-307, so both use
  `Streaming.ResplitAt`.
- **The streaming splitters** `split_text_for_streaming` (module
  `Streaming`). A quality preset (`fast`, `balanced`, `high`) chooses a chunk
  size and a strategy: paragraph, sentence, word or fixed. Each strategy
  has its own greedy packer. `get_streaming_settings` reports the resolved
  parameters.
- **The long-text chunker** `chunk_text` and `split_text_for_long_generation`
  (module `Chunking`). These use the hierarchical boundary cascade of
  module `Boundary`. It tries a paragraph break in the upper half of the
  window, then a sentence ending past 40 %, then a clause delimiter past
  30 %, then the last space, then a hard cut. The long-text path also
  turns chunks into indexed records with a 50-character preview.

Module `Policy` holds the long-text processing-time estimate and the
input validation with its exact messages. Module `Audio` holds the
concatenation of audio segments with silence between them.

The supporting modules are:

- `Text`, which models Python's `str.strip`, `str.split()`, `str.split(sep)`,
  `str.find` and `" ".join`;
- `Separators`, which gives hand-written matchers for the two regular
  expressions the core splits on (`\n\s*\n` and `(?<=[.!?])\s+`);
- `Settings`, which holds the configuration values the core reads.

The main property shared by the chunkers is stated as `GoodChunks(chunks,
max)`: every chunk is non-empty, has no surrounding whitespace, and is at
most `max` characters. Content preservation is stated as `NonSpace(Flatten(chunks)) ==
NonSpace(text)`: the non-whitespace characters of the chunks, in order, are
exactly those of the input. Where a splitter drops delimiters, content is
stated as a subsequence: `Subseq(NonSpace(Flatten(chunks)), NonSpace(text))`
says the chunks' non-whitespace characters all occur in the text's, in the
same order. Each loop is a method proved against a
specification function, or proved to keep these invariants step by step.

Three behaviours of the code are easy to misread, and the model keeps all
of them as written:

- The sentence and clause tiers (`_try_split_at_sentences`,
  `_try_split_at_clauses`) do not take the rightmost boundary within the
  window. They loop over the delimiters in list order. For each delimiter
  that has an occurrence within the window, they overwrite `best_split` with
  that delimiter's rightmost occurrence. So the last listed delimiter that
  occurs within the window wins, even when an earlier-listed delimiter
  occurs further right. `Boundary.LastListedEndSome` states this behaviour.
- The repetition test of `validate_long_text_input` compares the number
  of distinct words with a strict `<` against 10 % of the word count. Read exactly, a text with exactly 10 %
  distinct words is not repetitive (see "Left out" for floating point).
- The legacy sentence scan (lines 34-38) compares each ending's start `pos`
  with `best_split`, which holds an end. This never changes the result.
  Every ending is a punctuation mark followed by a space or newline, so the
  running `best_split` is the end of the text or follows a space or newline.
  An ending that starts before it therefore ends at or before it.
  `Legacy.EarliestCutMin` proves that the cut is the earliest end of any
  ending.

## Model

| member | source | states |
|---|---|---|
| Text.StripFacts | app/core/text_processing.py:489 | `strip()` never lengthens, leaves no surrounding whitespace, is empty exactly for a blank string, and removes no non-whitespace character |
| Text.FlattenWords | app/core/text_processing.py:448 | the words of `split()` are non-empty, space-free, and together are exactly the non-whitespace characters of the text in order |
| Text.WordsEmpty | app/core/text_processing.py:722 | `split()` gives no words exactly when the text is blank |
| Text.Find | app/core/text_processing.py:603 | `find(sub, start)` returns the first occurrence at or after `start`, and None only when there is none |
| Text.JoinSplitOn | app/core/text_processing.py:296 | joining the parts of `split(sep)` with `sep` gives back the string that was split |
| Text.SplitOnPartsFree | app/core/text_processing.py:296 | no part of `split(sep)` contains `sep` |
| Text.KeepNonBlank | app/core/text_processing.py:197 | the final filter keeps only non-blank chunks, all taken from the input, and is the identity on a list with no blank chunk |
| Text.KeepNonBlankKeepsAll | app/core/text_processing.py:197 | every non-blank chunk of the input survives the filter |
| Text.KeepNonBlankAppend | app/core/text_processing.py:197 | the filter keeps the order: filtering a concatenation filters each part in turn, and a single chunk is kept exactly when it is not blank |
| Text.StrippedNonEmptyKeepsText | app/core/text_processing.py:420 | stripping the segments and dropping blank ones keeps every non-whitespace character in order |
| Text.KeepNonBlankKeepsText | app/core/text_processing.py:197 | the final blank filter drops only whitespace: the kept chunks hold every non-whitespace character of the list, in order |
| Text.Lower | app/core/text_processing.py:398 | `lower()` keeps the length, leaves no letter A-Z in the result (so lower-casing twice changes nothing more), and returns a string without one unchanged |
| Separators.MatchAt | app/core/text_processing.py:572 | a separator match that starts at i ends after i within the text and covers only whitespace; a paragraph-break match starts and ends with a newline and so spans at least two characters; a sentence-gap match follows one of `.`, `!`, `?` and takes the whole whitespace run, stopping at the end of the text or at a non-whitespace character |
| Separators.MatchEnds | app/core/text_processing.py:572 | the ends of successive non-overlapping matches lie within the text and strictly increase |
| Separators.SegmentsKeepText | app/core/text_processing.py:166 | `re.split` on either separator removes only whitespace: the segments keep every non-whitespace character in order |
| Boundary.LargestAtMost | app/core/text_processing.py:578-583 | the largest listed position within the limit, and None exactly when every position is over it |
| Boundary.ParagraphTier | app/core/text_processing.py:568-591 | the paragraph tier returns the last paragraph-break end within the window, only if it lies past half the window; None means no in-window break end passes half |
| Boundary.LargestAtMostPrefix | app/core/text_processing.py:579-583 | stopping at the first match end beyond the limit (the `break`) gives the same answer as scanning every match |
| Boundary.TrySplitAtParagraphs | app/core/text_processing.py:568-591 | the loop over the regex matches computes `ParagraphTier` |
| Boundary.LastEndAtMost | app/core/text_processing.py:601-611 | the `find` loop for one delimiter yields the end of its rightmost occurrence that ends within the window, or None when no occurrence does |
| Boundary.LastListedEndNone | app/core/text_processing.py:599-612 | delimiters with no occurrence inside the window leave `best_split` unchanged |
| Boundary.LastListedEndSome | app/core/text_processing.py:599-612 | the result is the rightmost in-window occurrence of the last listed delimiter that has one |
| Boundary.LastListedEndBound | app/core/text_processing.py:606-609 | the chosen end never lies beyond the window |
| Boundary.ScanDelimiter | app/core/text_processing.py:601-611 | the `while True` / `find` loop for one delimiter overrides the running best exactly as `LastEndAtMost` says |
| Boundary.ScanDelimiters | app/core/text_processing.py:599-612 | the loop over the delimiter list computes `LastListedEnd` |
| Boundary.SentenceBest | app/core/text_processing.py:597-612 | `best_split` after the loop over the 12 sentence endings is `LastListedEnd` over them, and never beyond the window |
| Boundary.ClauseBest | app/core/text_processing.py:625-639 | `best_split` after the loop over the 10 clause delimiters is `LastListedEnd` over them, and never beyond the window |
| Boundary.SentenceTier | app/core/text_processing.py:594-619 | an accepted sentence split is `SentenceBest`, within the window and past 40 % of it; the tier declines exactly when that end is missing, 0, or not past 40 % |
| Boundary.ClauseTier | app/core/text_processing.py:622-646 | an accepted clause split is `ClauseBest`, within the window and past 30 % of it; the tier declines exactly when that end is missing, 0, or not past 30 % |
| Boundary.TrySplitAtSentences | app/core/text_processing.py:594-619 | the method computes `SentenceTier` |
| Boundary.TrySplitAtClauses | app/core/text_processing.py:622-646 | the method computes `ClauseTier` |
| Boundary.LastSpaceBefore | app/core/text_processing.py:655 | `rfind(' ', 0, max)`: the last space before the limit, or None when there is no space before it |
| Boundary.WordSplitPos | app/core/text_processing.py:649-663 | the word split is at the last space before the limit; with no such space it is a hard cut at the limit |
| Boundary.SplitPoint | app/core/text_processing.py:545-565 | the cascade takes the paragraph tier first, then the sentence tier, then the clause tier, then the word split; the cut never exceeds the window |
| Boundary.SplitPointPositive | app/core/text_processing.py:586 | on a stripped text the chosen cut is never at position 0 |
| Boundary.CutFacts | app/core/text_processing.py:587-588 | cutting at p and stripping both sides keeps all non-whitespace characters, bounds the head by p, and shortens the tail when the head is non-empty |
| Boundary.FindBestSplitPoint | app/core/text_processing.py:539-565 | a text within the limit comes back whole; otherwise the head is stripped and within the limit, head and tail keep the text, the head of a stripped text is non-empty, and the tail is shorter than the input |
| Boundary.FindBestSplit | app/core/text_processing.py:539-565 | the tiers tried in order compute `FindBestSplitPoint` |
| Chunking.ChunkHierarchical | app/core/text_processing.py:485-505 | the hierarchical chunker returns good chunks (non-empty, stripped, within the limit) that keep the text's content; the loop ends because the remainder shrinks |
| Chunking.Paragraphs | app/core/text_processing.py:420 | the paragraphs are non-empty and stripped |
| Chunking.ParagraphsKeepText | app/core/text_processing.py:420 | the paragraphs keep every non-whitespace character of the text in order |
| Chunking.ChunkByParagraphs | app/core/text_processing.py:417-442 | the paragraph chunker returns good chunks that keep the text's content |
| Chunking.PackParagraphs | app/core/text_processing.py:424-442 | packing paragraphs with blank lines and refining each group hierarchically gives good chunks holding exactly the paragraphs' content |
| Chunking.PackStep | app/core/text_processing.py:427-437 | one paragraph: the closed chunks stay good, a pending group always remains afterwards, and the text held by the closed chunks and the pending group grows by exactly the paragraph's text |
| Chunking.ChunkByWords | app/core/text_processing.py:445-482 | the word chunker returns good chunks that keep the text's content, after the refinement of any over-long chunk |
| Chunking.PackWords | app/core/text_processing.py:452-473 | the packing loop and the closing of the last chunk give non-empty stripped chunks holding exactly the words, in order |
| Chunking.RefineChunks | app/core/text_processing.py:475-482 | the refinement loop turns the packed chunks into good chunks with the same content |
| Chunking.WordStep | app/core/text_processing.py:456-468 | one word: closed chunks stay non-empty and stripped, pending words stay non-empty and space-free, the tracked length stays the length of the pending words joined by spaces, and the text held by the chunks and the pending words grows by exactly the word |
| Chunking.RefineStep | app/core/text_processing.py:475-481 | one chunk: the refined chunks stay good, and their text grows by exactly the chunk's text |
| Chunking.PackedChunk | app/core/text_processing.py:461 | the pending words joined by spaces and stripped form a non-empty stripped chunk whose content is exactly the words |
| Chunking.Windows | app/core/text_processing.py:403 | the fixed windows `text[i:i+n]` for i stepping by n are each at most n long and concatenate back to the text |
| Chunking.WindowsWidths | app/core/text_processing.py:403 | every window is non-empty, and every window but the last is exactly n long |
| Chunking.WindowsCount | app/core/text_processing.py:403 | there are ceil(len / n) windows: n times one fewer is short of the text, n times their number covers it |
| Chunking.WindowsExample | app/core/text_processing.py:403 | 1000 characters in windows of 100 make exactly 10 windows |
| Chunking.FixedChunks | app/core/text_processing.py:400-405 | the fixed strategy gives good chunks that keep the text's content |
| Chunking.ResolvedMax | app/core/text_processing.py:386-387 | a missing or non-positive limit falls back to `LONG_TEXT_CHUNK_SIZE`; a positive limit is kept |
| Chunking.EffectiveMax | app/core/text_processing.py:389-392 | the effective limit is positive, at most the resolved limit, at most `MAX_TOTAL_LENGTH - 100` when that is positive, and equal to one of the two |
| Chunking.ChunkText | app/core/text_processing.py:383-414 | a blank text gives no chunks and any other text at least one; every strategy returns good chunks under the effective limit that keep the text's content; the strategy name "fixed" (after lower-casing) gives exactly the stripped fixed windows of the stripped text |
| Chunking.BuildRecords | app/core/text_processing.py:525-534 | one record per chunk, in order: its index, its text, its length, and a preview that is the text itself up to 50 characters and otherwise the first 50 followed by "..." |
| Chunking.SplitTextForLongGeneration | app/core/text_processing.py:508-536 | no records exactly for a blank text; otherwise the record texts are good chunks under the effective limit that keep the text's content, and carry index, length and preview |
| Streaming.ResolveStreamingParams | app/core/text_processing.py:134-147 | the resolved size is non-zero and the strategy non-empty; given fields win; missing fields come from the quality preset; with no preset they default to 200 and "sentence" |
| Streaming.ResolveNothingGiven | app/core/text_processing.py:145-147 | with nothing given and the balanced (or no) quality the parameters are (200, "sentence") |
| Streaming.GetStreamingSettings | app/core/text_processing.py:321-348 | the reported chunk size and strategy are the ones the splitter resolves; the quality defaults to "balanced" |
| Streaming.ModeOf | app/core/text_processing.py:150-160 | the strategy is "paragraph", "word" or "fixed" exactly when its name says so; every other name means sentence |
| Streaming.SplitTextForStreaming | app/core/text_processing.py:115-160 | every strategy returns good chunks under the resolved size; with a positive size the paragraph and sentence strategies give chunks whose non-whitespace characters appear in the text's in order, and the word strategy keeps exactly the text's content; the fixed strategy is exactly `FixedChunks` (none for a negative size) |
| Streaming.Merge | app/core/text_processing.py:177-180 | appending a piece to the pending chunk gives a non-empty stripped chunk no longer than the parts and separator together |
| Streaming.Close | app/core/text_processing.py:194-195 | closing the pending chunk appends it when non-empty and keeps all chunks good |
| Streaming.GoodChunksKeep | app/core/text_processing.py:197 | the final blank filter changes nothing on good chunks |
| Streaming.CloseKeepsText | app/core/text_processing.py:194-195 | closing the pending chunk puts its text after the chunks' text |
| Streaming.MergeKeepsText | app/core/text_processing.py:176-180 | joining a piece to the pending chunk with a blank separator adds exactly the piece's text after what is already held |
| Streaming.ExtendKeepsText | app/core/text_processing.py:187-192 | closing, then extending by the sub-splitter's chunks or starting a new pending chunk, keeps what is held a subsequence of the text read so far |
| Streaming.SplitByParagraphs | app/core/text_processing.py:163-197 | the streaming paragraph splitter returns good chunks under the limit; with a positive limit their non-whitespace characters appear in the text's, in order |
| Streaming.ParagraphStep | app/core/text_processing.py:170-192 | one paragraph: chunks stay good and the pending chunk within the limit; what the chunks and pending chunk hold stays a subsequence of the text read so far followed by the paragraph |
| Streaming.CloseForParagraph | app/core/text_processing.py:181-192 | a paragraph that does not fit closes the pending chunk and starts the next one, or goes to the sentence splitter when over the limit; chunks stay good and what they hold stays a subsequence of the text read so far followed by the paragraph |
| Streaming.SplitBySentences | app/core/text_processing.py:200-236 | the streaming sentence splitter returns good chunks under the limit; with a positive limit their non-whitespace characters appear in the text's, in order |
| Streaming.SentenceStep | app/core/text_processing.py:209-231 | one sentence: chunks stay good and the pending chunk within the limit; what the chunks and pending chunk hold stays a subsequence of the text read so far followed by the sentence |
| Streaming.CloseForSentence | app/core/text_processing.py:220-231 | a sentence that does not fit closes the pending chunk and starts the next one, or goes to the delimiter fold when over the limit; chunks stay good and what they hold stays a subsequence of the text read so far followed by the sentence |
| Streaming.SliceWord | app/core/text_processing.py:258-261 | an over-long word is cut into exactly the fixed windows of the limit: non-empty, space-free slices, each exactly the limit long except the last, that concatenate back to the word; a negative limit gives no slices |
| Streaming.WindowsNoSpace | app/core/text_processing.py:258-261 | every slice of a word without whitespace is itself without whitespace |
| Streaming.SplitByWords | app/core/text_processing.py:239-269 | the streaming word splitter returns good chunks under the limit, and with a positive limit keeps the text's content |
| Streaming.PackWord | app/core/text_processing.py:245-266 | one word extends, closes or is sliced; chunks and pending chunk stay good, and with a positive limit no content is lost |
| Streaming.SplitByFixedSize | app/core/text_processing.py:272-280 | the loop over `range(0, len, size)` computes `FixedChunks`, and gives no chunk for a negative size |
| Streaming.PackRunPieces | app/core/text_processing.py:297-306 | from parts free of the delimiter and a pending piece within the limit or free of it, every piece packed is non-empty and within the limit or free of the delimiter |
| Streaming.PackRunWithin | app/core/text_processing.py:296-306 | the pieces packed from a pending piece and the parts are a subsequence of the pending piece followed by the delimiter-prefixed parts: nothing is added or reordered |
| Streaming.PackRunCovers | app/core/text_processing.py:296-306 | every character of the pending piece and of the parts comes out in the pieces, in order: only delimiters are dropped |
| Streaming.JoinPrefixed | app/core/text_processing.py:296 | joining parts with the delimiter is the first part followed by each later part prefixed with the delimiter |
| Streaming.PackParts | app/core/text_processing.py:296-306 | the packing loop over the parts of one `split(delimiter)` computes `PackRun`: non-empty pieces, each within the limit or free of the delimiter; the pieces put together are the joined parts with some delimiters deleted, and they contain every part's characters in order |
| Streaming.ResplitAt | app/core/text_processing.py:290-307 | one delimiter pass computes `Resplit`: every piece is non-empty and within the limit or free of the delimiter; the pieces put together are a subsequence of the chunks put together; a pass over chunks all within the limit returns them unchanged |
| Streaming.ResplitShort | app/core/text_processing.py:292-294 | a pass over chunks that are all within the limit is the identity |
| Streaming.ResplitKeepsShort | app/core/text_processing.py:292-294 | a chunk within the limit comes through a pass unchanged, in its place between the pieces of the chunks before and after it |
| Streaming.ResplitAppend | app/core/text_processing.py:291-307 | a pass over two lists is the pass over the first followed by the pass over the second |
| Streaming.ResplitOneFacts | app/core/text_processing.py:293-306 | the pieces of one chunk are non-empty, within the limit or free of the delimiter, and a subsequence of the chunk |
| Streaming.ResplitFacts | app/core/text_processing.py:290-307 | the pieces of a pass are non-empty, within the limit or free of the delimiter, and a subsequence of the chunks put together |
| Streaming.SplitLongSentence | app/core/text_processing.py:283-318 | after the eight delimiter passes and the final strip and filter, the chunks are good under the limit; with a positive limit their non-whitespace characters appear in the sentence's, in order |
| Legacy.EarliestCutBounds | app/core/text_processing.py:34-37 | the cut after the endings loop lies within the text, and a cut that moved is the end of an occurrence of a listed ending |
| Legacy.EarliestCutMin | app/core/text_processing.py:31-38 | although the loop compares an ending's start `pos` with `best_split`, which is an end, the cut it settles on is at or before the end of every occurrence of every ending, because every ending starts with a punctuation mark and the running cut follows a space, a newline or the end of the text |
| Legacy.SentenceCut | app/core/text_processing.py:34-37 | the loop over the six endings computes `EarliestCut` |
| Legacy.SentenceCutBounds | app/core/text_processing.py:30-46 | on a non-empty remainder the cut is never 0, follows a sentence ending when it is not the end, and lies at or before the end of every occurrence of every ending |
| Legacy.CutSentence | app/core/text_processing.py:31-46 | one turn of the sentence loop cuts a non-empty sentence off the front; the sentence and the rest make up the text; the sentence ends with a sentence ending unless it is the whole remainder, and holds no occurrence of an ending that ends before its own end |
| Legacy.SentencePrefix | app/core/text_processing.py:30-46 | the prefix up to the cut is non-empty, ends with a sentence ending unless it is the whole text, and contains no ending that ends earlier |
| Legacy.LegacySentences | app/core/text_processing.py:27-46 | the sentences are non-empty and concatenate back to the text; each except the last ends with a sentence ending, and none holds an ending before its own end, so each stops at the first ending |
| Legacy.SplitTextIntoChunks | app/core/text_processing.py:13-112 | a text within the limit comes back as the single chunk; otherwise every chunk is non-empty, stripped, and at most one character over the limit unless it is a single word, and the chunks' non-whitespace characters appear in the text's, in order |
| Legacy.GroupSentence | app/core/text_processing.py:49-104 | one sentence of the grouping loop: chunks stay within the legacy promise and the pending chunk trimmed and at most one over the limit; what they hold stays a subsequence of the text read so far followed by the sentence |
| Legacy.CloseChunk | app/core/text_processing.py:56-104 | closing the pending chunk and starting the next one with the sentence, or sub-splitting it, keeps those promises and that subsequence |
| Legacy.LegacySubSplit | app/core/text_processing.py:62-104 | the sub-delimiter passes and the word fallback give stripped chunks, at most one over the limit unless a single word, whose non-whitespace characters appear in the sentence's, in order |
| Legacy.LegacyWordPack | app/core/text_processing.py:91-100 | the word fallback gives non-empty stripped chunks within the limit unless a single word, holding exactly the words of the piece |
| Legacy.LegacyWordStep | app/core/text_processing.py:93-99 | one word: closed chunks and the pending chunk stay non-empty, stripped and within the limit unless a single word, and the text they hold grows by exactly the word |
| Policy.TruncDivBounds | app/core/text_processing.py:693 | `int()` of the exact quotient truncates toward zero: for n >= 0 it is the largest q with q * d <= n, for n < 0 the smallest q with n <= q * d |
| Policy.EstimateChunkSize | app/core/text_processing.py:685-687 | the chunk size used for the estimate is positive; a missing, zero or negative size falls back to `LONG_TEXT_CHUNK_SIZE`; a given positive size is used as it is |
| Policy.NumChunks | app/core/text_processing.py:690 | the estimated number of chunks is at least one |
| Policy.NumChunksIsCeiling | app/core/text_processing.py:690 | for a positive length, the number of chunks is the ceiling of length over chunk size |
| Policy.EstimateAtLeastOverhead | app/core/text_processing.py:683-693 | any non-negative length costs at least 17 seconds |
| Policy.EstimateProcessingTime | app/core/text_processing.py:666-693 | for a non-negative length the estimate is the reading time `length // rate`, plus 15, plus 2 seconds per chunk |
| Policy.EstimateMonotone | app/core/text_processing.py:683-693 | a longer text never gets a smaller estimate |
| Policy.EstimateExample | app/core/text_processing.py:666-693 | 1000 characters at 25 per second in chunks of 200 take 65 seconds |
| Policy.NatToDecimal | app/core/text_processing.py:711-719 | `str(n)` is a non-empty string of decimal digits with no leading zero: it starts with `0` only for 0 itself |
| Policy.DecimalRoundTrip | app/core/text_processing.py:711-719 | reading the digits of `str(n)` back gives n |
| Policy.IntDecimalRoundTrip | app/core/text_processing.py:711-719 | `str(n)` of any integer, negative ones included, is an optional minus sign and digits, and reading it back gives n |
| Policy.ValidateLongTextInput | app/core/text_processing.py:696-726 | the input is valid exactly when it is not blank, its stripped length is within the configured range, and it is not repetitive; valid exactly when the message is empty; each failed check (blank, too short, too long, repetitive) gives its own message, the first failing check in that order deciding |
| Audio.ConcatenateAudioChunks | app/core/text_processing.py:353-380 | the result is the segments in order with one run of silence between neighbours; a single segment comes back unchanged |
| Audio.StitchLength | app/core/text_processing.py:367-371 | the output length is the total samples plus (n - 1) silences |
| Audio.StitchPlacesChunk | app/core/text_processing.py:367-371 | segment k appears unchanged at its offset, after a run of silence unless it is the first |

## Left out

- The regular-expression engine: `re.split` and `re.finditer` are replaced by hand-written matchers for the two patterns used. `\s` is read as the characters for which `str.isspace()` holds.
- Text.Lower: maps only ASCII letters; Python's Unicode case mapping is not modelled.
- Floating point: the thresholds `max_length * 0.5`, `* 0.4` and `* 0.3` (lines 586, 614, 641) and the repetition test `len(words) * 0.1` (line 723) are compared in integers: `2 * p > m`, `10 * p > 4 * m`, `10 * p > 3 * m` and `10 * d < n`. For these constants the integer forms agree with the float tests. The doubles nearest 0.1, 0.3 and 0.4 differ from them by a relative error of at most 2^-54. So a product that is exactly a whole number rounds back to it (`30 * 0.1` is `3.0`), and a product that is not a whole number stays at least 0.1 away from every whole number. The argument needs operands below about 2^49; beyond that, IEEE rounding is not modelled.
- Policy.EstimateProcessingTime: the average rate is a positive whole number of characters per second, not a float. For a negative length the contract gives no closed form; `EstimateMonotone` still covers it.
- The `overlap_chars` argument of the boundary functions: it is always 0 in the core, so the model fixes it at 0.
- The hard-cut fallback of `_chunk_hierarchical` (lines 498-500): it is unreachable. On a stripped remainder longer than the limit, `FindBestSplitPoint` always returns a non-empty head.
- Streaming.SplitByParagraphs, Streaming.SplitBySentences, Streaming.SplitLongSentence, Legacy.SplitTextIntoChunks, Legacy.LegacySubSplit: content is stated as a subsequence, not an equality. The delimiter passes drop the delimiter at every cut, including words such as " and ", so these splitters do not keep every character of the text. For the streaming ones the claim needs a positive limit.
- Streaming.SplitByWords, Streaming.SliceWord and the other streaming helpers: they require a non-zero size, because `range(0, n, 0)` raises `ValueError` in the source. `split_text_for_streaming` never passes 0: `chunk_size or preset` turns 0 into the preset size.
- Streaming.SplitTextForStreaming: a negative chunk size makes `range` empty and the chunks vacuously good. Content is only claimed for a positive size: exactly for the word strategy, as a subsequence for the paragraph and sentence strategies.
- Legacy.SplitTextIntoChunks: the packing test ignores the joining space, so a chunk can be one character over the limit. A word longer than the limit passes through whole. The contract states both quirks rather than the limit itself.
- Audio.ConcatenateAudioChunks: tensors are single-channel sample sequences. The silence length `int(0.1 * sample_rate)` is a parameter. Device placement, `torch.no_grad` and garbage collection are not modelled.
- Settings.Config.Valid: the model requires `LONG_TEXT_CHUNK_SIZE >= 1`, which the source does not check. With a size of 0, `chunk_text` with no limit or a non-positive one never finishes: `_chunk_hierarchical` keeps a non-empty remainder, `_find_best_split_point` finds no boundary and cuts at 0, the hard cut `remaining_text[:0]` gives an empty head too, and the remainder never shrinks (lines 493-500). The fixed strategy raises `ValueError` from `range(0, n, 0)` (line 403) and `estimate_processing_time` raises `ZeroDivisionError` (line 690). None of these runs is modelled.
- Audio.ConcatenateAudioChunks: the model requires at least one segment. The source raises `IndexError` on an empty list, when it reads `audio_chunks[0]` (line 362); that error path is not modelled.
- Configuration: `Config` values are fields of a `Settings.Config` value passed as a parameter. Environment-variable loading is not modelled.
- Chunking.BuildRecords: the `LongTextChunk` record is a plain datatype. The validation the record library performs on construction is not modelled.
- `app/models/__init__.py` and everything outside `app/core/text_processing.py` are not part of this model.
