/**
 * The streaming splitters: `split_text_for_streaming` with its quality
 * presets, the four strategies (paragraph, sentence, word, fixed size), the
 * delimiter fold for over-long sentences, and `get_streaming_settings`.
 *
 * Every strategy delivers non-empty, trimmed chunks no longer than the chunk
 * size. A negative chunk size (a truthy value, so the presets keep it) makes
 * every strategy return no chunk at all. A chunk size of 0 never reaches the
 * strategies from the dispatcher; called directly with it they raise the
 * `range()` error, so they require a non-zero size.
 */
module Streaming {
  import opened Text
  import opened Separators
  import opened Chunking

  // ---------------------------------------------------------------- presets

  /** A field counts as given when it is truthy: `None` and 0 do not. */
  predicate GivenSize(x: Option<int>) {
    x.Some? && x.value != 0
  }

  /** A field counts as given when it is truthy: `None` and "" do not. */
  predicate GivenName(x: Option<string>) {
    x.Some? && x.value != []
  }

  /** `x or d`. */
  function SizeOr(x: Option<int>, d: int): (r: int)
    ensures GivenSize(x) ==> r == x.value
    ensures !GivenSize(x) ==> r == d
  {
    if GivenSize(x) then x.value else d
  }

  /** `x or d`. */
  function NameOr(x: Option<string>, d: string): (r: string)
    ensures GivenName(x) ==> r == x.value
    ensures !GivenName(x) ==> r == d
  {
    if GivenName(x) then x.value else d
  }

  /** The (chunk size, strategy) a quality preset supplies. */
  function PresetFor(quality: string): Option<(int, string)> {
    if quality == "fast" then Some((100, "word"))
    else if quality == "balanced" then Some((200, "sentence"))
    else if quality == "high" then Some((300, "paragraph"))
    else None
  }

  /** The preset of a given quality, if it names one. */
  function QualityPreset(quality: Option<string>): Option<(int, string)> {
    if GivenName(quality) then PresetFor(quality.value) else None
  }

  /** The chunk size and strategy `split_text_for_streaming` settles on:
      the preset fills the fields that are not given, and the defaults
      (200, "sentence") fill what is still missing. */
  function ResolveStreamingParams(chunkSize: Option<int>, strategy: Option<string>, quality: Option<string>)
    : (r: (int, string))
    ensures r.0 != 0 && r.1 != []
    ensures GivenSize(chunkSize) ==> r.0 == chunkSize.value
    ensures GivenName(strategy) ==> r.1 == strategy.value
    ensures !GivenSize(chunkSize) && QualityPreset(quality).Some? ==> r.0 == QualityPreset(quality).value.0
    ensures !GivenName(strategy) && QualityPreset(quality).Some? ==> r.1 == QualityPreset(quality).value.1
    ensures !GivenSize(chunkSize) && QualityPreset(quality).None? ==> r.0 == 200
    ensures !GivenName(strategy) && QualityPreset(quality).None? ==> r.1 == "sentence"
  {
    var preset := QualityPreset(quality);
    var size := if preset.Some? then Some(SizeOr(chunkSize, preset.value.0)) else chunkSize;
    var name := if preset.Some? then Some(NameOr(strategy, preset.value.1)) else strategy;
    (SizeOr(size, 200), NameOr(name, "sentence"))
  }

  /** With nothing given, streaming uses sentence splitting into chunks of 200. */
  lemma ResolveNothingGiven(quality: Option<string>)
    requires !GivenName(quality) || quality.value == "balanced"
    ensures ResolveStreamingParams(None, None, quality) == (200, "sentence")
  {
  }

  /** The dictionary `get_streaming_settings` returns. */
  datatype StreamingSettings = StreamingSettings(chunkSize: int, strategy: string, quality: string)

  /** `get_streaming_settings`: start from the defaults, then let a
      fast or high quality replace each field that was not given. It agrees
      with the resolution `split_text_for_streaming` performs. */
  method GetStreamingSettings(chunkSize: Option<int>, strategy: Option<string>, quality: Option<string>)
    returns (settings: StreamingSettings)
    ensures settings.chunkSize == ResolveStreamingParams(chunkSize, strategy, quality).0
    ensures settings.strategy == ResolveStreamingParams(chunkSize, strategy, quality).1
    ensures GivenName(quality) ==> settings.quality == quality.value
    ensures !GivenName(quality) ==> settings.quality == "balanced"
  {
    settings := StreamingSettings(SizeOr(chunkSize, 200), NameOr(strategy, "sentence"), NameOr(quality, "balanced"));
    if GivenName(quality) && !GivenSize(chunkSize) {
      if quality.value == "fast" {
        settings := settings.(chunkSize := 100);
      } else if quality.value == "high" {
        settings := settings.(chunkSize := 300);
      }
    }
    if GivenName(quality) && !GivenName(strategy) {
      if quality.value == "fast" {
        settings := settings.(strategy := "word");
      } else if quality.value == "high" {
        settings := settings.(strategy := "paragraph");
      }
    }
  }

  /** The four streaming strategies. */
  datatype Mode = ByParagraph | BySentence | ByWord | ByFixedSize

  /** The strategy a name selects; any name but the four known ones
      selects sentence splitting. */
  function ModeOf(name: string): (m: Mode)
    ensures m == ByParagraph <==> name == "paragraph"
    ensures m == ByWord <==> name == "word"
    ensures m == ByFixedSize <==> name == "fixed"
    ensures m == BySentence <==> name != "paragraph" && name != "word" && name != "fixed"
  {
    if name == "paragraph" then ByParagraph
    else if name == "sentence" then BySentence
    else if name == "word" then ByWord
    else if name == "fixed" then ByFixedSize
    else BySentence
  }

  /** `split_text_for_streaming`. */
  method SplitTextForStreaming(text: string, chunkSize: Option<int>, strategy: Option<string>, quality: Option<string>)
    returns (chunks: seq<string>)
    ensures var (size, name) := ResolveStreamingParams(chunkSize, strategy, quality);
      && GoodChunks(chunks, size)
      && ((ModeOf(name) == ByParagraph || ModeOf(name) == BySentence) && size >= 1 ==>
            Subseq(NonSpace(Flatten(chunks)), NonSpace(text)))
      && (ModeOf(name) == ByWord && size >= 1 ==> NonSpace(Flatten(chunks)) == NonSpace(text))
      && (ModeOf(name) == ByFixedSize ==> chunks == (if size < 0 then [] else FixedChunks(text, size)))
  {
    var (size, name) := ResolveStreamingParams(chunkSize, strategy, quality);
    match ModeOf(name)
    case ByParagraph => chunks := SplitByParagraphs(text, size);
    case BySentence => chunks := SplitBySentences(text, size);
    case ByWord => chunks := SplitByWords(text, size);
    case ByFixedSize => chunks := SplitByFixedSize(text, size);
  }

  // ---------------------------------------------------------------- greedy merging

  /** The pending chunk of a greedy merge: empty, or trimmed and within the limit. */
  predicate PendingOk(current: string, maxLength: int) {
    current == [] || (IsTrimmed(current) && |current| <= maxLength)
  }

  /** `current + sep + piece` when there is a pending chunk, else `piece`. */
  function Merge(current: string, sep: string, piece: string): (r: string)
    requires IsTrimmed(current) && piece != [] && IsTrimmed(piece)
    ensures r != [] && IsTrimmed(r)
    ensures |r| <= |current| + |sep| + |piece|
  {
    if current != [] then current + sep + piece else piece
  }

  /** Closing the pending chunk: `chunks.append(current.strip())` when it is not empty. */
  function Close(chunks: seq<string>, current: string, maxLength: int): (r: seq<string>)
    requires GoodChunks(chunks, maxLength) && PendingOk(current, maxLength)
    ensures GoodChunks(r, maxLength)
    ensures current == [] ==> r == chunks
    ensures current != [] ==> r == chunks + [current]
  {
    if current != [] then
      StripOfTrimmed(current);
      chunks + [Strip(current)]
    else chunks
  }

  /** Closing the pending chunk keeps its text after the chunks'. */
  lemma CloseKeepsText(chunks: seq<string>, current: string, maxLength: int)
    requires GoodChunks(chunks, maxLength) && PendingOk(current, maxLength)
    ensures NonSpace(Flatten(Close(chunks, current, maxLength))) == NonSpace(Flatten(chunks)) + NonSpace(current)
  {
    if current != [] {
      NonSpaceFlattenSnoc(chunks, current);
    } else {
      assert NonSpace(current) == [];
    }
  }

  /** Merging a piece into the pending chunk through a blank separator adds
      the piece's text after what the chunks and the pending chunk hold. */
  lemma MergeKeepsText(chunks: seq<string>, current: string, sep: string, piece: string, whole: string, added: string)
    requires IsTrimmed(current) && piece != [] && IsTrimmed(piece) && IsBlank(sep)
    requires Subseq(NonSpace(Flatten(chunks)) + NonSpace(current), whole)
    requires NonSpace(piece) == added
    ensures Subseq(NonSpace(Flatten(chunks)) + NonSpace(Merge(current, sep, piece)), whole + added)
  {
    assert NonSpace(Merge(current, sep, piece)) == NonSpace(current) + added by {
      if current != [] {
        NonSpaceSkipBlank(current, sep, piece);
      } else {
        assert NonSpace(current) == [];
      }
    }
    AppendAssoc(NonSpace(Flatten(chunks)), NonSpace(current), added);
    SubseqRefl(added);
    SubseqConcat(NonSpace(Flatten(chunks)) + NonSpace(current), whole, added, added);
  }

  /** After the pending chunk is closed, further chunks `tail` and a new
      pending chunk drawn from `added` keep the order of the text. */
  lemma ExtendKeepsText(closed: seq<string>, tail: seq<string>, current: string, whole: string, added: string)
    requires Subseq(NonSpace(Flatten(closed)), whole)
    requires Subseq(NonSpace(Flatten(tail)) + NonSpace(current), added)
    ensures Subseq(NonSpace(Flatten(closed + tail)) + NonSpace(current), whole + added)
  {
    NonSpaceFlattenAppend(closed, tail);
    AppendAssoc(NonSpace(Flatten(closed)), NonSpace(Flatten(tail)), NonSpace(current));
    SubseqConcat(NonSpace(Flatten(closed)), whole, NonSpace(Flatten(tail)) + NonSpace(current), added);
  }

  /** The final `[c for c in chunks if c.strip()]`: good chunks are never blank. */
  lemma GoodChunksKeep(chunks: seq<string>, maxLength: int)
    requires GoodChunks(chunks, maxLength)
    ensures KeepNonBlank(chunks) == chunks
  {
    forall k | 0 <= k < |chunks| ensures !IsBlank(chunks[k]) {
      assert !IsSpace(chunks[k][0]);
    }
  }

  // ---------------------------------------------------------------- paragraphs

  /** `_split_by_paragraphs`: pack the stripped paragraphs of the stripped
      text, reserving 2 characters for each blank line between them; a
      paragraph longer than the limit goes to the sentence splitter. With a
      positive limit the chunks' non-whitespace characters appear in the
      text's, in order. */
  method SplitByParagraphs(text: string, maxLength: int) returns (chunks: seq<string>)
    requires maxLength != 0
    ensures GoodChunks(chunks, maxLength)
    ensures maxLength >= 1 ==> Subseq(NonSpace(Flatten(chunks)), NonSpace(text))
  {
    var paragraphs := Segments(ParagraphBreak, Strip(text));
    chunks := [];
    var current: string := [];
    for i := 0 to |paragraphs|
      invariant GoodChunks(chunks, maxLength) && PendingOk(current, maxLength)
      invariant maxLength >= 1 ==>
        Subseq(NonSpace(Flatten(chunks)) + NonSpace(current), NonSpace(Flatten(paragraphs[..i])))
    {
      FlattenPrefixSnoc(paragraphs, i);
      NonSpaceAppend(Flatten(paragraphs[..i]), paragraphs[i]);
      chunks, current := ParagraphStep(chunks, current, paragraphs[i], maxLength, NonSpace(Flatten(paragraphs[..i])));
    }
    assert paragraphs[..|paragraphs|] == paragraphs;
    CloseKeepsText(chunks, current, maxLength);
    chunks := Close(chunks, current, maxLength);
    GoodChunksKeep(chunks, maxLength);
    chunks := KeepNonBlank(chunks);
    SegmentsKeepText(ParagraphBreak, Strip(text));
    StripFacts(text);
  }

  /** One paragraph of `_split_by_paragraphs`: stripped and skipped when
      blank, merged with a blank line while it fits, otherwise the pending
      chunk is closed and the paragraph starts the next one or, when over
      the limit, goes to the sentence splitter. The chunks and the pending
      chunk hold a subsequence of the text read so far (`whole`) and the
      paragraph. */
  method ParagraphStep(chunks: seq<string>, current: string, raw: string, maxLength: int, ghost whole: string)
    returns (chunks': seq<string>, current': string)
    requires maxLength != 0
    requires GoodChunks(chunks, maxLength) && PendingOk(current, maxLength)
    requires maxLength >= 1 ==> Subseq(NonSpace(Flatten(chunks)) + NonSpace(current), whole)
    ensures GoodChunks(chunks', maxLength) && PendingOk(current', maxLength)
    ensures maxLength >= 1 ==> Subseq(NonSpace(Flatten(chunks')) + NonSpace(current'), whole + NonSpace(raw))
  {
    var paragraph := Strip(raw);
    StripFacts(raw);
    if paragraph == [] {
      assert whole + NonSpace(raw) == whole;
      return chunks, current;
    }
    if |current| + |paragraph| + 2 <= maxLength {
      assert IsBlank("\n\n");
      if maxLength >= 1 {
        MergeKeepsText(chunks, current, "\n\n", paragraph, whole, NonSpace(raw));
      }
      return chunks, Merge(current, "\n\n", paragraph);
    }
    chunks', current' := CloseForParagraph(chunks, current, paragraph, maxLength, whole);
  }

  /** The paragraph does not fit beside the pending chunk: close the
      pending chunk, then start the next one with the paragraph, or send it
      to the sentence splitter when it is over the limit on its own. */
  method CloseForParagraph(chunks: seq<string>, current: string, paragraph: string, maxLength: int, ghost whole: string)
    returns (chunks': seq<string>, current': string)
    requires maxLength != 0
    requires GoodChunks(chunks, maxLength) && PendingOk(current, maxLength)
    requires paragraph != [] && IsTrimmed(paragraph) && |current| + |paragraph| + 2 > maxLength
    requires maxLength >= 1 ==> Subseq(NonSpace(Flatten(chunks)) + NonSpace(current), whole)
    ensures GoodChunks(chunks', maxLength) && PendingOk(current', maxLength)
    ensures maxLength >= 1 ==> Subseq(NonSpace(Flatten(chunks')) + NonSpace(current'), whole + NonSpace(paragraph))
  {
    CloseKeepsText(chunks, current, maxLength);
    var closed := Close(chunks, current, maxLength);
    if |paragraph| > maxLength {
      var sentenceChunks := SplitBySentences(paragraph, maxLength);
      GoodChunksAppend(closed, sentenceChunks, maxLength);
      if maxLength >= 1 {
        assert NonSpace(Flatten(sentenceChunks)) + NonSpace([]) == NonSpace(Flatten(sentenceChunks));
        ExtendKeepsText(closed, sentenceChunks, [], whole, NonSpace(paragraph));
      }
      chunks', current' := closed + sentenceChunks, [];
    } else {
      if maxLength >= 1 {
        var none: seq<string> := [];
        assert NonSpace(Flatten(none)) + NonSpace(paragraph) == NonSpace(paragraph);
        SubseqRefl(NonSpace(paragraph));
        ExtendKeepsText(closed, none, paragraph, whole, NonSpace(paragraph));
        assert closed + none == closed;
      }
      chunks', current' := closed, paragraph;
    }
  }


  // ---------------------------------------------------------------- sentences

  /** `_split_by_sentences`: pack the stripped sentences of the stripped
      text, reserving 1 character for each joining space; a sentence longer
      than the limit goes to the delimiter fold. With a positive limit the
      chunks' non-whitespace characters appear in the text's, in order. */
  method SplitBySentences(text: string, maxLength: int) returns (chunks: seq<string>)
    requires maxLength != 0
    ensures GoodChunks(chunks, maxLength)
    ensures maxLength >= 1 ==> Subseq(NonSpace(Flatten(chunks)), NonSpace(text))
  {
    var sentences := Segments(SentenceGap, Strip(text));
    chunks := [];
    var current: string := [];
    for i := 0 to |sentences|
      invariant GoodChunks(chunks, maxLength) && PendingOk(current, maxLength)
      invariant maxLength >= 1 ==>
        Subseq(NonSpace(Flatten(chunks)) + NonSpace(current), NonSpace(Flatten(sentences[..i])))
    {
      FlattenPrefixSnoc(sentences, i);
      NonSpaceAppend(Flatten(sentences[..i]), sentences[i]);
      chunks, current := SentenceStep(chunks, current, sentences[i], maxLength, NonSpace(Flatten(sentences[..i])));
    }
    assert sentences[..|sentences|] == sentences;
    CloseKeepsText(chunks, current, maxLength);
    chunks := Close(chunks, current, maxLength);
    GoodChunksKeep(chunks, maxLength);
    chunks := KeepNonBlank(chunks);
    SegmentsKeepText(SentenceGap, Strip(text));
    StripFacts(text);
  }

  /** One sentence of `_split_by_sentences`: stripped and skipped when
      blank, merged with a space while it fits, otherwise the pending chunk
      is closed and the sentence starts the next one or, when over the
      limit, goes to the delimiter fold. The chunks and the pending chunk
      hold a subsequence of the text read so far (`whole`) and the
      sentence. */
  method SentenceStep(chunks: seq<string>, current: string, raw: string, maxLength: int, ghost whole: string)
    returns (chunks': seq<string>, current': string)
    requires maxLength != 0
    requires GoodChunks(chunks, maxLength) && PendingOk(current, maxLength)
    requires maxLength >= 1 ==> Subseq(NonSpace(Flatten(chunks)) + NonSpace(current), whole)
    ensures GoodChunks(chunks', maxLength) && PendingOk(current', maxLength)
    ensures maxLength >= 1 ==> Subseq(NonSpace(Flatten(chunks')) + NonSpace(current'), whole + NonSpace(raw))
  {
    var sentence := Strip(raw);
    StripFacts(raw);
    if sentence == [] {
      assert whole + NonSpace(raw) == whole;
      return chunks, current;
    }
    if |current| + |sentence| + 1 <= maxLength {
      assert IsBlank(" ");
      if maxLength >= 1 {
        MergeKeepsText(chunks, current, " ", sentence, whole, NonSpace(raw));
      }
      return chunks, Merge(current, " ", sentence);
    }
    chunks', current' := CloseForSentence(chunks, current, sentence, maxLength, whole);
  }

  /** The sentence does not fit beside the pending chunk: close the
      pending chunk, then start the next one with the sentence, or send it
      to the delimiter fold when it is over the limit on its own. */
  method CloseForSentence(chunks: seq<string>, current: string, sentence: string, maxLength: int, ghost whole: string)
    returns (chunks': seq<string>, current': string)
    requires maxLength != 0
    requires GoodChunks(chunks, maxLength) && PendingOk(current, maxLength)
    requires sentence != [] && IsTrimmed(sentence) && |current| + |sentence| + 1 > maxLength
    requires maxLength >= 1 ==> Subseq(NonSpace(Flatten(chunks)) + NonSpace(current), whole)
    ensures GoodChunks(chunks', maxLength) && PendingOk(current', maxLength)
    ensures maxLength >= 1 ==> Subseq(NonSpace(Flatten(chunks')) + NonSpace(current'), whole + NonSpace(sentence))
  {
    CloseKeepsText(chunks, current, maxLength);
    var closed := Close(chunks, current, maxLength);
    if |sentence| > maxLength {
      var subChunks := SplitLongSentence(sentence, maxLength);
      GoodChunksAppend(closed, subChunks, maxLength);
      if maxLength >= 1 {
        assert NonSpace(Flatten(subChunks)) + NonSpace([]) == NonSpace(Flatten(subChunks));
        ExtendKeepsText(closed, subChunks, [], whole, NonSpace(sentence));
      }
      chunks', current' := closed + subChunks, [];
    } else {
      if maxLength >= 1 {
        var none: seq<string> := [];
        assert NonSpace(Flatten(none)) + NonSpace(sentence) == NonSpace(sentence);
        SubseqRefl(NonSpace(sentence));
        ExtendKeepsText(closed, none, sentence, whole, NonSpace(sentence));
        assert closed + none == closed;
      }
      chunks', current' := closed, sentence;
    }
  }


  // ---------------------------------------------------------------- words

  /** `word[i:i + max_length] for i in range(0, len(word), max_length)`:
      the slices of an over-long word, which put together give the word back;
      the range is empty for a negative step. */
  method SliceWord(word: string, maxLength: int) returns (slices: seq<string>)
    requires maxLength != 0
    requires NoSpace(word)
    ensures forall k :: 0 <= k < |slices| ==> slices[k] != [] && NoSpace(slices[k]) && |slices[k]| <= maxLength
    ensures forall k :: 0 <= k < |slices| - 1 ==> |slices[k]| == maxLength
    ensures maxLength >= 1 ==> slices == Windows(word, maxLength) && Flatten(slices) == word
    ensures maxLength < 0 ==> slices == []
  {
    slices := [];
    if maxLength < 0 {
      return;
    }
    var i := 0;
    while i < |word|
      invariant 0 <= i <= |word|
      invariant slices + Windows(word[i..], maxLength) == Windows(word, maxLength)
      decreases |word| - i
    {
      var end := if i + maxLength < |word| then i + maxLength else |word|;
      WindowsUnfold(word, i, maxLength);
      AppendAssoc(slices, [word[i..end]], Windows(word[end..], maxLength));
      slices := slices + [word[i..end]];
      i := end;
    }
    assert Windows(word[i..], maxLength) == [];
    assert slices + [] == slices;
    WindowsNoSpace(word, maxLength);
    WindowsWidths(word, maxLength);
  }

  /** Every window of a word without whitespace is itself without whitespace. */
  lemma {:induction false} WindowsNoSpace(word: string, width: nat)
    requires width >= 1 && NoSpace(word)
    ensures forall k :: 0 <= k < |Windows(word, width)| ==> NoSpace(Windows(word, width)[k])
    decreases |word|
  {
    if word != [] {
      var n := if |word| < width then |word| else width;
      WindowsNoSpace(word[n..], width);
      assert NoSpace(word[..n]) by {
        forall j | 0 <= j < n ensures !IsSpace(word[..n][j]) {
          assert word[..n][j] == word[j];
        }
      }
      assert forall j :: 0 <= j < |word[n..]| ==> word[n..][j] == word[n + j];
    }
  }

  /** `_split_by_words`: pack the words, reserving 1 character for the
      joining space (also before the first word); an over-long word is cut
      into slices of the limit. Nothing but whitespace is lost when the
      limit is positive. */
  method SplitByWords(text: string, maxLength: int) returns (chunks: seq<string>)
    requires maxLength != 0
    ensures GoodChunks(chunks, maxLength)
    ensures maxLength >= 1 ==> NonSpace(Flatten(chunks)) == NonSpace(text)
  {
    var words := Words(text);
    FlattenWords(text);
    chunks := [];
    var current: string := [];
    for i := 0 to |words|
      invariant GoodChunks(chunks, maxLength) && PendingOk(current, maxLength)
      invariant maxLength >= 1 ==> NonSpace(Flatten(chunks)) + NonSpace(current) == Flatten(words[..i])
    {
      FlattenPrefixSnoc(words, i);
      chunks, current := PackWord(chunks, current, words[i], maxLength);
    }
    assert words[..|words|] == words;
    if current != [] {
      NonSpaceFlattenSnoc(chunks, current);
    }
    chunks := Close(chunks, current, maxLength);
    GoodChunksKeep(chunks, maxLength);
    chunks := KeepNonBlank(chunks);
  }

  /** One word of `_split_by_words`. */
  method PackWord(chunks: seq<string>, current: string, word: string, maxLength: int)
    returns (chunks': seq<string>, current': string)
    requires maxLength != 0
    requires word != [] && NoSpace(word)
    requires GoodChunks(chunks, maxLength) && PendingOk(current, maxLength)
    ensures GoodChunks(chunks', maxLength) && PendingOk(current', maxLength)
    ensures maxLength >= 1 ==>
      NonSpace(Flatten(chunks')) + NonSpace(current') == NonSpace(Flatten(chunks)) + NonSpace(current) + word
  {
    NonSpaceOfWord(word);
    if |current| + |word| + 1 <= maxLength {
      current' := Merge(current, " ", word);
      assert NonSpace(current') == NonSpace(current) + word by {
        if current != [] {
          NonSpaceSkipBlank(current, " ", word);
        }
      }
      chunks' := chunks;
      AppendAssoc(NonSpace(Flatten(chunks)), NonSpace(current), word);
      return;
    }
    chunks' := Close(chunks, current, maxLength);
    if current != [] {
      NonSpaceFlattenSnoc(chunks, current);
    }
    if |word| > maxLength {
      var slices := SliceWord(word, maxLength);
      forall k | 0 <= k < |slices| ensures IsTrimmed(slices[k]) {
        assert !IsSpace(slices[k][0]);
      }
      GoodChunksAppend(chunks', slices, maxLength);
      if maxLength >= 1 {
        NonSpaceFlattenAppend(chunks', slices);
      }
      chunks' := chunks' + slices;
      current' := [];
    } else {
      current' := word;
    }
  }

  // ---------------------------------------------------------------- fixed size

  /** `_split_by_fixed_size`: the stripped windows of `chunk_size`
      characters, blank ones dropped; it computes the "fixed" strategy of
      `chunk_text`, and nothing for a negative size. */
  method SplitByFixedSize(text: string, chunkSize: int) returns (chunks: seq<string>)
    requires chunkSize != 0
    ensures chunks == (if chunkSize < 0 then [] else FixedChunks(text, chunkSize))
  {
    chunks := [];
    if chunkSize < 0 {
      return;
    }
    ghost var taken: seq<string> := [];
    var i := 0;
    while i < |text|
      invariant 0 <= i <= |text|
      invariant taken + Windows(text[i..], chunkSize) == Windows(text, chunkSize)
      invariant chunks == StrippedNonEmpty(taken)
      decreases |text| - i
    {
      var end := if i + chunkSize < |text| then i + chunkSize else |text|;
      var window := text[i..end];
      WindowsUnfold(text, i, chunkSize);
      StrippedNonEmptySnoc(taken, window);
      AppendAssoc(taken, [window], Windows(text[end..], chunkSize));
      taken := taken + [window];
      var chunk := Strip(window);
      if chunk != [] {
        chunks := chunks + [chunk];
      }
      i := end;
    }
    assert Windows(text[i..], chunkSize) == [];
    assert taken + [] == taken;
  }

  /** The windows from index i on are the window at i and then those after it. */
  lemma WindowsUnfold(text: string, i: nat, width: nat)
    requires width >= 1 && i < |text|
    ensures var end := if i + width < |text| then i + width else |text|;
      Windows(text[i..], width) == [text[i..end]] + Windows(text[end..], width)
  {
    var end := if i + width < |text| then i + width else |text|;
    var rest := text[i..];
    assert rest != [] && rest[..end - i] == text[i..end];
    assert rest[end - i..] == text[end..];
  }

  // ---------------------------------------------------------------- long sentences

  /** The delimiters `_split_long_sentence` tries, in order. */
  const LongSentenceDelimiters: seq<string> := [", ", "; ", " - ", " — ", ": ", " and ", " or ", " but "]

  /** The pieces of one delimiter pass: non-empty, and any piece still over
      the limit holds no occurrence of the delimiter. */
  predicate PassPieces(pieces: seq<string>, delim: string, maxLength: int) {
    forall k :: 0 <= k < |pieces| ==> pieces[k] != [] && (|pieces[k]| <= maxLength || Free(pieces[k], delim))
  }

  /** The inner loop over `chunk.split(delimiter)` from a pending piece
      `current` on: a part joins the pending piece (after the delimiter,
      unless the piece is empty) while `len(current_part) + len(delimiter)
      + len(part)` fits; otherwise the non-empty pending piece is closed and
      the part starts the next one. The delimiter at each cut is dropped. */
  function PackRun(parts: seq<string>, delim: string, maxLength: int, current: string): seq<string>
    decreases |parts|
  {
    if parts == [] then (if current != [] then [current] else [])
    else
      var part := parts[0];
      if |current| + |delim| + |part| <= maxLength then
        PackRun(parts[1..], delim, maxLength, current + (if current != [] then delim else []) + part)
      else
        (if current != [] then [current] else []) + PackRun(parts[1..], delim, maxLength, part)
  }

  /** Each part preceded by the delimiter, one after the other. */
  function Prefixed(delim: string, parts: seq<string>): string
    decreases |parts|
  {
    if parts == [] then [] else delim + parts[0] + Prefixed(delim, parts[1..])
  }

  lemma {:induction false} JoinPrefixed(delim: string, parts: seq<string>)
    requires parts != []
    ensures Join(delim, parts) == parts[0] + Prefixed(delim, parts[1..])
    decreases |parts|
  {
    if |parts| == 1 {
      assert parts[1..] == [];
    } else {
      var rest := parts[1..];
      assert parts == [parts[0]] + rest;
      JoinCons(delim, parts[0], rest);
      JoinPrefixed(delim, rest);
      assert rest == [rest[0]] + rest[1..];
    }
  }

  /** Every piece is non-empty and, when over the limit, free of the
      delimiter. */
  lemma {:induction false} PackRunPieces(parts: seq<string>, delim: string, maxLength: int, current: string)
    requires forall k :: 0 <= k < |parts| ==> Free(parts[k], delim)
    requires |current| <= maxLength || Free(current, delim)
    ensures PassPieces(PackRun(parts, delim, maxLength, current), delim, maxLength)
    decreases |parts|
  {
    if parts != [] {
      var part := parts[0];
      var rest := parts[1..];
      assert forall k :: 0 <= k < |rest| ==> rest[k] == parts[k + 1];
      if |current| + |delim| + |part| <= maxLength {
        PackRunPieces(rest, delim, maxLength, current + (if current != [] then delim else []) + part);
      } else {
        PackRunPieces(rest, delim, maxLength, part);
      }
    }
  }

  /** The pieces, put together, are what the pending piece and the
      delimited parts hold, with some characters (the dropped delimiters)
      deleted. */
  lemma {:induction false} PackRunWithin(parts: seq<string>, delim: string, maxLength: int, current: string)
    ensures Subseq(Flatten(PackRun(parts, delim, maxLength, current)), current + Prefixed(delim, parts))
    decreases |parts|, 1
  {
    if parts == [] {
      assert current + Prefixed(delim, parts) == current;
      if current != [] {
        FlattenSingle(current);
        SubseqRefl(current);
      }
    } else if |current| + |delim| + |parts[0]| <= maxLength {
      PackRunWithinJoin(parts, delim, maxLength, current);
    } else {
      PackRunWithinCut(parts, delim, maxLength, current);
    }
  }

  /** PackRunWithin when the first part joins the pending piece. */
  lemma {:induction false} PackRunWithinJoin(parts: seq<string>, delim: string, maxLength: int, current: string)
    requires parts != [] && |current| + |delim| + |parts[0]| <= maxLength
    ensures Subseq(Flatten(PackRun(parts, delim, maxLength, current)), current + Prefixed(delim, parts))
    decreases |parts|, 0
  {
    var part := parts[0];
    var rest := parts[1..];
    var tail := Prefixed(delim, rest);
    var current' := current + (if current != [] then delim else []) + part;
    var r := PackRun(parts, delim, maxLength, current);
    assert r == PackRun(rest, delim, maxLength, current');
    assert Prefixed(delim, parts) == delim + part + tail;
    PackRunWithin(rest, delim, maxLength, current');
    if current != [] {
      assert current' + tail == current + Prefixed(delim, parts);
    } else {
      assert current' == part;
      SubseqPrepend(Flatten(r), part + tail, delim);
      assert delim + (part + tail) == current + Prefixed(delim, parts);
    }
  }

  /** PackRunWithin when the pending piece is closed before the first part. */
  lemma {:induction false} PackRunWithinCut(parts: seq<string>, delim: string, maxLength: int, current: string)
    requires parts != [] && |current| + |delim| + |parts[0]| > maxLength
    ensures Subseq(Flatten(PackRun(parts, delim, maxLength, current)), current + Prefixed(delim, parts))
    decreases |parts|, 0
  {
    var part := parts[0];
    var rest := parts[1..];
    var tail := Prefixed(delim, rest);
    var r := PackRun(parts, delim, maxLength, current);
    var head := if current != [] then [current] else [];
    var more := PackRun(rest, delim, maxLength, part);
    assert r == head + more;
    var whole := Prefixed(delim, parts);
    assert whole == delim + part + tail;
    AppendAssoc(delim, part, tail);
    FlattenAppend(head, more);
    if current != [] {
      FlattenSingle(current);
    }
    assert Flatten(r) == current + Flatten(more);
    PackRunWithin(rest, delim, maxLength, part);
    SubseqPrepend(Flatten(more), part + tail, delim);
    assert Subseq(Flatten(more), whole);
    SubseqRefl(current);
    SubseqConcat(current, current, Flatten(more), whole);
  }

  /** Every character of the pending piece and of the parts comes out, in
      order: only delimiters are deleted. */
  lemma {:induction false} PackRunCovers(parts: seq<string>, delim: string, maxLength: int, current: string)
    ensures Subseq(current + Flatten(parts), Flatten(PackRun(parts, delim, maxLength, current)))
    decreases |parts|, 1
  {
    if parts == [] {
      assert current + Flatten(parts) == current;
      if current != [] {
        FlattenSingle(current);
      }
      SubseqRefl(current);
    } else if |current| + |delim| + |parts[0]| <= maxLength {
      PackRunCoversJoin(parts, delim, maxLength, current);
    } else {
      PackRunCoversCut(parts, delim, maxLength, current);
    }
  }

  /** PackRunCovers when the first part joins the pending piece. */
  lemma {:induction false} PackRunCoversJoin(parts: seq<string>, delim: string, maxLength: int, current: string)
    requires parts != [] && |current| + |delim| + |parts[0]| <= maxLength
    ensures Subseq(current + Flatten(parts), Flatten(PackRun(parts, delim, maxLength, current)))
    decreases |parts|, 0
  {
    var part := parts[0];
    var rest := parts[1..];
    assert parts == [part] + rest;
    FlattenCons(part, rest);
    var f := Flatten(rest);
    var sep := if current != [] then delim else [];
    var current' := current + sep + part;
    var r := PackRun(parts, delim, maxLength, current);
    assert r == PackRun(rest, delim, maxLength, current');
    PackRunCovers(rest, delim, maxLength, current');
    SubseqRefl(part + f);
    SubseqPrepend(part + f, part + f, sep);
    SubseqRefl(current);
    SubseqConcat(current, current, part + f, sep + (part + f));
    AppendAssoc(current, sep, part);
    AppendAssoc(current + sep, part, f);
    AppendAssoc(current, sep, part + f);
    assert current + (sep + (part + f)) == current' + f;
    SubseqTrans(current + (part + f), current' + f, Flatten(r));
  }

  /** PackRunCovers when the pending piece is closed before the first part. */
  lemma {:induction false} PackRunCoversCut(parts: seq<string>, delim: string, maxLength: int, current: string)
    requires parts != [] && |current| + |delim| + |parts[0]| > maxLength
    ensures Subseq(current + Flatten(parts), Flatten(PackRun(parts, delim, maxLength, current)))
    decreases |parts|, 0
  {
    var part := parts[0];
    var rest := parts[1..];
    assert parts == [part] + rest;
    FlattenCons(part, rest);
    var f := Flatten(rest);
    var r := PackRun(parts, delim, maxLength, current);
    var head := if current != [] then [current] else [];
    var more := PackRun(rest, delim, maxLength, part);
    assert r == head + more;
    FlattenAppend(head, more);
    if current != [] {
      FlattenSingle(current);
    }
    assert Flatten(r) == current + Flatten(more);
    PackRunCovers(rest, delim, maxLength, part);
    SubseqRefl(current);
    SubseqConcat(current, current, part + f, Flatten(more));
  }


  /** From an empty pending piece, the first part always starts the first
      piece. */
  lemma PackRunStart(parts: seq<string>, delim: string, maxLength: int)
    requires parts != []
    ensures PackRun(parts, delim, maxLength, []) == PackRun(parts[1..], delim, maxLength, parts[0])
  {
    assert [] + [] + parts[0] == parts[0];
  }

  /** The inner loop over `chunk.split(delimiter)`: it computes PackRun from
      an empty pending piece. The pieces are non-empty and, when over the
      limit, free of the delimiter; put together they are the joined parts
      with some delimiters deleted, and they keep every part in order. */
  method PackParts(parts: seq<string>, delim: string, maxLength: int) returns (pieces: seq<string>)
    requires delim != []
    requires forall k :: 0 <= k < |parts| ==> Free(parts[k], delim)
    ensures pieces == PackRun(parts, delim, maxLength, [])
    ensures PassPieces(pieces, delim, maxLength)
    ensures Subseq(Flatten(pieces), Join(delim, parts))
    ensures Subseq(Flatten(parts), Flatten(pieces))
  {
    pieces := [];
    var currentPart: string := [];
    for i := 0 to |parts|
      invariant pieces + PackRun(parts[i..], delim, maxLength, currentPart) == PackRun(parts, delim, maxLength, [])
    {
      var part := parts[i];
      assert parts[i..][1..] == parts[i + 1..];
      if |currentPart| + |delim| + |part| <= maxLength {
        currentPart := currentPart + (if currentPart != [] then delim else []) + part;
      } else {
        if currentPart != [] {
          AppendAssoc(pieces, [currentPart], PackRun(parts[i + 1..], delim, maxLength, part));
          pieces := pieces + [currentPart];
        }
        currentPart := part;
      }
    }
    assert parts[|parts|..] == [];
    if currentPart != [] {
      pieces := pieces + [currentPart];
    } else {
      assert pieces + [] == pieces;
    }
    assert Free([], delim);
    PackRunPieces(parts, delim, maxLength, []);
    PackRunCovers(parts, delim, maxLength, []);
    assert [] + Flatten(parts) == Flatten(parts);
    if parts != [] {
      PackRunStart(parts, delim, maxLength);
      PackRunWithin(parts[1..], delim, maxLength, parts[0]);
      JoinPrefixed(delim, parts);
    }
  }

  /** One chunk of a delimiter pass: kept when within the limit, otherwise
      split at the delimiter and re-packed. */
  function ResplitOne(chunk: string, delim: string, maxLength: int): seq<string>
    requires delim != []
  {
    if |chunk| <= maxLength then [chunk] else PackRun(SplitOn(chunk, delim), delim, maxLength, [])
  }

  /** A delimiter pass over a list of chunks: each chunk's pieces, in order. */
  function Resplit(chunks: seq<string>, delim: string, maxLength: int): seq<string>
    requires delim != []
  {
    if chunks == [] then []
    else Resplit(chunks[..|chunks| - 1], delim, maxLength) + ResplitOne(chunks[|chunks| - 1], delim, maxLength)
  }

  /** A pass over chunks that are all within the limit changes nothing. */
  lemma {:induction false} ResplitShort(chunks: seq<string>, delim: string, maxLength: int)
    requires delim != []
    requires forall k :: 0 <= k < |chunks| ==> |chunks[k]| <= maxLength
    ensures Resplit(chunks, delim, maxLength) == chunks
  {
    if chunks != [] {
      ResplitShort(chunks[..|chunks| - 1], delim, maxLength);
      assert chunks == chunks[..|chunks| - 1] + [chunks[|chunks| - 1]];
    }
  }

  /** A pass over two lists is the pass over the first, then the second. */
  lemma {:induction false} ResplitAppend(a: seq<string>, b: seq<string>, delim: string, maxLength: int)
    requires delim != []
    ensures Resplit(a + b, delim, maxLength) == Resplit(a, delim, maxLength) + Resplit(b, delim, maxLength)
    decreases |b|
  {
    if b == [] {
      assert a + b == a;
    } else {
      var init, last := b[..|b| - 1], b[|b| - 1];
      var ab := a + b;
      assert ab[..|ab| - 1] == a + init;
      assert ab[|ab| - 1] == last;
      var one := ResplitOne(last, delim, maxLength);
      assert Resplit(ab, delim, maxLength) == Resplit(a + init, delim, maxLength) + one;
      assert Resplit(b, delim, maxLength) == Resplit(init, delim, maxLength) + one;
      ResplitAppend(a, init, delim, maxLength);
      AppendAssoc(Resplit(a, delim, maxLength), Resplit(init, delim, maxLength), one);
    }
  }

  /** A chunk within the limit comes through a pass unchanged, in its
      place between the pieces of the chunks before it and after it. */
  lemma ResplitKeepsShort(chunks: seq<string>, k: nat, delim: string, maxLength: int)
    requires delim != [] && k < |chunks| && |chunks[k]| <= maxLength
    ensures Resplit(chunks, delim, maxLength)
      == Resplit(chunks[..k], delim, maxLength) + [chunks[k]] + Resplit(chunks[k + 1..], delim, maxLength)
  {
    assert chunks == chunks[..k] + [chunks[k]] + chunks[k + 1..];
    ResplitAppend(chunks[..k] + [chunks[k]], chunks[k + 1..], delim, maxLength);
    ResplitAppend(chunks[..k], [chunks[k]], delim, maxLength);
    assert Resplit([chunks[k]], delim, maxLength) == [chunks[k]] by {
      assert [chunks[k]][..0] == [];
    }
  }

  /** The pieces of one chunk are non-empty, within the limit or free of
      the delimiter, and are the chunk with some delimiters deleted. */
  lemma ResplitOneFacts(chunk: string, delim: string, maxLength: int)
    requires delim != [] && chunk != []
    ensures PassPieces(ResplitOne(chunk, delim, maxLength), delim, maxLength)
    ensures Subseq(Flatten(ResplitOne(chunk, delim, maxLength)), chunk)
  {
    if |chunk| <= maxLength {
      FlattenSingle(chunk);
      SubseqRefl(chunk);
    } else {
      var parts := SplitOn(chunk, delim);
      SplitOnPartsFree(chunk, delim);
      assert Free([], delim);
      PackRunPieces(parts, delim, maxLength, []);
      PackRunStart(parts, delim, maxLength);
      PackRunWithin(parts[1..], delim, maxLength, parts[0]);
      JoinPrefixed(delim, parts);
      JoinSplitOn(chunk, delim);
    }
  }

  /** A whole pass keeps the piece properties and deletes only delimiters. */
  lemma {:induction false} ResplitFacts(chunks: seq<string>, delim: string, maxLength: int)
    requires delim != []
    requires forall k :: 0 <= k < |chunks| ==> chunks[k] != []
    ensures PassPieces(Resplit(chunks, delim, maxLength), delim, maxLength)
    ensures Subseq(Flatten(Resplit(chunks, delim, maxLength)), Flatten(chunks))
  {
    if chunks != [] {
      var init := chunks[..|chunks| - 1];
      var last := chunks[|chunks| - 1];
      var a := Resplit(init, delim, maxLength);
      var b := ResplitOne(last, delim, maxLength);
      ResplitFacts(init, delim, maxLength);
      ResplitOneFacts(last, delim, maxLength);
      assert Resplit(chunks, delim, maxLength) == a + b;
      FlattenAppend(a, b);
      assert Flatten(chunks) == Flatten(init) + last;
      SubseqConcat(Flatten(a), Flatten(init), Flatten(b), last);
      PassPiecesAppend(a, b, delim, maxLength);
    }
  }

  lemma PassPiecesAppend(a: seq<string>, b: seq<string>, delim: string, maxLength: int)
    requires PassPieces(a, delim, maxLength) && PassPieces(b, delim, maxLength)
    ensures PassPieces(a + b, delim, maxLength)
  {
    assert forall k :: |a| <= k < |a + b| ==> (a + b)[k] == b[k - |a|];
  }

  /** One delimiter pass of `_split_long_sentence` (and of the legacy
      splitter): it computes Resplit. Every piece is non-empty and within
      the limit or free of the delimiter; the pieces, put together, are the
      chunks with some delimiters deleted; a list of chunks within the limit
      comes through unchanged. */
  method ResplitAt(chunks: seq<string>, delim: string, maxLength: int) returns (next: seq<string>)
    requires delim != []
    requires forall k :: 0 <= k < |chunks| ==> chunks[k] != []
    ensures next == Resplit(chunks, delim, maxLength)
    ensures PassPieces(next, delim, maxLength)
    ensures Subseq(Flatten(next), Flatten(chunks))
    ensures (forall k :: 0 <= k < |chunks| ==> |chunks[k]| <= maxLength) ==> next == chunks
  {
    next := [];
    for i := 0 to |chunks|
      invariant next == Resplit(chunks[..i], delim, maxLength)
    {
      var chunk := chunks[i];
      assert chunks[..i + 1][..i] == chunks[..i];
      var pieces;
      if |chunk| <= maxLength {
        pieces := [chunk];
      } else {
        SplitOnPartsFree(chunk, delim);
        pieces := PackParts(SplitOn(chunk, delim), delim, maxLength);
      }
      next := next + pieces;
    }
    assert chunks[..|chunks|] == chunks;
    ResplitFacts(chunks, delim, maxLength);
    if forall k :: 0 <= k < |chunks| ==> |chunks[k]| <= maxLength {
      ResplitShort(chunks, delim, maxLength);
    }
  }

  /** `_split_long_sentence`: fold the delimiter passes over [sentence],
      send what is still over the limit to the word splitter, and keep the
      stripped non-blank pieces. With a positive limit the chunks'
      non-whitespace characters appear in the sentence's, in order. */
  method SplitLongSentence(sentence: string, maxLength: int) returns (chunks: seq<string>)
    requires maxLength != 0
    ensures GoodChunks(chunks, maxLength)
    ensures maxLength >= 1 ==> Subseq(NonSpace(Flatten(chunks)), NonSpace(sentence))
  {
    if sentence == [] {
      // [""] passes through the fold and is dropped by the final filter.
      return [];
    }
    var pieces := [sentence];
    FlattenSingle(sentence);
    SubseqRefl(sentence);
    for d := 0 to |LongSentenceDelimiters|
      invariant forall k :: 0 <= k < |pieces| ==> pieces[k] != []
      invariant Subseq(Flatten(pieces), sentence)
    {
      var next := ResplitAt(pieces, LongSentenceDelimiters[d], maxLength);
      SubseqTrans(Flatten(next), Flatten(pieces), sentence);
      pieces := next;
    }
    var finalChunks: seq<string> := [];
    for i := 0 to |pieces|
      invariant forall k :: 0 <= k < |finalChunks| ==> |finalChunks[k]| <= maxLength
      invariant maxLength >= 1 ==> NonSpace(Flatten(finalChunks)) == NonSpace(Flatten(pieces[..i]))
    {
      FlattenPrefixSnoc(pieces, i);
      NonSpaceAppend(Flatten(pieces[..i]), pieces[i]);
      if |pieces[i]| <= maxLength {
        NonSpaceFlattenSnoc(finalChunks, pieces[i]);
        finalChunks := finalChunks + [pieces[i]];
      } else {
        var wordChunks := SplitByWords(pieces[i], maxLength);
        NonSpaceFlattenAppend(finalChunks, wordChunks);
        finalChunks := finalChunks + wordChunks;
      }
    }
    assert pieces[..|pieces|] == pieces;
    NonSpaceSubseq(Flatten(pieces), sentence);
    StrippedNonEmptyBound(finalChunks, maxLength);
    StrippedNonEmptyKeepsText(finalChunks);
    chunks := StrippedNonEmpty(finalChunks);
  }
}
