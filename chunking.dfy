/**
 * Long-text chunking: `chunk_text` and its four strategies (fixed windows,
 * paragraph packing, word packing and the hierarchical cascade), and the
 * structured `LongTextChunk` records built from its output.
 */
module Chunking {
  import opened Text
  import opened Separators
  import opened Boundary
  import opened Settings

  /** What every strategy of `chunk_text` delivers: non-empty, trimmed chunks
      no longer than the limit. */
  predicate GoodChunks(chunks: seq<string>, maxLength: int) {
    forall k :: 0 <= k < |chunks| ==> chunks[k] != [] && IsTrimmed(chunks[k]) && |chunks[k]| <= maxLength
  }

  lemma GoodChunksAppend(a: seq<string>, b: seq<string>, maxLength: int)
    requires GoodChunks(a, maxLength) && GoodChunks(b, maxLength)
    ensures GoodChunks(a + b, maxLength)
  {
  }

  // ---------------------------------------------------------------- hierarchical

  /** `_chunk_hierarchical`: emit the remaining text when it fits, otherwise
      cut it where the boundary cascade says and go on with the tail. */
  method ChunkHierarchical(text: string, maxLength: nat) returns (chunks: seq<string>)
    requires maxLength >= 1
    ensures GoodChunks(chunks, maxLength)
    ensures NonSpace(Flatten(chunks)) == NonSpace(text)
  {
    chunks := [];
    var remaining := Strip(text);
    StripFacts(text);
    while remaining != []
      invariant IsTrimmed(remaining)
      invariant GoodChunks(chunks, maxLength)
      invariant NonSpace(Flatten(chunks)) + NonSpace(remaining) == NonSpace(text)
      decreases |remaining|
    {
      if |remaining| <= maxLength {
        chunks := AppendLast(chunks, remaining, maxLength, NonSpace(text));
        remaining := [];
        break;
      }
      // The head of a trimmed text is never empty, so the hard cut that
      // `_chunk_hierarchical` makes after an empty head cannot happen.
      var head, rest := FindBestSplit(remaining, maxLength);
      chunks := AppendPiece(chunks, head, rest, remaining, maxLength, NonSpace(text));
      remaining := rest;
    }
    assert NonSpace(remaining) == [];
    assert NonSpace(Flatten(chunks)) + [] == NonSpace(Flatten(chunks));
    assert forall k :: 0 <= k < |chunks| ==> chunks[k] != [];
    chunks := DropEmpty(chunks);
  }

  /** A remaining text within the limit becomes the last chunk as it is. */
  function AppendLast(chunks: seq<string>, remaining: string, maxLength: nat, ghost whole: string)
    : (chunks': seq<string>)
    requires remaining != [] && |remaining| <= maxLength && IsTrimmed(remaining)
    requires GoodChunks(chunks, maxLength)
    requires NonSpace(Flatten(chunks)) + NonSpace(remaining) == whole
    ensures GoodChunks(chunks', maxLength)
    ensures NonSpace(Flatten(chunks')) == whole
  {
    NonSpaceFlattenSnoc(chunks, remaining);
    GoodChunksAppend(chunks, [remaining], maxLength);
    chunks + [remaining]
  }

  /** Moving the head of the remaining text into the chunk list keeps the
      text and the chunk properties, and shortens what remains. */
  function AppendPiece(chunks: seq<string>, head: string, rest: string, remaining: string, maxLength: nat, ghost whole: string)
    : (chunks': seq<string>)
    requires maxLength >= 1 && |remaining| > maxLength && IsTrimmed(remaining)
    requires (head, rest) == FindBestSplitPoint(remaining, maxLength)
    requires GoodChunks(chunks, maxLength)
    requires NonSpace(Flatten(chunks)) + NonSpace(remaining) == whole
    ensures GoodChunks(chunks', maxLength)
    ensures IsTrimmed(rest) && |rest| < |remaining|
    ensures NonSpace(Flatten(chunks')) + NonSpace(rest) == whole
  {
    NonSpaceFlattenSnoc(chunks, head);
    GoodChunksAppend(chunks, [head], maxLength);
    AppendAssoc(NonSpace(Flatten(chunks)), NonSpace(head), NonSpace(rest));
    chunks + [head]
  }

  // ---------------------------------------------------------------- paragraphs

  /** [seg.strip() for seg in re.split(r"\n\s*\n", text) if seg.strip()]. */
  function Paragraphs(text: string): (ps: seq<string>)
    ensures forall k :: 0 <= k < |ps| ==> ps[k] != [] && IsTrimmed(ps[k])
  {
    StrippedNonEmpty(Segments(ParagraphBreak, text))
  }

  lemma ParagraphsKeepText(text: string)
    ensures NonSpace(Flatten(Paragraphs(text))) == NonSpace(text)
  {
    StrippedNonEmptyKeepsText(Segments(ParagraphBreak, text));
    SegmentsKeepText(ParagraphBreak, text);
  }

  /** The text of the first i + 1 pieces is that of the first i and then piece i. */
  lemma PrefixSnoc(ss: seq<string>, i: nat)
    requires i < |ss|
    ensures NonSpace(Flatten(ss[..i + 1])) == NonSpace(Flatten(ss[..i])) + NonSpace(ss[i])
  {
    assert ss[..i + 1] == ss[..i] + [ss[i]];
    NonSpaceFlattenSnoc(ss[..i], ss[i]);
  }

  /** The text of `current` in `_chunk_by_paragraphs` (None counts as empty). */
  function OrEmpty(current: Option<string>): string {
    if current.Some? then current.value else []
  }

  /** `_chunk_by_paragraphs`: join paragraphs with a blank line while the
      result fits; every closed group goes through the hierarchical chunker. */
  method ChunkByParagraphs(text: string, maxLength: nat) returns (chunks: seq<string>)
    requires maxLength >= 1
    ensures GoodChunks(chunks, maxLength)
    ensures NonSpace(Flatten(chunks)) == NonSpace(text)
  {
    var paragraphs := Paragraphs(text);
    ParagraphsKeepText(text);
    if |paragraphs| == 0 {
      chunks := ChunkHierarchical(text, maxLength);
      return;
    }
    chunks := PackParagraphs(paragraphs, maxLength);
    assert NonSpace(Flatten(chunks)) == NonSpace(text);
  }

  /** The packing loop of `_chunk_by_paragraphs` over the non-blank paragraphs. */
  method PackParagraphs(paragraphs: seq<string>, maxLength: nat) returns (chunks: seq<string>)
    requires maxLength >= 1
    ensures GoodChunks(chunks, maxLength)
    ensures NonSpace(Flatten(chunks)) == NonSpace(Flatten(paragraphs))
  {
    chunks := [];
    var current: Option<string> := None;
    for i := 0 to |paragraphs|
      invariant GoodChunks(chunks, maxLength)
      invariant NonSpace(Flatten(chunks)) + NonSpace(OrEmpty(current)) == NonSpace(Flatten(paragraphs[..i]))
    {
      PrefixSnoc(paragraphs, i);
      chunks, current := PackStep(chunks, current, paragraphs[i], maxLength);
    }
    assert paragraphs[..|paragraphs|] == paragraphs;
    if current.Some? && current.value != [] {
      var more := ChunkHierarchical(current.value, maxLength);
      NonSpaceFlattenAppend(chunks, more);
      chunks := chunks + more;
    }
  }

  /** One paragraph of the packing loop: start the group, extend it with a
      blank line and the paragraph while it fits, or close it (through the
      hierarchical chunker) and start a new one. */
  method PackStep(chunks: seq<string>, current: Option<string>, paragraph: string, maxLength: nat)
    returns (chunks': seq<string>, current': Option<string>)
    requires maxLength >= 1
    requires GoodChunks(chunks, maxLength)
    ensures GoodChunks(chunks', maxLength)
    ensures current'.Some?
    ensures NonSpace(Flatten(chunks')) + NonSpace(OrEmpty(current'))
         == NonSpace(Flatten(chunks)) + NonSpace(OrEmpty(current)) + NonSpace(paragraph)
  {
    if current.None? {
      assert NonSpace(OrEmpty(current)) == [];
      return chunks, Some(paragraph);
    }
    var candidate := current.value + "\n\n" + paragraph;
    if |candidate| <= maxLength {
      assert IsBlank("\n\n");
      NonSpaceSkipBlank(current.value, "\n\n", paragraph);
      AppendAssoc(NonSpace(Flatten(chunks)), NonSpace(current.value), NonSpace(paragraph));
      return chunks, Some(candidate);
    }
    var more := ChunkHierarchical(current.value, maxLength);
    NonSpaceFlattenAppend(chunks, more);
    return chunks + more, Some(paragraph);
  }

  // ---------------------------------------------------------------- words

  /** `_chunk_by_words`: pack words greedily, counting one space between
      neighbours; a chunk that is still too long (a single over-long word)
      goes through the hierarchical chunker. */
  method ChunkByWords(text: string, maxLength: nat) returns (refined: seq<string>)
    requires maxLength >= 1
    ensures GoodChunks(refined, maxLength)
    ensures NonSpace(Flatten(refined)) == NonSpace(text)
  {
    var words := Words(text);
    FlattenWords(text);
    if |words| == 0 {
      return [];
    }
    var chunks := PackWords(words, maxLength);
    refined := RefineChunks(chunks, maxLength);
  }

  /** The packing loop of `_chunk_by_words` and the closing of the last
      chunk: non-empty stripped chunks holding exactly the words. */
  method PackWords(words: seq<string>, maxLength: nat) returns (chunks: seq<string>)
    requires forall k :: 0 <= k < |words| ==> words[k] != [] && NoSpace(words[k])
    ensures forall k :: 0 <= k < |chunks| ==> chunks[k] != [] && IsTrimmed(chunks[k])
    ensures NonSpace(Flatten(chunks)) == Flatten(words)
  {
    chunks := [];
    var currentWords: seq<string> := [];
    var currentLength := 0;
    for i := 0 to |words|
      invariant forall k :: 0 <= k < |chunks| ==> chunks[k] != [] && IsTrimmed(chunks[k])
      invariant forall k :: 0 <= k < |currentWords| ==> currentWords[k] != [] && NoSpace(currentWords[k])
      invariant currentLength == |Join(" ", currentWords)|
      invariant NonSpace(Flatten(chunks)) + Flatten(currentWords) == Flatten(words[..i])
    {
      FlattenPrefixSnoc(words, i);
      chunks, currentWords, currentLength := WordStep(chunks, currentWords, currentLength, words[i], maxLength);
    }
    assert words[..|words|] == words;
    chunks := CloseWords(chunks, currentWords, Flatten(words));
  }

  /** The closing of the last chunk of `_chunk_by_words`: the pending words,
      if any, become one more chunk. */
  function CloseWords(chunks: seq<string>, currentWords: seq<string>, ghost whole: string): (chunks': seq<string>)
    requires forall k :: 0 <= k < |chunks| ==> chunks[k] != [] && IsTrimmed(chunks[k])
    requires forall k :: 0 <= k < |currentWords| ==> currentWords[k] != [] && NoSpace(currentWords[k])
    requires NonSpace(Flatten(chunks)) + Flatten(currentWords) == whole
    ensures forall k :: 0 <= k < |chunks'| ==> chunks'[k] != [] && IsTrimmed(chunks'[k])
    ensures NonSpace(Flatten(chunks')) == whole
  {
    if currentWords == [] then
      assert NonSpace(Flatten(chunks)) + [] == NonSpace(Flatten(chunks));
      chunks
    else
      var chunk := PackedChunk(currentWords);
      NonSpaceFlattenSnoc(chunks, chunk);
      chunks + [chunk]
  }

  /** The refinement loop of `_chunk_by_words`: good chunks with the same
      content as the packed ones. */
  method RefineChunks(chunks: seq<string>, maxLength: nat) returns (refined: seq<string>)
    requires maxLength >= 1
    requires forall k :: 0 <= k < |chunks| ==> chunks[k] != [] && IsTrimmed(chunks[k])
    ensures GoodChunks(refined, maxLength)
    ensures NonSpace(Flatten(refined)) == NonSpace(Flatten(chunks))
  {
    refined := [];
    for i := 0 to |chunks|
      invariant GoodChunks(refined, maxLength)
      invariant NonSpace(Flatten(refined)) == NonSpace(Flatten(chunks[..i]))
    {
      PrefixSnoc(chunks, i);
      refined := RefineStep(refined, chunks[i], maxLength);
    }
    assert chunks[..|chunks|] == chunks;
  }

  /** One word of the packing loop of `_chunk_by_words`: close the current
      chunk when the word (and its separating space) would overflow it,
      otherwise add the word to it. */
  method WordStep(chunks: seq<string>, currentWords: seq<string>, currentLength: nat, word: string, maxLength: nat)
    returns (chunks': seq<string>, currentWords': seq<string>, currentLength': nat)
    requires word != [] && NoSpace(word)
    requires forall k :: 0 <= k < |chunks| ==> chunks[k] != [] && IsTrimmed(chunks[k])
    requires forall k :: 0 <= k < |currentWords| ==> currentWords[k] != [] && NoSpace(currentWords[k])
    requires currentLength == |Join(" ", currentWords)|
    ensures forall k :: 0 <= k < |chunks'| ==> chunks'[k] != [] && IsTrimmed(chunks'[k])
    ensures forall k :: 0 <= k < |currentWords'| ==> currentWords'[k] != [] && NoSpace(currentWords'[k])
    ensures currentLength' == |Join(" ", currentWords')|
    ensures NonSpace(Flatten(chunks')) + Flatten(currentWords') == NonSpace(Flatten(chunks)) + Flatten(currentWords) + word
  {
    FlattenSingle(word);
    var additionalLength := if currentWords == [] then |word| else |word| + 1;
    if currentWords != [] && currentLength + additionalLength > maxLength {
      var chunk := PackedChunk(currentWords);
      NonSpaceFlattenSnoc(chunks, chunk);
      return chunks + [chunk], [word], |word|;
    }
    var extended := currentWords + [word];
    FlattenAppend(currentWords, [word]);
    if currentWords != [] {
      assert extended[..|currentWords|] == currentWords;
      assert Join(" ", extended) == Join(" ", currentWords) + " " + word;
    } else {
      assert Join(" ", extended) == word;
    }
    assert forall k :: 0 <= k < |extended| ==> extended[k] == if k < |currentWords| then currentWords[k] else word;
    AppendAssoc(NonSpace(Flatten(chunks)), Flatten(currentWords), word);
    return chunks, extended, currentLength + additionalLength;
  }

  /** One chunk of the refinement loop of `_chunk_by_words`: a chunk over the
      limit goes through the hierarchical chunker, any other is kept. */
  method RefineStep(refined: seq<string>, chunk: string, maxLength: nat) returns (refined': seq<string>)
    requires maxLength >= 1
    requires chunk != [] && IsTrimmed(chunk)
    requires GoodChunks(refined, maxLength)
    ensures GoodChunks(refined', maxLength)
    ensures NonSpace(Flatten(refined')) == NonSpace(Flatten(refined)) + NonSpace(chunk)
  {
    if |chunk| > maxLength {
      var more := ChunkHierarchical(chunk, maxLength);
      NonSpaceFlattenAppend(refined, more);
      return refined + more;
    }
    NonSpaceFlattenSnoc(refined, chunk);
    return refined + [chunk];
  }

  /** `" ".join(current_words).strip()` for a non-empty list of words: a
      trimmed, non-empty string holding exactly the words' text. */
  function PackedChunk(ws: seq<string>): (chunk: string)
    requires ws != []
    requires forall k :: 0 <= k < |ws| ==> ws[k] != [] && NoSpace(ws[k])
    ensures chunk != [] && IsTrimmed(chunk)
    ensures NonSpace(chunk) == Flatten(ws)
  {
    JoinWordsTrimmed(ws);
    StripOfTrimmed(Join(" ", ws));
    NonSpaceJoinWords(ws);
    Strip(Join(" ", ws))
  }

  // ---------------------------------------------------------------- fixed windows

  /** cleaned[i : i + width] for i in range(0, len(cleaned), width). */
  function Windows(s: string, width: nat): (ws: seq<string>)
    requires width >= 1
    ensures forall k :: 0 <= k < |ws| ==> |ws[k]| <= width
    ensures Flatten(ws) == s
    decreases |s|
  {
    if s == [] then []
    else
      var n := if |s| < width then |s| else width;
      FlattenCons(s[..n], Windows(s[n..], width));
      assert s == s[..n] + s[n..];
      [s[..n]] + Windows(s[n..], width)
  }

  /** Every window is non-empty, and every window but the last is exactly
      `width` long. */
  lemma {:induction false} WindowsWidths(s: string, width: nat)
    requires width >= 1
    ensures forall k :: 0 <= k < |Windows(s, width)| ==> |Windows(s, width)[k]| >= 1
    ensures forall k :: 0 <= k < |Windows(s, width)| - 1 ==> |Windows(s, width)[k]| == width
    decreases |s|
  {
    if s != [] {
      var n := if |s| < width then |s| else width;
      var rest := Windows(s[n..], width);
      WindowsWidths(s[n..], width);
      var ws := Windows(s, width);
      assert ws == [s[..n]] + rest;
      assert rest != [] ==> n == width;
      forall k | 1 <= k < |ws|
        ensures |ws[k]| >= 1 && (k < |ws| - 1 ==> |ws[k]| == width)
      {
        assert ws[k] == rest[k - 1];
        assert |rest[k - 1]| >= 1;
      }
    }
  }

  /** There are as many windows as it takes to cover the text with pieces
      of `width`: ceil(|s| / width). */
  lemma {:induction false} WindowsCount(s: string, width: nat)
    requires width >= 1
    ensures (|Windows(s, width)| - 1) * width < |s| || s == []
    ensures |s| <= |Windows(s, width)| * width
    decreases |s|
  {
    if s != [] && |s| > width {
      var rest := s[width..];
      WindowsCount(rest, width);
      var k := |Windows(rest, width)|;
      assert Windows(s, width) == [s[..width]] + Windows(rest, width);
      assert |rest| == |s| - width;
      MulSucc(k, width);
    }
  }

  lemma MulSucc(k: int, width: int)
    ensures (k + 1) * width == k * width + width
    ensures (k + 1 - 1) * width == k * width
  {
  }

  /** 1000 characters in windows of 100 make exactly 10 windows. */
  lemma WindowsExample(s: string)
    requires |s| == 1000
    ensures |Windows(s, 100)| == 10
  {
    WindowsCount(s, 100);
  }

  /** The "fixed" strategy: the windows, each stripped, blank ones dropped. */
  function FixedChunks(cleaned: string, width: nat): (chunks: seq<string>)
    requires width >= 1
    ensures GoodChunks(chunks, width)
    ensures NonSpace(Flatten(chunks)) == NonSpace(cleaned)
  {
    StrippedNonEmptyBound(Windows(cleaned, width), width);
    StrippedNonEmptyKeepsText(Windows(cleaned, width));
    StrippedNonEmpty(Windows(cleaned, width))
  }

  // ---------------------------------------------------------------- chunk_text

  /** `max_length`, with None or a non-positive value replaced by the
      configured long-text chunk size. */
  function ResolvedMax(maxLength: Option<int>, cfg: Config): (m: int)
    requires cfg.Valid()
    ensures m >= 1
    ensures maxLength.Some? && maxLength.value >= 1 ==> m == maxLength.value
    ensures maxLength.None? || maxLength.value <= 0 ==> m == cfg.longTextChunkSize
  {
    if maxLength.None? || maxLength.value <= 0 then cfg.longTextChunkSize else maxLength.value
  }

  /** The limit every chunk of `chunk_text` respects: the resolved maximum,
      capped at MAX_TOTAL_LENGTH - 100 unless that cap is not positive. */
  function EffectiveMax(maxLength: Option<int>, cfg: Config): (em: nat)
    requires cfg.Valid()
    ensures 1 <= em <= ResolvedMax(maxLength, cfg)
    ensures cfg.maxTotalLength - 100 >= 1 ==> em <= cfg.maxTotalLength - 100
    ensures em == ResolvedMax(maxLength, cfg) || em == cfg.maxTotalLength - 100
  {
    var m := ResolvedMax(maxLength, cfg);
    var capped := if m < cfg.maxTotalLength - 100 then m else cfg.maxTotalLength - 100;
    if capped <= 0 then m else capped
  }

  /** `(strategy or "sentence").lower()`. */
  function NormalizedStrategy(strategy: Option<string>): string {
    Lower(if strategy.None? || strategy.value == [] then "sentence" else strategy.value)
  }

  /** `chunk_text`: strip the text, then dispatch on the strategy name; any
      name other than fixed, paragraph and word uses the hierarchical chunker. */
  method ChunkText(text: string, strategy: Option<string>, maxLength: Option<int>, cfg: Config)
    returns (chunks: seq<string>)
    requires cfg.Valid()
    ensures IsBlank(text) ==> chunks == []
    ensures !IsBlank(text) ==> chunks != []
    ensures GoodChunks(chunks, EffectiveMax(maxLength, cfg))
    ensures NonSpace(Flatten(chunks)) == NonSpace(text)
    ensures NormalizedStrategy(strategy) == "fixed" ==> chunks == FixedChunks(Strip(text), EffectiveMax(maxLength, cfg))
  {
    var em := EffectiveMax(maxLength, cfg);
    var cleaned := Strip(text);
    StripFacts(text);
    NonSpaceBlank(text);
    if cleaned == [] {
      return [];
    }
    var normalized := NormalizedStrategy(strategy);
    if normalized == "fixed" {
      chunks := FixedChunks(cleaned, em);
    } else if normalized == "paragraph" {
      chunks := ChunkByParagraphs(cleaned, em);
    } else if normalized == "word" {
      chunks := ChunkByWords(cleaned, em);
    } else {
      chunks := ChunkHierarchical(cleaned, em);
    }
  }

  // ---------------------------------------------------------------- LongTextChunk records

  /** One structured chunk handed to the long-text generation pipeline. */
  datatype LongTextChunk = LongTextChunk(index: nat, text: string, textPreview: string, characterCount: nat)

  /** The texts of a list of records, in order. */
  function Texts(records: seq<LongTextChunk>): (ts: seq<string>)
    ensures |ts| == |records|
    ensures forall i :: 0 <= i < |records| ==> ts[i] == records[i].text
  {
    seq(|records|, i requires 0 <= i < |records| => records[i].text)
  }

  /** The record-building loop of `split_text_for_long_generation`. */
  method BuildRecords(chunkStrings: seq<string>) returns (records: seq<LongTextChunk>)
    ensures |records| == |chunkStrings|
    ensures forall i :: 0 <= i < |records| ==>
      records[i].index == i && records[i].text == chunkStrings[i] && records[i].characterCount == |chunkStrings[i]|
    ensures forall i :: 0 <= i < |records| && |chunkStrings[i]| <= 50 ==> records[i].textPreview == chunkStrings[i]
    ensures forall i :: 0 <= i < |records| && |chunkStrings[i]| > 50 ==>
      records[i].textPreview == chunkStrings[i][..50] + "..."
  {
    records := [];
    for index := 0 to |chunkStrings|
      invariant |records| == index
      invariant forall i :: 0 <= i < index ==>
        records[i].index == i && records[i].text == chunkStrings[i] && records[i].characterCount == |chunkStrings[i]|
      invariant forall i :: 0 <= i < index && |chunkStrings[i]| <= 50 ==> records[i].textPreview == chunkStrings[i]
      invariant forall i :: 0 <= i < index && |chunkStrings[i]| > 50 ==>
        records[i].textPreview == chunkStrings[i][..50] + "..."
    {
      var body := chunkStrings[index];
      var preview := (if |body| > 50 then body[..50] else body) + (if |body| > 50 then "..." else "");
      records := records + [LongTextChunk(index, body, preview, |body|)];
    }
  }

  /** `split_text_for_long_generation`: resolve the size and strategy, chunk,
      and wrap each chunk in an indexed record. */
  method SplitTextForLongGeneration(text: string, maxChunkSize: Option<int>, strategy: Option<string>, cfg: Config)
    returns (records: seq<LongTextChunk>)
    requires cfg.Valid()
    ensures records == [] <==> IsBlank(text)
    ensures GoodChunks(Texts(records), EffectiveMax(maxChunkSize, cfg))
    ensures NonSpace(Flatten(Texts(records))) == NonSpace(text)
    ensures forall i :: 0 <= i < |records| ==>
      records[i].index == i && records[i].characterCount == |records[i].text|
    ensures forall i :: 0 <= i < |records| && |records[i].text| <= 50 ==> records[i].textPreview == records[i].text
    ensures forall i :: 0 <= i < |records| && |records[i].text| > 50 ==>
      records[i].textPreview == records[i].text[..50] + "..."
  {
    var size := ResolvedMax(maxChunkSize, cfg);
    var resolvedStrategy := if strategy.None? || strategy.value == [] then cfg.longTextChunkingStrategy else strategy.value;
    var chunkStrings := ChunkText(text, Some(resolvedStrategy), Some(size), cfg);
    assert EffectiveMax(Some(size), cfg) == EffectiveMax(maxChunkSize, cfg);
    if chunkStrings == [] {
      return [];
    }
    records := BuildRecords(chunkStrings);
    assert Texts(records) == chunkStrings;
  }
}
