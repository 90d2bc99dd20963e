/**
 * The legacy splitter `split_text_into_chunks`: a text within the limit is
 * returned as it is; a longer one is cut into sentences at the first
 * sentence ending, the sentences are packed greedily, and an over-long
 * sentence goes through the delimiter passes and then a word packer.
 *
 * Two quirks are kept as written: the packing test ignores the joining
 * space, so a packed chunk can be one character over the limit, and the
 * word packer lets a word longer than the limit through whole.
 */
module Legacy {
  import opened Text
  import opened Settings
  import opened Streaming

  const LegacyEndings: seq<string> := [". ", "! ", "? ", ".\n", "!\n", "?\n"]

  const LegacySubDelimiters: seq<string> := [", ", "; ", " - ", " — "]

  /** `best_split` after the loop over `sentence_endings`: an ending found by
      `find` replaces it when its START lies before the current `best_split`
      (an END), and then `best_split` becomes that ending's end. */
  function EarliestCut(t: string, endings: seq<string>, best: nat): (r: nat)
    decreases |endings|
  {
    if endings == [] then best
    else
      var found := Find(t, endings[0], 0);
      EarliestCut(t, endings[1..], if found.Some? && found.value < best then found.value + |endings[0]| else best)
  }

  /** The cut is within the text, and a cut that moved is the end of an
      occurrence of one of the listed endings. */
  lemma {:induction false} EarliestCutBounds(t: string, endings: seq<string>, best: nat)
    requires best <= |t|
    ensures var r := EarliestCut(t, endings, best);
      && r <= |t|
      && (r != best ==> exists k :: 0 <= k < |endings| && EndsWith(t, endings[k], r))
    decreases |endings|
  {
    if endings != [] {
      var found := Find(t, endings[0], 0);
      var next := if found.Some? && found.value < best then found.value + |endings[0]| else best;
      EarliestCutBounds(t, endings[1..], next);
      var r := EarliestCut(t, endings, best);
      if r != best {
        if r == next {
          assert EndsWith(t, endings[0], r);
        } else {
          var k :| 0 <= k < |endings[1..]| && EndsWith(t, endings[1..][k], r);
          assert EndsWith(t, endings[k + 1], r);
        }
      }
    }
  }

  /** An occurrence of `e` in `t` ends at index p. */
  predicate EndsWith(t: string, e: string, p: int) {
    p >= |e| && Occurs(t, e, p - |e|)
  }

  /** Every legacy sentence ending is two characters long. */
  lemma LegacyEndingsLength()
    ensures forall k :: 0 <= k < |LegacyEndings| ==> |LegacyEndings[k]| == 2
  {
  }

  /** A punctuation mark followed by a space or a newline. */
  predicate EndingShape(e: string) {
    |e| == 2 && e[0] in ".!?" && e[1] in " \n"
  }

  lemma LegacyEndingsShape()
    ensures forall k :: 0 <= k < |LegacyEndings| ==> EndingShape(LegacyEndings[k])
  {
  }

  /** Although the scan compares an ending's START with the running
      `best_split`, an END, the cut never moves to a later position: the
      running cut is the end of the text or follows a space or newline, and
      no ending starts with one. So the cut ends up at or before the end of
      every occurrence of every ending. */
  lemma {:induction false} EarliestCutMin(t: string, endings: seq<string>, best: nat)
    requires best <= |t|
    requires best == |t| || (best >= 1 && t[best - 1] in " \n")
    requires forall e :: 0 <= e < |endings| ==> EndingShape(endings[e])
    ensures EarliestCut(t, endings, best) <= best
    ensures forall e, k :: 0 <= e < |endings| && Occurs(t, endings[e], k) ==> EarliestCut(t, endings, best) <= k + 2
    decreases |endings|
  {
    if endings != [] {
      var e0 := endings[0];
      var found := Find(t, e0, 0);
      var next := if found.Some? && found.value < best then found.value + |e0| else best;
      if found.Some? && found.value < best {
        var f := found.value;
        assert t[f..f + 2] == e0;
        assert t[f] == e0[0] && t[f + 1] == e0[1];
        assert f != best - 1;
      }
      assert next <= best;
      assert next == |t| || (next >= 1 && t[next - 1] in " \n");
      var rest := endings[1..];
      assert forall e :: 0 <= e < |rest| ==> rest[e] == endings[e + 1];
      EarliestCutMin(t, rest, next);
      var r := EarliestCut(t, endings, best);
      assert r == EarliestCut(t, rest, next);
      forall e, k | 0 <= e < |endings| && Occurs(t, endings[e], k)
        ensures r <= k + 2
      {
        if e == 0 {
          assert found.Some? && found.value <= k;
        } else {
          assert Occurs(t, rest[e - 1], k);
        }
      }
    }
  }

  /** The `for ending in sentence_endings` loop. */
  method SentenceCut(t: string) returns (best: nat)
    ensures best == EarliestCut(t, LegacyEndings, |t|)
  {
    best := |t|;
    for i := 0 to |LegacyEndings|
      invariant EarliestCut(t, LegacyEndings, |t|) == EarliestCut(t, LegacyEndings[i..], best)
    {
      assert LegacyEndings[i..][1..] == LegacyEndings[i + 1..];
      var found := Find(t, LegacyEndings[i], 0);
      if found.Some? && found.value < best {
        best := found.value + |LegacyEndings[i]|;
      }
    }
    assert LegacyEndings[|LegacyEndings|..] == [];
  }

  /** The cut of a non-empty text is a position inside it or its end, and
      never 0: each piece cut off is non-empty, ends with a sentence ending,
      and no occurrence of an ending ends before it. */
  lemma SentenceCutBounds(t: string)
    requires t != []
    ensures var r := EarliestCut(t, LegacyEndings, |t|);
      && 0 < r <= |t|
      && (r < |t| ==> exists k :: 0 <= k < |LegacyEndings| && EndsWith(t, LegacyEndings[k], r))
      && (forall e, k :: 0 <= e < |LegacyEndings| && Occurs(t, LegacyEndings[e], k) ==> r <= k + 2)
  {
    EarliestCutBounds(t, LegacyEndings, |t|);
    LegacyEndingsLength();
    LegacyEndingsShape();
    EarliestCutMin(t, LegacyEndings, |t|);
  }

  /** `s` ends with one of the legacy sentence endings. */
  predicate Ended(s: string) {
    exists e :: 0 <= e < |LegacyEndings| && EndsWith(s, LegacyEndings[e], |s|)
  }

  predicate AllNonEmpty(ss: seq<string>) {
    forall k :: 0 <= k < |ss| ==> ss[k] != []
  }

  predicate AllEnded(ss: seq<string>) {
    forall k :: 0 <= k < |ss| ==> Ended(ss[k])
  }

  /** No occurrence of a sentence ending in `s` ends before the end of `s`. */
  ghost predicate NoInnerEnding(s: string) {
    forall e, j :: 0 <= e < |LegacyEndings| && EndsWith(s, LegacyEndings[e], j) ==> j == |s|
  }

  ghost predicate AllNoInnerEnding(ss: seq<string>) {
    forall k :: 0 <= k < |ss| ==> NoInnerEnding(ss[k])
  }

  /** The `while temp_text` loop: cut sentences off the front until no
      ending remains before the end. The sentences partition the text; each
      but the last ends with a sentence ending, and none holds an ending
      before its own end, so each stops at the first ending. */
  method LegacySentences(text: string) returns (sentences: seq<string>)
    ensures Flatten(sentences) == text
    ensures AllNonEmpty(sentences)
    ensures forall k :: 0 <= k < |sentences| - 1 ==> Ended(sentences[k])
    ensures AllNoInnerEnding(sentences)
  {
    sentences := [];
    var tempText := text;
    while tempText != []
      invariant Flatten(sentences) + tempText == text
      invariant AllNonEmpty(sentences)
      invariant AllEnded(sentences)
      invariant AllNoInnerEnding(sentences)
      decreases |tempText|
    {
      var sentence, rest := CutSentence(tempText);
      FlattenAppend(sentences, [sentence]);
      FlattenSingle(sentence);
      AppendAssoc(Flatten(sentences), sentence, rest);
      if rest == [] {
        // No ending before the end: the rest of the text is the last sentence.
        sentences := sentences + [sentence];
        return;
      }
      sentences := sentences + [sentence];
      tempText := rest;
    }
  }

  /** One turn of the loop: the sentence up to the earliest cut, and what
      follows it. The sentence ends with an ending unless it is the whole
      text, and holds no ending that ends earlier. */
  method CutSentence(t: string) returns (sentence: string, rest: string)
    requires t != []
    ensures sentence != [] && sentence + rest == t
    ensures rest != [] ==> Ended(sentence)
    ensures NoInnerEnding(sentence)
  {
    var bestSplit := SentenceCut(t);
    SentencePrefix(t);
    sentence, rest := t[..bestSplit], t[bestSplit..];
    assert t == sentence + rest;
  }

  /** The sentence cut off the front of a non-empty text: non-empty, ended
      unless it is the whole text, and free of earlier endings. */
  lemma SentencePrefix(t: string)
    requires t != []
    ensures var r := EarliestCut(t, LegacyEndings, |t|);
      && 0 < r <= |t|
      && (r < |t| ==> Ended(t[..r]))
      && NoInnerEnding(t[..r])
  {
    var r := EarliestCut(t, LegacyEndings, |t|);
    SentenceCutBounds(t);
    PrefixNoInnerEnding(t, r);
    if r < |t| {
      EndsWithPrefix(t, r);
    }
  }

  /** A prefix that ends no later than every occurrence of every ending
      holds no ending before its own end. */
  lemma PrefixNoInnerEnding(t: string, p: nat)
    requires p <= |t|
    requires forall e, k :: 0 <= e < |LegacyEndings| && Occurs(t, LegacyEndings[e], k) ==> p <= k + 2
    ensures NoInnerEnding(t[..p])
  {
    LegacyEndingsLength();
    forall e, j | 0 <= e < |LegacyEndings| && EndsWith(t[..p], LegacyEndings[e], j)
      ensures j == p
    {
      var d := LegacyEndings[e];
      assert t[..p][j - 2..j] == t[j - 2..j];
      assert Occurs(t, d, j - 2);
    }
  }

  /** An ending that ends at p in t also ends the prefix t[..p]. */
  lemma EndsWithPrefix(t: string, p: nat)
    requires p <= |t|
    requires exists k :: 0 <= k < |LegacyEndings| && EndsWith(t, LegacyEndings[k], p)
    ensures exists k :: 0 <= k < |LegacyEndings| && EndsWith(t[..p], LegacyEndings[k], p)
  {
    var k :| 0 <= k < |LegacyEndings| && EndsWith(t, LegacyEndings[k], p);
    var e := LegacyEndings[k];
    assert t[..p][p - |e|..p] == t[p - |e|..p];
    assert EndsWith(t[..p], e, p);
  }

  // ---------------------------------------------------------------- grouping

  /** What the legacy splitter promises of a chunk before the final filter:
      trimmed, and at most one character over the limit unless it is a
      single word. */
  predicate LegacyChunk(c: string, maxLength: int) {
    IsTrimmed(c) && (|c| <= maxLength + 1 || NoSpace(c))
  }

  predicate LegacyChunks(chunks: seq<string>, maxLength: int) {
    forall k :: 0 <= k < |chunks| ==> LegacyChunk(chunks[k], maxLength)
  }

  /** `split_text_into_chunks`. A text within the limit is one chunk;
      otherwise every chunk meets the legacy promise, and the chunks'
      non-whitespace characters appear in the text's, in the same order
      (the delimiter passes drop the delimiters they cut at). */
  method SplitTextIntoChunks(text: string, maxLength: Option<int>, cfg: Config) returns (chunks: seq<string>)
    ensures var m := if maxLength.None? then cfg.maxChunkLength else maxLength.value;
      && (|text| <= m ==> chunks == [text])
      && (|text| > m ==> forall k :: 0 <= k < |chunks| ==> chunks[k] != [] && LegacyChunk(chunks[k], m))
      && (|text| > m ==> Subseq(NonSpace(Flatten(chunks)), NonSpace(text)))
  {
    var m := if maxLength.None? then cfg.maxChunkLength else maxLength.value;
    if |text| <= m {
      return [text];
    }
    var sentences := LegacySentences(text);
    chunks := [];
    var currentChunk: string := [];
    for i := 0 to |sentences|
      invariant LegacyChunks(chunks, m)
      invariant currentChunk == [] || (IsTrimmed(currentChunk) && |currentChunk| <= m + 1)
      invariant Subseq(NonSpace(Flatten(chunks)) + NonSpace(currentChunk), NonSpace(Flatten(sentences[..i])))
    {
      FlattenPrefixSnoc(sentences, i);
      NonSpaceAppend(Flatten(sentences[..i]), sentences[i]);
      chunks, currentChunk := GroupSentence(chunks, currentChunk, sentences[i], m, NonSpace(Flatten(sentences[..i])));
    }
    assert sentences[..|sentences|] == sentences;
    if currentChunk != [] {
      StripOfTrimmed(currentChunk);
      NonSpaceFlattenSnoc(chunks, currentChunk);
      chunks := chunks + [Strip(currentChunk)];
    } else {
      assert NonSpace(Flatten(chunks)) + NonSpace(currentChunk) == NonSpace(Flatten(chunks));
    }
    KeepNonBlankKeepsText(chunks);
    chunks := KeepNonBlank(chunks);
  }

  /** One sentence of the grouping loop: stripped, skipped when blank,
      appended to the running chunk while it fits, otherwise the running
      chunk is closed and the sentence starts the next one or, when over
      the limit, is sub-split. What the chunks and the running chunk hold
      stays a subsequence of the text read so far (`whole`) and the new
      sentence. */
  method GroupSentence(chunks: seq<string>, currentChunk: string, raw: string, m: int, ghost whole: string)
    returns (chunks': seq<string>, currentChunk': string)
    requires LegacyChunks(chunks, m)
    requires currentChunk == [] || (IsTrimmed(currentChunk) && |currentChunk| <= m + 1)
    requires Subseq(NonSpace(Flatten(chunks)) + NonSpace(currentChunk), whole)
    ensures LegacyChunks(chunks', m)
    ensures currentChunk' == [] || (IsTrimmed(currentChunk') && |currentChunk'| <= m + 1)
    ensures Subseq(NonSpace(Flatten(chunks')) + NonSpace(currentChunk'), whole + NonSpace(raw))
  {
    var sentence := Strip(raw);
    StripFacts(raw);
    var held := NonSpace(Flatten(chunks)) + NonSpace(currentChunk);
    if sentence == [] {
      assert whole + NonSpace(raw) == whole;
      return chunks, currentChunk;
    }
    if |currentChunk| + |sentence| <= m {
      currentChunk' := Merge(currentChunk, " ", sentence);
      assert NonSpace(currentChunk') == NonSpace(currentChunk) + NonSpace(sentence) by {
        if currentChunk != [] {
          NonSpaceSkipBlank(currentChunk, " ", sentence);
        } else {
          assert NonSpace(currentChunk) == [];
        }
      }
      AppendAssoc(NonSpace(Flatten(chunks)), NonSpace(currentChunk), NonSpace(sentence));
      SubseqRefl(NonSpace(sentence));
      SubseqConcat(held, whole, NonSpace(sentence), NonSpace(raw));
      return chunks, currentChunk';
    }
    chunks', currentChunk' := CloseChunk(chunks, currentChunk, sentence, m, whole);
  }

  /** The sentence does not fit beside the running chunk: close the running
      chunk, then start the next one with the sentence, or sub-split it when
      it is over the limit on its own. */
  method CloseChunk(chunks: seq<string>, currentChunk: string, sentence: string, m: int, ghost whole: string)
    returns (chunks': seq<string>, currentChunk': string)
    requires LegacyChunks(chunks, m)
    requires currentChunk == [] || (IsTrimmed(currentChunk) && |currentChunk| <= m + 1)
    requires sentence != [] && IsTrimmed(sentence)
    requires Subseq(NonSpace(Flatten(chunks)) + NonSpace(currentChunk), whole)
    ensures LegacyChunks(chunks', m)
    ensures currentChunk' == [] || (IsTrimmed(currentChunk') && |currentChunk'| <= m + 1)
    ensures Subseq(NonSpace(Flatten(chunks')) + NonSpace(currentChunk'), whole + NonSpace(sentence))
  {
    var held := NonSpace(Flatten(chunks)) + NonSpace(currentChunk);
    var closed := chunks;
    if currentChunk != [] {
      StripOfTrimmed(currentChunk);
      NonSpaceFlattenSnoc(chunks, currentChunk);
      closed := chunks + [Strip(currentChunk)];
    }
    assert NonSpace(Flatten(closed)) == held;
    if |sentence| > m {
      var subChunks := LegacySubSplit(sentence, m);
      NonSpaceFlattenAppend(closed, subChunks);
      SubseqConcat(held, whole, NonSpace(Flatten(subChunks)), NonSpace(sentence));
      chunks', currentChunk' := closed + subChunks, [];
      assert NonSpace(Flatten(chunks')) + NonSpace(currentChunk') == NonSpace(Flatten(chunks'));
    } else {
      SubseqRefl(NonSpace(sentence));
      SubseqConcat(held, whole, NonSpace(sentence), NonSpace(sentence));
      chunks', currentChunk' := closed, sentence;
    }
  }

  /** An over-long sentence: the four delimiter passes, then each piece
      within the limit is stripped and any other piece is packed by words.
      The chunks' non-whitespace characters appear in the sentence's, in
      order. */
  method LegacySubSplit(sentence: string, maxLength: int) returns (chunks: seq<string>)
    requires sentence != []
    ensures LegacyChunks(chunks, maxLength)
    ensures Subseq(NonSpace(Flatten(chunks)), NonSpace(sentence))
  {
    var subChunks := [sentence];
    FlattenSingle(sentence);
    SubseqRefl(sentence);
    for d := 0 to |LegacySubDelimiters|
      invariant forall k :: 0 <= k < |subChunks| ==> subChunks[k] != []
      invariant Subseq(Flatten(subChunks), sentence)
    {
      var next := ResplitAt(subChunks, LegacySubDelimiters[d], maxLength);
      SubseqTrans(Flatten(next), Flatten(subChunks), sentence);
      subChunks := next;
    }
    chunks := [];
    for i := 0 to |subChunks|
      invariant LegacyChunks(chunks, maxLength)
      invariant NonSpace(Flatten(chunks)) == NonSpace(Flatten(subChunks[..i]))
    {
      FlattenPrefixSnoc(subChunks, i);
      NonSpaceAppend(Flatten(subChunks[..i]), subChunks[i]);
      if |subChunks[i]| <= maxLength {
        StripFacts(subChunks[i]);
        NonSpaceFlattenSnoc(chunks, Strip(subChunks[i]));
        chunks := chunks + [Strip(subChunks[i])];
      } else {
        var wordChunks := LegacyWordPack(subChunks[i], maxLength);
        NonSpaceFlattenAppend(chunks, wordChunks);
        chunks := chunks + wordChunks;
      }
    }
    assert subChunks[..|subChunks|] == subChunks;
    NonSpaceSubseq(Flatten(subChunks), sentence);
  }

  /** The last-resort word packer: words joined by single spaces while
      `len(current) + len(word) + 1` fits; a word over the limit becomes a
      chunk of its own, unsplit. */
  method LegacyWordPack(s: string, maxLength: int) returns (chunks: seq<string>)
    ensures forall k :: 0 <= k < |chunks| ==>
      chunks[k] != [] && IsTrimmed(chunks[k]) && (|chunks[k]| <= maxLength || NoSpace(chunks[k]))
    ensures NonSpace(Flatten(chunks)) == NonSpace(s)
  {
    var words := Words(s);
    FlattenWords(s);
    chunks := [];
    var current: string := [];
    for i := 0 to |words|
      invariant forall k :: 0 <= k < |chunks| ==>
        chunks[k] != [] && IsTrimmed(chunks[k]) && (|chunks[k]| <= maxLength || NoSpace(chunks[k]))
      invariant current == [] || (IsTrimmed(current) && (|current| <= maxLength || NoSpace(current)))
      invariant NonSpace(Flatten(chunks)) + NonSpace(current) == Flatten(words[..i])
    {
      FlattenPrefixSnoc(words, i);
      chunks, current := LegacyWordStep(chunks, current, words[i], maxLength);
    }
    assert words[..|words|] == words;
    if current != [] {
      NonSpaceFlattenSnoc(chunks, current);
      chunks := chunks + [current];
    }
  }

  /** One word of the legacy word packer. */
  method LegacyWordStep(chunks: seq<string>, current: string, word: string, maxLength: int)
    returns (chunks': seq<string>, current': string)
    requires word != [] && NoSpace(word)
    requires forall k :: 0 <= k < |chunks| ==>
      chunks[k] != [] && IsTrimmed(chunks[k]) && (|chunks[k]| <= maxLength || NoSpace(chunks[k]))
    requires current == [] || (IsTrimmed(current) && (|current| <= maxLength || NoSpace(current)))
    ensures forall k :: 0 <= k < |chunks'| ==>
      chunks'[k] != [] && IsTrimmed(chunks'[k]) && (|chunks'[k]| <= maxLength || NoSpace(chunks'[k]))
    ensures current' == [] || (IsTrimmed(current') && (|current'| <= maxLength || NoSpace(current')))
    ensures NonSpace(Flatten(chunks')) + NonSpace(current') == NonSpace(Flatten(chunks)) + NonSpace(current) + word
  {
    NonSpaceOfWord(word);
    if |current| + |word| + 1 <= maxLength {
      current' := Merge(current, " ", word);
      assert NonSpace(current') == NonSpace(current) + word by {
        if current != [] {
          NonSpaceSkipBlank(current, " ", word);
        }
      }
      AppendAssoc(NonSpace(Flatten(chunks)), NonSpace(current), word);
      return chunks, current';
    }
    chunks' := chunks;
    if current != [] {
      NonSpaceFlattenSnoc(chunks, current);
      chunks' := chunks + [current];
    }
    current' := word;
  }
}
