/**
 * The boundary cascade that picks where an over-long text is cut:
 * paragraph break, then sentence ending, then clause delimiter, then the last
 * space before the limit, then a hard cut at the limit.
 *
 * Each tier is specified by a function on the text; the scanning loops of
 * `_try_split_at_paragraphs`, `_try_split_at_sentences` and
 * `_try_split_at_clauses` are methods proved to compute those functions. A
 * split position p turns the text into the pair (text[:p].strip(),
 * text[p:].strip()); the `overlap_chars` argument of `_find_best_split_point`
 * is always 0 at its only call site and is therefore fixed at 0 here.
 */
module Boundary {
  import opened Text
  import opened Separators

  const SentenceEndings: seq<string> :=
    [". ", "! ", "? ", ".\n", "!\n", "?\n", ".\"", "!\"", "?\"", ".'", "!'", "?'"]

  const ClauseDelimiters: seq<string> :=
    [", ", "; ", ": ", " - ", " — ", " and ", " or ", " but ", " while ", " when "]

  predicate NonEmptyPatterns(delims: seq<string>) {
    forall k :: 0 <= k < |delims| ==> delims[k] != []
  }

  lemma DelimiterListsNonEmpty()
    ensures NonEmptyPatterns(SentenceEndings) && NonEmptyPatterns(ClauseDelimiters)
  {
  }

  /** The guard `best_split and best_split > max_length * (tenths / 10)`, in exact arithmetic. */
  predicate Admissible(p: nat, maxLength: int, tenths: nat) {
    p > 0 && 10 * p > tenths * maxLength
  }

  // ---------------------------------------------------------------- paragraph tier

  /** The largest element of `xs` that is at most `limit`. */
  function LargestAtMost(xs: seq<nat>, limit: int): (r: Option<nat>)
    ensures r.Some? ==> r.value in xs && r.value <= limit
    ensures r.Some? ==> forall k :: 0 <= k < |xs| && xs[k] <= limit ==> xs[k] <= r.value
    ensures r.None? ==> forall k :: 0 <= k < |xs| ==> xs[k] > limit
  {
    if xs == [] then None
    else
      var r := LargestAtMost(xs[..|xs| - 1], limit);
      var x := xs[|xs| - 1];
      if x <= limit && (r.None? || r.value <= x) then Some(x) else r
  }

  /** Paragraph tier: the end of the last blank-line match that ends within
      the limit, accepted only when it lies beyond half the limit. */
  function ParagraphTier(text: string, maxLength: int): (r: Option<nat>)
    ensures var ends := MatchEnds(ParagraphBreak, text, 0);
      && (r.Some? ==> r.value in ends && r.value <= maxLength && 2 * r.value > maxLength)
      && (r.Some? ==> forall k :: 0 <= k < |ends| && ends[k] <= maxLength ==> ends[k] <= r.value)
      && (r.None? ==> forall k :: 0 <= k < |ends| && ends[k] <= maxLength ==> 2 * ends[k] <= maxLength)
  {
    var best := LargestAtMost(MatchEnds(ParagraphBreak, text, 0), maxLength);
    if best.Some? && Admissible(best.value, maxLength, 5) then best else None
  }

  /** For ascending `xs` whose element `k` already exceeds the limit, the
      elements from `k` on play no part. */
  lemma {:induction false} LargestAtMostPrefix(xs: seq<nat>, k: nat, limit: int)
    requires k <= |xs|
    requires forall a, b :: 0 <= a < b < |xs| ==> xs[a] < xs[b]
    requires k < |xs| ==> xs[k] > limit
    ensures LargestAtMost(xs, limit) == LargestAtMost(xs[..k], limit)
    decreases |xs|
  {
    if k < |xs| {
      assert xs[..|xs| - 1][..k] == xs[..k];
      LargestAtMostPrefix(xs[..|xs| - 1], k, limit);
    } else {
      assert xs[..k] == xs;
    }
  }

  /** For ascending positions all within the limit, the largest is the last. */
  lemma LargestAtMostLast(xs: seq<nat>, limit: int)
    requires forall a, b :: 0 <= a < b < |xs| ==> xs[a] < xs[b]
    requires forall j :: 0 <= j < |xs| ==> xs[j] <= limit
    ensures LargestAtMost(xs, limit) == (if xs == [] then None else Some(xs[|xs| - 1]))
  {
    if xs != [] {
      var r := LargestAtMost(xs[..|xs| - 1], limit);
      if r.Some? {
        var j :| 0 <= j < |xs| - 1 && xs[..|xs| - 1][j] == r.value;
        assert xs[j] < xs[|xs| - 1];
      }
    }
  }

  /** The source's loop over the matches, keeping the last end within the limit. */
  method TrySplitAtParagraphs(text: string, maxLength: int) returns (r: Option<nat>)
    ensures r == ParagraphTier(text, maxLength)
  {
    var matches := MatchEnds(ParagraphBreak, text, 0);
    if |matches| == 0 {
      return None;
    }
    var best: Option<nat> := None;
    var k := 0;
    while k < |matches|
      invariant k <= |matches|
      invariant best == (if k == 0 then None else Some(matches[k - 1]))
      invariant forall j :: 0 <= j < k ==> matches[j] <= maxLength
    {
      if matches[k] <= maxLength {
        best := Some(matches[k]);
        k := k + 1;
      } else {
        break;
      }
    }
    LargestAtMostLast(matches[..k], maxLength);
    LargestAtMostPrefix(matches, k, maxLength);
    assert best == LargestAtMost(matches, maxLength);
    r := if best.Some? && Admissible(best.value, maxLength, 5) then best else None;
  }

  // ---------------------------------------------------------------- sentence and clause tiers

  /** The largest end q <= limit of an occurrence of `pat` in `s`. */
  function LastEndAtMost(s: string, pat: string, limit: int): (r: Option<nat>)
    requires pat != []
    ensures r.Some? ==> |pat| <= r.value <= limit && Occurs(s, pat, r.value - |pat|)
    ensures r.Some? ==> forall k :: r.value - |pat| < k && k + |pat| <= limit ==> !Occurs(s, pat, k)
    ensures r.None? ==> forall k :: k + |pat| <= limit ==> !Occurs(s, pat, k)
    decreases limit
  {
    if limit < |pat| then None
    else if Occurs(s, pat, limit - |pat|) then Some(limit)
    else LastEndAtMost(s, pat, limit - 1)
  }

  /** `best_split` after one delimiter: a delimiter with an occurrence in the
      limit overwrites it, one without leaves it as it was. */
  function Override(prev: Option<nat>, found: Option<nat>): Option<nat> {
    if found.Some? then found else prev
  }

  /** `best_split` after the delimiters of `delims` in list order. */
  function LastListedEnd(s: string, delims: seq<string>, limit: int, best: Option<nat>): Option<nat>
    requires NonEmptyPatterns(delims)
    decreases |delims|
  {
    if delims == [] then best
    else LastListedEnd(s, delims[1..], limit, Override(best, LastEndAtMost(s, delims[0], limit)))
  }

  /** When no listed delimiter occurs within the limit, `best_split` is untouched. */
  lemma {:induction false} LastListedEndNone(s: string, delims: seq<string>, limit: int, best: Option<nat>)
    requires NonEmptyPatterns(delims)
    requires forall k :: 0 <= k < |delims| ==> LastEndAtMost(s, delims[k], limit).None?
    ensures LastListedEnd(s, delims, limit, best) == best
    decreases |delims|
  {
    if delims != [] {
      assert LastEndAtMost(s, delims[0], limit).None?;
      LastListedEndNone(s, delims[1..], limit, best);
    }
  }

  /** Otherwise the result is the rightmost in-limit occurrence of the LAST
      listed delimiter that has one, whatever earlier delimiters found. */
  lemma {:induction false} LastListedEndSome(s: string, delims: seq<string>, limit: int, best: Option<nat>, k: nat)
    requires NonEmptyPatterns(delims)
    requires k < |delims| && LastEndAtMost(s, delims[k], limit).Some?
    requires forall j :: k < j < |delims| ==> LastEndAtMost(s, delims[j], limit).None?
    ensures LastListedEnd(s, delims, limit, best) == LastEndAtMost(s, delims[k], limit)
    decreases |delims|
  {
    var next := Override(best, LastEndAtMost(s, delims[0], limit));
    if k == 0 {
      LastListedEndNone(s, delims[1..], limit, next);
    } else {
      LastListedEndSome(s, delims[1..], limit, next, k - 1);
    }
  }

  /** The inner `while pos < len(text)` loop of one delimiter. */
  method ScanDelimiter(text: string, pat: string, maxLength: int, best: Option<nat>) returns (r: Option<nat>)
    requires pat != []
    ensures r == Override(best, LastEndAtMost(text, pat, maxLength))
  {
    r := best;
    var pos := 0;
    while pos < |text|
      invariant 0 <= pos <= |text|
      invariant forall k :: 0 <= k < pos && Occurs(text, pat, k) ==> k + |pat| <= maxLength
      invariant pos == 0 ==> r == best
      invariant pos > 0 ==> Occurs(text, pat, pos - 1) && r == Some(pos - 1 + |pat|)
    {
      var found := Find(text, pat, pos);
      if found.None? {
        break;
      }
      var splitPos := found.value + |pat|;
      if splitPos <= maxLength {
        r := Some(splitPos);
        pos := found.value + 1;
      } else {
        assert forall k :: pos <= k && Occurs(text, pat, k) ==> k + |pat| > maxLength;
        break;
      }
    }
    assert forall k :: pos <= k && Occurs(text, pat, k) ==> k + |pat| > maxLength;
    var last := LastEndAtMost(text, pat, maxLength);
    if pos == 0 {
      assert last.None?;
    } else {
      assert last == Some(pos - 1 + |pat|) by {
        if last.Some? {
          assert Occurs(text, pat, last.value - |pat|);
        }
      }
    }
  }

  /** The loop over the delimiter list, each delimiter scanned in turn. */
  method ScanDelimiters(text: string, delims: seq<string>, maxLength: int) returns (best: Option<nat>)
    requires NonEmptyPatterns(delims)
    ensures best == LastListedEnd(text, delims, maxLength, None)
  {
    best := None;
    for i := 0 to |delims|
      invariant LastListedEnd(text, delims, maxLength, None) == LastListedEnd(text, delims[i..], maxLength, best)
    {
      assert delims[i..][1..] == delims[i + 1..];
      best := ScanDelimiter(text, delims[i], maxLength, best);
    }
    assert delims[|delims|..] == [];
  }

  /** `best_split` after the sentence-ending loop, before the 0.4 test. */
  function SentenceBest(text: string, maxLength: int): (r: Option<nat>)
    ensures r.Some? ==> r.value <= maxLength
  {
    DelimiterListsNonEmpty();
    LastListedEndBound(text, SentenceEndings, maxLength, None);
    LastListedEnd(text, SentenceEndings, maxLength, None)
  }

  /** `best_split` after the clause-delimiter loop, before the 0.3 test. */
  function ClauseBest(text: string, maxLength: int): (r: Option<nat>)
    ensures r.Some? ==> r.value <= maxLength
  {
    DelimiterListsNonEmpty();
    LastListedEndBound(text, ClauseDelimiters, maxLength, None);
    LastListedEnd(text, ClauseDelimiters, maxLength, None)
  }

  /** Sentence tier: accepted only beyond 0.4 of the limit. */
  function SentenceTier(text: string, maxLength: int): (r: Option<nat>)
    ensures r.Some? ==> r == SentenceBest(text, maxLength)
    ensures r.Some? ==> r.value <= maxLength && 10 * r.value > 4 * maxLength
    ensures r.None? ==> var b := SentenceBest(text, maxLength);
      b.None? || b.value == 0 || 10 * b.value <= 4 * maxLength
  {
    var best := SentenceBest(text, maxLength);
    if best.Some? && Admissible(best.value, maxLength, 4) then best else None
  }

  /** Clause tier: accepted only beyond 0.3 of the limit. */
  function ClauseTier(text: string, maxLength: int): (r: Option<nat>)
    ensures r.Some? ==> r == ClauseBest(text, maxLength)
    ensures r.Some? ==> r.value <= maxLength && 10 * r.value > 3 * maxLength
    ensures r.None? ==> var b := ClauseBest(text, maxLength);
      b.None? || b.value == 0 || 10 * b.value <= 3 * maxLength
  {
    var best := ClauseBest(text, maxLength);
    if best.Some? && Admissible(best.value, maxLength, 3) then best else None
  }

  lemma {:induction false} LastListedEndBound(s: string, delims: seq<string>, limit: int, best: Option<nat>)
    requires NonEmptyPatterns(delims)
    requires best.Some? ==> best.value <= limit
    ensures var r := LastListedEnd(s, delims, limit, best); r.Some? ==> r.value <= limit
    decreases |delims|
  {
    if delims != [] {
      LastListedEndBound(s, delims[1..], limit, Override(best, LastEndAtMost(s, delims[0], limit)));
    }
  }

  method TrySplitAtSentences(text: string, maxLength: int) returns (r: Option<nat>)
    ensures r == SentenceTier(text, maxLength)
  {
    DelimiterListsNonEmpty();
    var best := ScanDelimiters(text, SentenceEndings, maxLength);
    r := if best.Some? && Admissible(best.value, maxLength, 4) then best else None;
  }

  method TrySplitAtClauses(text: string, maxLength: int) returns (r: Option<nat>)
    ensures r == ClauseTier(text, maxLength)
  {
    DelimiterListsNonEmpty();
    var best := ScanDelimiters(text, ClauseDelimiters, maxLength);
    r := if best.Some? && Admissible(best.value, maxLength, 3) then best else None;
  }

  // ---------------------------------------------------------------- word tier

  /** s.rfind(' ', 0, limit): the last space strictly before `limit`. */
  function LastSpaceBefore(s: string, limit: int): (r: Option<nat>)
    ensures r.Some? ==> r.value < limit && r.value < |s| && s[r.value] == ' '
    ensures r.Some? ==> forall j :: r.value < j < limit && j < |s| ==> s[j] != ' '
    ensures r.None? ==> forall j :: 0 <= j < limit && j < |s| ==> s[j] != ' '
    decreases limit
  {
    if limit <= 0 then None
    else if limit - 1 < |s| && s[limit - 1] == ' ' then Some(limit - 1)
    else LastSpaceBefore(s, limit - 1)
  }

  /** Word tier: cut at the last space before the limit, else hard-cut at the limit. */
  function WordSplitPos(text: string, maxLength: nat): (p: nat)
    ensures p <= maxLength
    ensures p < maxLength ==> p < |text| && text[p] == ' '
    ensures p < maxLength ==> forall j :: p < j < maxLength && j < |text| ==> text[j] != ' '
    ensures p == maxLength ==> forall j :: 0 <= j < maxLength && j < |text| ==> text[j] != ' '
  {
    match LastSpaceBefore(text, maxLength)
    case Some(i) => i
    case None => maxLength
  }

  // ---------------------------------------------------------------- the cascade

  /** Where the cascade cuts an over-long text: the first tier, in the order
      paragraph, sentence, clause, word, that offers a position. */
  function SplitPoint(text: string, maxLength: nat): (p: nat)
    requires |text| > maxLength >= 1
    ensures p <= maxLength
    ensures 10 * p > 3 * maxLength || p == WordSplitPos(text, maxLength)
    ensures ParagraphTier(text, maxLength).Some? ==> p == ParagraphTier(text, maxLength).value
    ensures ParagraphTier(text, maxLength).None? && SentenceTier(text, maxLength).Some? ==>
      p == SentenceTier(text, maxLength).value
    ensures (ParagraphTier(text, maxLength).None? && SentenceTier(text, maxLength).None?
             && ClauseTier(text, maxLength).Some?) ==> p == ClauseTier(text, maxLength).value
    ensures (ParagraphTier(text, maxLength).None? && SentenceTier(text, maxLength).None?
             && ClauseTier(text, maxLength).None?) ==> p == WordSplitPos(text, maxLength)
  {
    match ParagraphTier(text, maxLength)
    case Some(p) => p
    case None =>
      match SentenceTier(text, maxLength)
      case Some(p) => p
      case None =>
        match ClauseTier(text, maxLength)
        case Some(p) => p
        case None => WordSplitPos(text, maxLength)
  }

  /** On a trimmed text the cascade never cuts at 0: every accepted tier lies
      beyond a positive fraction of the limit, and a space found by the word
      tier is not the first character. */
  lemma SplitPointPositive(text: string, maxLength: nat, p: nat)
    requires |text| > maxLength >= 1 && p <= maxLength
    requires 10 * p > 3 * maxLength || p == WordSplitPos(text, maxLength)
    ensures IsTrimmed(text) ==> p >= 1
  {
  }

  /** `_find_best_split_point(text, max_length, 0)`: (head, tail). */
  function FindBestSplitPoint(text: string, maxLength: nat): (r: (string, string))
    requires maxLength >= 1
    ensures |text| <= maxLength ==> r == (text, [])
    ensures |text| > maxLength ==> |r.0| <= maxLength && IsTrimmed(r.0) && IsTrimmed(r.1)
    ensures |text| > maxLength ==> NonSpace(r.0) + NonSpace(r.1) == NonSpace(text)
    ensures |text| > maxLength && r.0 != [] ==> |r.1| < |text|
    ensures |text| > maxLength && IsTrimmed(text) ==> r.0 != []
  {
    if |text| <= maxLength then (text, [])
    else
      var p := SplitPoint(text, maxLength);
      CutFacts(text, p);
      SplitPointPositive(text, maxLength, p);
      (Strip(text[..p]), Strip(text[p..]))
  }

  /** Cutting at p and stripping both sides keeps the text, bounds the head by
      p, and shortens the tail when the head is non-empty. */
  lemma CutFacts(text: string, p: nat)
    requires p <= |text|
    ensures |Strip(text[..p])| <= p
    ensures IsTrimmed(Strip(text[..p])) && IsTrimmed(Strip(text[p..]))
    ensures NonSpace(Strip(text[..p])) + NonSpace(Strip(text[p..])) == NonSpace(text)
    ensures Strip(text[..p]) != [] ==> |Strip(text[p..])| < |text|
    ensures IsTrimmed(text) && 1 <= p ==> Strip(text[..p]) != []
  {
    StripFacts(text[..p]);
    StripFacts(text[p..]);
    assert text == text[..p] + text[p..];
    NonSpaceAppend(text[..p], text[p..]);
    if Strip(text[..p]) != [] {
      assert p >= 1;
    }
    if IsTrimmed(text) && 1 <= p {
      assert !IsSpace(text[..p][0]);
    }
  }

  /** The source's cascade: the tier scanners tried in order. */
  method FindBestSplit(text: string, maxLength: nat) returns (head: string, tail: string)
    requires maxLength >= 1
    ensures (head, tail) == FindBestSplitPoint(text, maxLength)
  {
    if |text| <= maxLength {
      return text, [];
    }
    var p := TrySplitAtParagraphs(text, maxLength);
    if p.None? {
      p := TrySplitAtSentences(text, maxLength);
    }
    if p.None? {
      p := TrySplitAtClauses(text, maxLength);
    }
    var pos := if p.Some? then p.value else WordSplitPos(text, maxLength);
    head, tail := Strip(text[..pos]), Strip(text[pos..]);
  }
}
