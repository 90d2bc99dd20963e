/**
 * Hand-written matchers for the two regular expressions the splitters use:
 *   ParagraphBreak  --  \n\s*\n          (a blank line, possibly with spaces on it)
 *   SentenceGap     --  (?<=[.!?])\s+    (whitespace after sentence punctuation)
 * with the semantics of Python's re.finditer (the ends of the successive
 * leftmost, non-overlapping, greedy matches) and re.split (the text between
 * those matches).
 */
module Separators {
  import opened Text

  datatype Separator = ParagraphBreak | SentenceGap

  /** Largest j with lo <= j < hi and s[j] == '\n'. */
  function LastNewline(s: string, lo: nat, hi: nat): (r: Option<nat>)
    requires lo <= hi <= |s|
    ensures r.Some? ==> lo <= r.value < hi && s[r.value] == '\n'
    ensures r.Some? ==> forall j :: r.value < j < hi ==> s[j] != '\n'
    ensures r.None? ==> forall j :: lo <= j < hi ==> s[j] != '\n'
    decreases hi
  {
    if hi == lo then None
    else if s[hi - 1] == '\n' then Some(hi - 1)
    else LastNewline(s, lo, hi - 1)
  }

  /** End of the match of `sep` that starts at index `i`, if there is one.
      For ParagraphBreak the greedy \s* runs to the end of the whitespace and
      then backs off to the last newline in it; for SentenceGap the greedy \s+
      takes the whole whitespace run. */
  function MatchAt(sep: Separator, s: string, i: nat): (r: Option<nat>)
    ensures r.Some? ==> i < r.value <= |s| && IsBlank(s[i..r.value])
    ensures r.Some? && sep.ParagraphBreak? ==> r.value >= i + 2 && s[i] == '\n' && s[r.value - 1] == '\n'
    ensures r.Some? && sep.SentenceGap? ==>
      i > 0 && s[i - 1] in ".!?" && (r.value == |s| || !IsSpace(s[r.value]))
  {
    if i >= |s| then None
    else match sep
      case ParagraphBreak =>
        if s[i] != '\n' then None
        else
          var k := i + 1 + LeadingSpaces(s[i + 1..]);
          assert forall j :: i < j < k ==> IsSpace(s[j]) by {
            forall j | i < j < k ensures IsSpace(s[j]) {
              assert s[j] == s[i + 1..][j - i - 1];
            }
          }
          (match LastNewline(s, i + 1, k)
           case None => None
           case Some(j) => Some(j + 1))
      case SentenceGap =>
        if i > 0 && s[i - 1] in ".!?" && IsSpace(s[i]) then
          var e := i + LeadingSpaces(s[i..]);
          assert forall j :: i <= j < e ==> IsSpace(s[j]) by {
            forall j | i <= j < e ensures IsSpace(s[j]) {
              assert s[j] == s[i..][j - i];
            }
          }
          assert e < |s| ==> s[e] == s[i..][e - i];
          Some(e)
        else None
  }

  /** Ends of the successive matches found scanning from index `i` (re.finditer). */
  function MatchEnds(sep: Separator, s: string, i: nat): (r: seq<nat>)
    ensures forall k :: 0 <= k < |r| ==> i < r[k] <= |s|
    ensures forall a, b :: 0 <= a < b < |r| ==> r[a] < r[b]
    decreases |s| - i
  {
    if i >= |s| then []
    else match MatchAt(sep, s, i)
      case Some(e) => [e] + MatchEnds(sep, s, e)
      case None => MatchEnds(sep, s, i + 1)
  }

  /** Pieces of s[start..] between the matches found scanning from `i` (re.split). */
  function SegmentsFrom(sep: Separator, s: string, start: nat, i: nat): (r: seq<string>)
    requires start <= i <= |s|
    ensures |r| >= 1
    decreases |s| - i
  {
    if i == |s| then [s[start..]]
    else match MatchAt(sep, s, i)
      case Some(e) => [s[start..i]] + SegmentsFrom(sep, s, e, e)
      case None => SegmentsFrom(sep, s, start, i + 1)
  }

  /** re.split(pattern, s). */
  function Segments(sep: Separator, s: string): (r: seq<string>)
    ensures |r| >= 1
  {
    SegmentsFrom(sep, s, 0, 0)
  }

  /** What re.split removes is whitespace only: the segments hold every
      non-whitespace character of the text, in order. */
  lemma {:induction false} SegmentsFromKeepText(sep: Separator, s: string, start: nat, i: nat)
    requires start <= i <= |s|
    ensures NonSpace(Flatten(SegmentsFrom(sep, s, start, i))) == NonSpace(s[start..])
    decreases |s| - i
  {
    if i == |s| {
      FlattenSingle(s[start..]);
    } else {
      var m := MatchAt(sep, s, i);
      if m.Some? {
        var e := m.value;
        SegmentsFromKeepText(sep, s, e, e);
        KeepTextAcrossMatch(s, start, i, e, SegmentsFrom(sep, s, e, e));
      } else {
        SegmentsFromKeepText(sep, s, start, i + 1);
      }
    }
  }

  lemma KeepTextAcrossMatch(s: string, start: nat, i: nat, e: nat, rest: seq<string>)
    requires start <= i < e <= |s| && IsBlank(s[i..e])
    requires NonSpace(Flatten(rest)) == NonSpace(s[e..])
    ensures NonSpace(Flatten([s[start..i]] + rest)) == NonSpace(s[start..])
  {
    FlattenCons(s[start..i], rest);
    NonSpaceAppend(s[start..i], Flatten(rest));
    assert s[start..] == s[start..i] + s[i..e] + s[e..];
    NonSpaceSkipBlank(s[start..i], s[i..e], s[e..]);
  }

  lemma SegmentsKeepText(sep: Separator, s: string)
    ensures NonSpace(Flatten(Segments(sep, s))) == NonSpace(s)
  {
    SegmentsFromKeepText(sep, s, 0, 0);
    assert s[0..] == s;
  }
}
