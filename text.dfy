/**
 * String primitives of the Python runtime that the text-segmentation engine
 * relies on: whitespace classification, str.strip(), str.split() with and
 * without a separator, str.find(), " ".join() and str.lower(), together with
 * the facts about them that the chunkers need.
 *
 * Strings are sequences of Unicode code points, as in Python.
 */
module Text {

  /** The characters for which Python's str.isspace() holds; str.strip(),
      str.split() and the regular-expression class \s all use this set. */
  predicate IsSpace(c: char) {
    || c == ' '
    || ('\t' <= c <= '\r')
    || ('\U{1C}' <= c <= '\U{1F}')
    || c == '\U{85}' || c == '\U{A0}' || c == '\U{1680}'
    || ('\U{2000}' <= c <= '\U{200A}')
    || c == '\U{2028}' || c == '\U{2029}' || c == '\U{202F}' || c == '\U{205F}' || c == '\U{3000}'
  }

  /** Every character is whitespace (the empty string included): `not s.strip()`. */
  predicate IsBlank(s: string) {
    forall i :: 0 <= i < |s| ==> IsSpace(s[i])
  }

  /** No character is whitespace: a single word. */
  predicate NoSpace(s: string) {
    forall i :: 0 <= i < |s| ==> !IsSpace(s[i])
  }

  /** The characters of `s` that are not whitespace, in order. */
  function NonSpace(s: string): string {
    if s == [] then [] else (if IsSpace(s[0]) then [] else [s[0]]) + NonSpace(s[1..])
  }

  lemma {:induction false} NonSpaceAppend(a: string, b: string)
    ensures NonSpace(a + b) == NonSpace(a) + NonSpace(b)
  {
    if a != [] {
      assert (a + b)[1..] == a[1..] + b;
      NonSpaceAppend(a[1..], b);
    } else {
      assert a + b == b;
    }
  }

  lemma {:induction false} NonSpaceBlank(s: string)
    ensures NonSpace(s) == [] <==> IsBlank(s)
  {
    if s != [] {
      NonSpaceBlank(s[1..]);
      assert IsBlank(s) <==> IsSpace(s[0]) && IsBlank(s[1..]);
    }
  }

  lemma {:induction false} NonSpaceOfWord(s: string)
    requires NoSpace(s)
    ensures NonSpace(s) == s
  {
    if s != [] {
      NonSpaceOfWord(s[1..]);
    }
  }

  /** Whitespace between two strings contributes no text. */
  lemma NonSpaceSkipBlank(a: string, b: string, c: string)
    requires IsBlank(b)
    ensures NonSpace(a + b + c) == NonSpace(a) + NonSpace(c)
  {
    NonSpaceAppend(a + b, c);
    NonSpaceAppend(a, b);
    NonSpaceBlank(b);
  }

  /** Whitespace removal distributes over a three-way cut of `s` whose outer parts are blank. */
  lemma NonSpaceOfMiddle(s: string, i: nat, j: nat)
    requires i <= j <= |s|
    requires IsBlank(s[..i]) && IsBlank(s[j..])
    ensures NonSpace(s[i..j]) == NonSpace(s)
  {
    assert s == s[..i] + s[i..j] + s[j..];
    NonSpaceAppend(s[..i] + s[i..j], s[j..]);
    NonSpaceAppend(s[..i], s[i..j]);
    NonSpaceBlank(s[..i]);
    NonSpaceBlank(s[j..]);
  }

  // ---------------------------------------------------------------- strip

  /** Number of leading whitespace characters. */
  function LeadingSpaces(s: string): (n: nat)
    ensures n <= |s|
    ensures forall i :: 0 <= i < n ==> IsSpace(s[i])
    ensures n < |s| ==> !IsSpace(s[n])
  {
    if s != [] && IsSpace(s[0]) then 1 + LeadingSpaces(s[1..]) else 0
  }

  /** Number of trailing whitespace characters. */
  function TrailingSpaces(s: string): (n: nat)
    ensures n <= |s|
    ensures forall i :: |s| - n <= i < |s| ==> IsSpace(s[i])
    ensures n < |s| ==> !IsSpace(s[|s| - n - 1])
  {
    if s != [] && IsSpace(s[|s| - 1]) then 1 + TrailingSpaces(s[..|s| - 1]) else 0
  }

  /** Index where str.strip() starts its result. */
  function StripStart(s: string): nat {
    LeadingSpaces(s)
  }

  /** Index where str.strip() ends its result. */
  function StripEnd(s: string): (e: nat)
    ensures StripStart(s) <= e <= |s|
  {
    var a := LeadingSpaces(s);
    a + (|s| - a - TrailingSpaces(s[a..]))
  }

  /** Python's str.strip() with no argument. */
  function Strip(s: string): string {
    s[StripStart(s)..StripEnd(s)]
  }

  /** A string that str.strip() leaves unchanged. */
  predicate IsTrimmed(s: string) {
    s == [] || (!IsSpace(s[0]) && !IsSpace(s[|s| - 1]))
  }

  lemma StripSpec(s: string)
    ensures var r := Strip(s);
      && |r| <= |s|
      && IsTrimmed(r)
      && IsBlank(s[..StripStart(s)]) && IsBlank(s[StripEnd(s)..])
      && (r == [] <==> IsBlank(s))
      && NonSpace(r) == NonSpace(s)
  {
    var a, e := StripStart(s), StripEnd(s);
    var t := s[a..];
    assert s[e..] == t[|t| - TrailingSpaces(t)..];
    assert IsBlank(s[..a]);
    assert IsBlank(s[e..]);
    NonSpaceOfMiddle(s, a, e);
    NonSpaceBlank(s);
    NonSpaceBlank(Strip(s));
  }

  lemma StripOfTrimmed(s: string)
    requires IsTrimmed(s)
    ensures Strip(s) == s
  {
  }

  /** Stripping a string of length at most `n` gives a string of length at most `n`;
      stripping a non-blank string gives a trimmed, non-empty one with the same text. */
  lemma StripFacts(s: string)
    ensures |Strip(s)| <= |s|
    ensures IsTrimmed(Strip(s))
    ensures Strip(s) == [] <==> IsBlank(s)
    ensures NonSpace(Strip(s)) == NonSpace(s)
  {
    StripSpec(s);
  }

  lemma AppendAssoc<T>(a: seq<T>, b: seq<T>, c: seq<T>)
    ensures a + b + c == a + (b + c)
  {
  }

  // ---------------------------------------------------------------- concatenation of a list

  /** "".join(ss): the pieces one after the other. */
  function Flatten(ss: seq<string>): string {
    if ss == [] then [] else Flatten(ss[..|ss| - 1]) + ss[|ss| - 1]
  }

  lemma {:induction false} FlattenAppend(a: seq<string>, b: seq<string>)
    ensures Flatten(a + b) == Flatten(a) + Flatten(b)
  {
    if b != [] {
      assert (a + b)[..|a + b| - 1] == a + b[..|b| - 1];
      FlattenAppend(a, b[..|b| - 1]);
    } else {
      assert a + b == a;
    }
  }

  lemma FlattenSingle(s: string)
    ensures Flatten([s]) == s
  {
    assert [s][..0] == [];
  }

  lemma FlattenCons(s: string, ss: seq<string>)
    ensures Flatten([s] + ss) == s + Flatten(ss)
  {
    FlattenAppend([s], ss);
    assert [s][..0] == [];
  }

  /** The first i + 1 pieces put together are the first i and then piece i. */
  lemma FlattenPrefixSnoc(words: seq<string>, i: nat)
    requires i < |words|
    ensures Flatten(words[..i + 1]) == Flatten(words[..i]) + words[i]
  {
    assert words[..i + 1] == words[..i] + [words[i]];
    FlattenAppend(words[..i], [words[i]]);
    FlattenSingle(words[i]);
  }

  /** [c for c in ss if c]: the list without its empty strings. */
  function DropEmpty(ss: seq<string>): (r: seq<string>)
    ensures forall k :: 0 <= k < |r| ==> r[k] != []
    ensures forall k :: 0 <= k < |r| ==> r[k] in ss
    ensures (forall k :: 0 <= k < |ss| ==> ss[k] != []) ==> r == ss
  {
    if ss == [] then []
    else
      var init := DropEmpty(ss[..|ss| - 1]);
      if ss[|ss| - 1] == [] then init else init + [ss[|ss| - 1]]
  }

  /** [s for s in ss if s.strip()]: the list without its blank strings. */
  function KeepNonBlank(ss: seq<string>): (r: seq<string>)
    ensures forall k :: 0 <= k < |r| ==> !IsBlank(r[k]) && r[k] in ss
    ensures (forall k :: 0 <= k < |ss| ==> !IsBlank(ss[k])) ==> r == ss
  {
    if ss == [] then []
    else
      var init := KeepNonBlank(ss[..|ss| - 1]);
      if IsBlank(ss[|ss| - 1]) then init else init + [ss[|ss| - 1]]
  }

  /** The filter works element by element, keeping the order: filtering a
      concatenation filters each part, and a single string is kept exactly
      when it is not blank. */
  lemma {:induction false} KeepNonBlankAppend(a: seq<string>, b: seq<string>)
    ensures KeepNonBlank(a + b) == KeepNonBlank(a) + KeepNonBlank(b)
    ensures |b| == 1 ==> KeepNonBlank(b) == (if IsBlank(b[0]) then [] else b)
    decreases |b|
  {
    if b == [] {
      assert a + b == a;
    } else {
      var b' := b[..|b| - 1];
      var x := b[|b| - 1];
      assert b == b' + [x];
      assert a + b == (a + b') + [x];
      KeepNonBlankAppend(a, b');
      KeepNonBlankSnoc(a + b', x);
      KeepNonBlankSnoc(b', x);
    }
  }

  lemma KeepNonBlankSnoc(ss: seq<string>, x: string)
    ensures KeepNonBlank(ss + [x]) == KeepNonBlank(ss) + (if IsBlank(x) then [] else [x])
  {
    assert (ss + [x])[..|ss|] == ss;
  }

  /** Every non-blank string of the list survives the filter. */
  lemma {:induction false} KeepNonBlankKeepsAll(ss: seq<string>)
    ensures forall k :: 0 <= k < |ss| && !IsBlank(ss[k]) ==> ss[k] in KeepNonBlank(ss)
  {
    if ss != [] {
      var init := ss[..|ss| - 1];
      KeepNonBlankKeepsAll(init);
      assert forall k :: 0 <= k < |init| ==> init[k] == ss[k];
    }
  }

  lemma {:induction false} FlattenDropEmpty(ss: seq<string>)
    ensures Flatten(DropEmpty(ss)) == Flatten(ss)
  {
    if ss != [] {
      var init := ss[..|ss| - 1];
      FlattenDropEmpty(init);
      if ss[|ss| - 1] != [] {
        FlattenAppend(DropEmpty(init), [ss[|ss| - 1]]);
        FlattenSingle(ss[|ss| - 1]);
      }
    }
  }

  lemma NonSpaceFlattenAppend(a: seq<string>, b: seq<string>)
    ensures NonSpace(Flatten(a + b)) == NonSpace(Flatten(a)) + NonSpace(Flatten(b))
  {
    FlattenAppend(a, b);
    NonSpaceAppend(Flatten(a), Flatten(b));
  }

  /** Appending one string to a list adds its text at the end. */
  lemma NonSpaceFlattenSnoc(a: seq<string>, s: string)
    ensures NonSpace(Flatten(a + [s])) == NonSpace(Flatten(a)) + NonSpace(s)
  {
    NonSpaceFlattenAppend(a, [s]);
    FlattenSingle(s);
  }

  /** [s.strip() for s in ss if s.strip()]. */
  function StrippedNonEmpty(ss: seq<string>): (r: seq<string>)
    ensures forall k :: 0 <= k < |r| ==> r[k] != [] && IsTrimmed(r[k])
    ensures |r| <= |ss|
  {
    if ss == [] then []
    else
      var init := StrippedNonEmpty(ss[..|ss| - 1]);
      var last := Strip(ss[|ss| - 1]);
      StripFacts(ss[|ss| - 1]);
      if last == [] then init else init + [last]
  }

  lemma StrippedNonEmptySnoc(ss: seq<string>, s: string)
    ensures StrippedNonEmpty(ss + [s]) == StrippedNonEmpty(ss) + (if Strip(s) == [] then [] else [Strip(s)])
  {
    assert (ss + [s])[..|ss|] == ss;
  }

  /** Stripping the pieces and dropping the blank ones loses no text. */
  lemma {:induction false} StrippedNonEmptyKeepsText(ss: seq<string>)
    ensures NonSpace(Flatten(StrippedNonEmpty(ss))) == NonSpace(Flatten(ss))
  {
    if ss != [] {
      var init, last := ss[..|ss| - 1], ss[|ss| - 1];
      StrippedNonEmptyKeepsText(init);
      StripFacts(last);
      assert ss == init + [last];
      NonSpaceFlattenSnoc(init, last);
      if Strip(last) != [] {
        NonSpaceFlattenSnoc(StrippedNonEmpty(init), Strip(last));
      }
    }
  }

  /** Each piece of StrippedNonEmpty(ss) is no longer than the longest piece of ss. */
  lemma {:induction false} StrippedNonEmptyBound(ss: seq<string>, n: int)
    requires forall k :: 0 <= k < |ss| ==> |ss[k]| <= n
    ensures forall k :: 0 <= k < |StrippedNonEmpty(ss)| ==> |StrippedNonEmpty(ss)[k]| <= n
  {
    if ss != [] {
      StrippedNonEmptyBound(ss[..|ss| - 1], n);
      StripFacts(ss[|ss| - 1]);
    }
  }

  // ---------------------------------------------------------------- sep.join(ws)

  /** sep.join(ws). */
  function Join(sep: string, ws: seq<string>): string {
    if ws == [] then []
    else if |ws| == 1 then ws[0]
    else Join(sep, ws[..|ws| - 1]) + sep + ws[|ws| - 1]
  }

  /** Sum of the lengths of the pieces. */
  function TotalLength(ws: seq<string>): nat {
    if ws == [] then 0 else TotalLength(ws[..|ws| - 1]) + |ws[|ws| - 1]|
  }

  lemma {:induction false} JoinLength(sep: string, ws: seq<string>)
    requires ws != []
    ensures |Join(sep, ws)| == TotalLength(ws) + (|ws| - 1) * |sep|
  {
    if |ws| > 1 {
      JoinLength(sep, ws[..|ws| - 1]);
    } else {
      assert ws[..0] == [];
    }
  }

  lemma {:induction false} JoinCons(sep: string, w: string, ws: seq<string>)
    requires ws != []
    ensures Join(sep, [w] + ws) == w + sep + Join(sep, ws)
  {
    var v := [w] + ws;
    if |ws| == 1 {
      assert v[..1] == [w];
    } else {
      assert v[..|v| - 1] == [w] + ws[..|ws| - 1];
      JoinCons(sep, w, ws[..|ws| - 1]);
    }
  }

  /** A single space between words removes no text: joining words and then
      deleting whitespace gives the words one after the other. */
  lemma {:induction false} NonSpaceJoinWords(ws: seq<string>)
    requires forall k :: 0 <= k < |ws| ==> NoSpace(ws[k])
    ensures NonSpace(Join(" ", ws)) == Flatten(ws)
  {
    if |ws| == 1 {
      NonSpaceOfWord(ws[0]);
      assert ws[..0] == [];
    } else if |ws| > 1 {
      var init, last := ws[..|ws| - 1], ws[|ws| - 1];
      NonSpaceJoinWords(init);
      NonSpaceAppend(Join(" ", init) + " ", last);
      NonSpaceAppend(Join(" ", init), " ");
      NonSpaceOfWord(last);
    }
  }

  /** Words joined by single spaces form a trimmed string. */
  lemma {:induction false} JoinWordsTrimmed(ws: seq<string>)
    requires forall k :: 0 <= k < |ws| ==> ws[k] != [] && NoSpace(ws[k])
    ensures IsTrimmed(Join(" ", ws))
    ensures ws != [] ==> Join(" ", ws) != []
  {
    if |ws| > 1 {
      JoinWordsTrimmed(ws[..|ws| - 1]);
    }
  }

  // ---------------------------------------------------------------- str.split()

  /** Length of the leading run of non-whitespace characters. */
  function WordLength(s: string): (n: nat)
    ensures n <= |s|
    ensures forall i :: 0 <= i < n ==> !IsSpace(s[i])
    ensures n < |s| ==> IsSpace(s[n])
  {
    if s != [] && !IsSpace(s[0]) then 1 + WordLength(s[1..]) else 0
  }

  /** Python's str.split() with no argument: the maximal runs of non-whitespace. */
  function Words(s: string): (ws: seq<string>)
    ensures forall k :: 0 <= k < |ws| ==> ws[k] != [] && NoSpace(ws[k])
    decreases |s|
  {
    if s == [] then []
    else if IsSpace(s[0]) then Words(s[1..])
    else
      var n := WordLength(s);
      [s[..n]] + Words(s[n..])
  }

  /** str.split() keeps every non-whitespace character, in order. */
  lemma {:induction false} FlattenWords(s: string)
    ensures Flatten(Words(s)) == NonSpace(s)
    decreases |s|
  {
    if s == [] {
    } else if IsSpace(s[0]) {
      FlattenWords(s[1..]);
    } else {
      var n := WordLength(s);
      FlattenWords(s[n..]);
      FlattenCons(s[..n], Words(s[n..]));
      assert s == s[..n] + s[n..];
      NonSpaceAppend(s[..n], s[n..]);
      NonSpaceOfWord(s[..n]);
    }
  }

  lemma WordsEmpty(s: string)
    ensures Words(s) == [] <==> IsBlank(s)
  {
    FlattenWords(s);
    NonSpaceBlank(s);
    if Words(s) != [] {
      FlattenCons(Words(s)[0], Words(s)[1..]);
      assert Words(s) == [Words(s)[0]] + Words(s)[1..];
    }
  }

  // ---------------------------------------------------------------- str.find and str.split(sep)

  /** `sub` occurs in `s` starting at index `i`. */
  predicate Occurs(s: string, sub: string, i: int) {
    0 <= i && i + |sub| <= |s| && s[i..i + |sub|] == sub
  }

  /** Python's s.find(sub, start), with None for -1. */
  function Find(s: string, sub: string, start: nat): (r: Option<nat>)
    ensures r.Some? ==> start <= r.value && Occurs(s, sub, r.value)
    ensures r.Some? ==> forall k :: start <= k < r.value ==> !Occurs(s, sub, k)
    ensures r.None? ==> forall k :: start <= k ==> !Occurs(s, sub, k)
    decreases |s| - start
  {
    if start + |sub| > |s| then None
    else if Occurs(s, sub, start) then Some(start)
    else Find(s, sub, start + 1)
  }

  /** Python's s.split(sep) for a non-empty separator. */
  function SplitOn(s: string, sep: string): (parts: seq<string>)
    requires sep != []
    ensures |parts| >= 1
    decreases |s|
  {
    match Find(s, sep, 0)
    case None => [s]
    case Some(i) => [s[..i]] + SplitOn(s[i + |sep|..], sep)
  }

  /** Splitting at a separator and joining with it again gives back the string. */
  lemma {:induction false} JoinSplitOn(s: string, sep: string)
    requires sep != []
    ensures Join(sep, SplitOn(s, sep)) == s
    decreases |s|
  {
    match Find(s, sep, 0)
    case None =>
    case Some(i) =>
      var rest := s[i + |sep|..];
      var parts := SplitOn(rest, sep);
      JoinSplitOn(rest, sep);
      JoinCons(sep, s[..i], parts);
      SplitAround(s, i, i + |sep|);
  }

  /** A string is the concatenation of its three slices at i and j. */
  lemma SplitAround(s: string, i: nat, j: nat)
    requires i <= j <= |s|
    ensures s == s[..i] + s[i..j] + s[j..]
  {
  }

  /** `sub` occurs nowhere in `s`. */
  predicate Free(s: string, sub: string) {
    forall i :: 0 <= i <= |s| ==> !Occurs(s, sub, i)
  }

  /** No piece of s.split(sep) holds the separator. */
  lemma {:induction false} SplitOnPartsFree(s: string, sep: string)
    requires sep != []
    ensures forall k :: 0 <= k < |SplitOn(s, sep)| ==> Free(SplitOn(s, sep)[k], sep)
    decreases |s|
  {
    match Find(s, sep, 0)
    case None =>
    case Some(i) =>
      var rest := s[i + |sep|..];
      SplitOnPartsFree(rest, sep);
      forall j | Occurs(s[..i], sep, j) ensures false {
        assert s[..i][j..j + |sep|] == s[j..j + |sep|];
        assert Occurs(s, sep, j);
      }
      assert SplitOn(s, sep) == [s[..i]] + SplitOn(rest, sep);
  }

  // ---------------------------------------------------------------- subsequences

  /** a can be obtained from b by deleting elements: what a splitter that
      drops delimiters keeps of its input, in order. */
  ghost predicate Subseq<T>(a: seq<T>, b: seq<T>)
    decreases |b|
  {
    a == [] || (b != [] && ((a[0] == b[0] && Subseq(a[1..], b[1..])) || Subseq(a, b[1..])))
  }

  lemma {:induction false} SubseqRefl<T>(a: seq<T>)
    ensures Subseq(a, a)
  {
    if a != [] {
      SubseqRefl(a[1..]);
    }
  }

  lemma {:induction false} SubseqPrepend<T>(a: seq<T>, b: seq<T>, c: seq<T>)
    requires Subseq(a, b)
    ensures Subseq(a, c + b)
    decreases |c|
  {
    if c != [] {
      SubseqPrepend(a, b, c[1..]);
      assert (c + b)[1..] == c[1..] + b;
    } else {
      assert c + b == b;
    }
  }

  /** Subsequences of two parts make a subsequence of the two parts together. */
  lemma {:induction false} SubseqConcat<T>(a1: seq<T>, b1: seq<T>, a2: seq<T>, b2: seq<T>)
    requires Subseq(a1, b1) && Subseq(a2, b2)
    ensures Subseq(a1 + a2, b1 + b2)
    decreases |b1|
  {
    if a1 == [] {
      SubseqPrepend(a2, b2, b1);
      assert a1 + a2 == a2;
    } else {
      assert (b1 + b2)[1..] == b1[1..] + b2;
      if a1[0] == b1[0] && Subseq(a1[1..], b1[1..]) {
        SubseqConcat(a1[1..], b1[1..], a2, b2);
        assert (a1 + a2)[1..] == a1[1..] + a2;
      } else {
        SubseqConcat(a1, b1[1..], a2, b2);
      }
    }
  }

  lemma {:induction false} SubseqTrans<T>(a: seq<T>, b: seq<T>, c: seq<T>)
    requires Subseq(a, b) && Subseq(b, c)
    ensures Subseq(a, c)
    decreases |c|
  {
    if a != [] {
      if b[0] == c[0] && Subseq(b[1..], c[1..]) {
        if a[0] == b[0] && Subseq(a[1..], b[1..]) {
          SubseqTrans(a[1..], b[1..], c[1..]);
        } else {
          SubseqTrans(a, b[1..], c[1..]);
        }
      } else {
        SubseqTrans(a, b, c[1..]);
      }
    }
  }

  /** Deleting characters and then whitespace deletes characters. */
  lemma {:induction false} NonSpaceSubseq(a: string, b: string)
    requires Subseq(a, b)
    ensures Subseq(NonSpace(a), NonSpace(b))
    decreases |b|
  {
    if a == [] {
    } else {
      var hb := if IsSpace(b[0]) then [] else [b[0]];
      if a[0] == b[0] && Subseq(a[1..], b[1..]) {
        NonSpaceSubseq(a[1..], b[1..]);
        SubseqRefl(hb);
        SubseqConcat(hb, hb, NonSpace(a[1..]), NonSpace(b[1..]));
      } else {
        NonSpaceSubseq(a, b[1..]);
        SubseqPrepend(NonSpace(a), NonSpace(b[1..]), hb);
      }
    }
  }

  /** The blank filter loses no non-whitespace character. */
  lemma {:induction false} KeepNonBlankKeepsText(ss: seq<string>)
    ensures NonSpace(Flatten(KeepNonBlank(ss))) == NonSpace(Flatten(ss))
  {
    if ss != [] {
      var init := ss[..|ss| - 1];
      var last := ss[|ss| - 1];
      KeepNonBlankKeepsText(init);
      assert ss == init + [last];
      NonSpaceFlattenSnoc(init, last);
      if IsBlank(last) {
        NonSpaceBlank(last);
      } else {
        NonSpaceFlattenSnoc(KeepNonBlank(init), last);
      }
    }
  }

  // ---------------------------------------------------------------- str.lower()

  function LowerChar(c: char): char {
    if 'A' <= c <= 'Z' then (c as int + 32) as char else c
  }

  /** Whether s holds one of the letters A-Z. */
  predicate HasUpper(s: string) {
    exists i :: 0 <= i < |s| && 'A' <= s[i] <= 'Z'
  }

  /** str.lower() on the letters A-Z; other characters are kept. The result
      has no upper-case letter left, so lower-casing twice changes nothing
      more, and a string without one is returned unchanged. */
  function Lower(s: string): (r: string)
    ensures |r| == |s|
    ensures forall i :: 0 <= i < |s| ==> r[i] == LowerChar(s[i])
    ensures !HasUpper(r)
    ensures !HasUpper(s) ==> r == s
  {
    seq(|s|, i requires 0 <= i < |s| => LowerChar(s[i]))
  }

  datatype Option<+T> = None | Some(value: T)
}
