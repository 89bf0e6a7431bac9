/**
 * The two regular-expression splits the translator uses, written out as the
 * scan Python's `re.split` performs:
 *   - `re.split(r'(?<=[.!?])\s+', s)` cuts at every whitespace run that
 *     directly follows `.`, `!` or `?` (sentence boundaries);
 *   - `re.split(r'\n\s*\n', s)` cuts at every whitespace run holding two or
 *     more newlines, from the run's first newline to its last one
 *     (blank-line paragraph boundaries).
 */
module Splitting {
  import opened Strings

  predicate IsSentenceEnd(c: char) {
    c == '.' || c == '!' || c == '?'
  }

  /** The sentence pattern can start a match at index `j` of `s`. */
  predicate SentenceBreakAt(s: string, j: int) {
    1 <= j < |s| && IsSentenceEnd(s[j - 1]) && IsSpace(s[j])
  }

  /** The first index at or after `i` where the sentence pattern matches, or `|s|`. */
  function NextSentenceBreak(s: string, i: nat): (j: nat)
    requires i <= |s|
    ensures i <= j <= |s|
    ensures j < |s| ==> SentenceBreakAt(s, j)
    ensures forall k :: i <= k < j ==> !SentenceBreakAt(s, k)
    decreases |s| - i
  {
    if i == |s| || SentenceBreakAt(s, i) then i else NextSentenceBreak(s, i + 1)
  }

  /**
   * `re.split(r'(?<=[.!?])\s+', s)`. After a match the scan resumes at the
   * first non-whitespace character, where the look-behind cannot hold, so
   * the rest is split afresh.
   */
  function SplitSentences(s: string): (r: seq<string>)
    ensures |r| >= 1
    decreases |s|
  {
    var k := NextSentenceBreak(s, 0);
    if k == |s| then [s]
    else
      var e := SkipSpaces(s, k);
      [s[..k]] + SplitSentences(s[e..])
  }

  /** Sentence splitting only removes whitespace: the words are those of the text. */
  lemma {:induction false} WordsOfSentences(s: string)
    ensures FlatWords(SplitSentences(s)) == Words(s)
    decreases |s|
  {
    var k := NextSentenceBreak(s, 0);
    if k == |s| {
      FlatWordsSingle(s);
    } else {
      var e := SkipSpaces(s, k);
      assert s == s[..k] + s[k..e] + s[e..];
      WordsSplitAtBlank(s[..k], s[k..e], s[e..]);
      WordsOfSentences(s[e..]);
    }
  }

  /** The pattern matches nowhere inside any sentence: every boundary is cut. */
  lemma {:induction false} SentencesHaveNoBreak(s: string)
    ensures forall p, k :: p in SplitSentences(s) ==> !SentenceBreakAt(p, k)
    decreases |s|
  {
    var k := NextSentenceBreak(s, 0);
    if k < |s| {
      var e := SkipSpaces(s, k);
      SentencesHaveNoBreak(s[e..]);
      forall k' | 1 <= k' < k ensures SentenceBreakAt(s[..k], k') == SentenceBreakAt(s, k') {
        assert s[..k][k' - 1] == s[k' - 1] && s[..k][k'] == s[k'];
      }
      assert SplitSentences(s) == [s[..k]] + SplitSentences(s[e..]);
    }
  }

  /** The largest index `m` in `[lo, hi)` with `s[m] == '\n'`, or -1. */
  function LastNewline(s: string, lo: nat, hi: nat): (m: int)
    requires lo <= hi <= |s|
    ensures m == -1 || (lo <= m < hi && s[m] == '\n')
    ensures forall k :: (if m == -1 then lo else m + 1) <= k < hi ==> s[k] != '\n'
    decreases hi - lo
  {
    if hi == lo then -1
    else if s[hi - 1] == '\n' then hi - 1
    else LastNewline(s, lo, hi - 1)
  }

  /** `\n\s*\n` can match `s[j..m + 1]`: two newlines with only whitespace between them. */
  predicate ParagraphMatch(s: string, j: int, m: int) {
    0 <= j < m < |s| && s[j] == '\n' && s[m] == '\n' && forall k :: j < k < m ==> IsSpace(s[k])
  }

  /**
   * Where `\n\s*\n` matches at index `j`, the index of the newline that ends
   * the match (greedy `\s*` backs off to the last newline of the whitespace
   * run, so no longer match exists); -1 where it does not match at `j`.
   */
  function ParagraphBreakEnd(s: string, j: nat): (m: int)
    requires j < |s|
    ensures m == -1 || ParagraphMatch(s, j, m)
    ensures forall m' :: (if m == -1 then j else m) < m' < |s| ==> !ParagraphMatch(s, j, m')
  {
    if s[j] != '\n' then -1
    else
      var r := SkipSpaces(s, j + 1);
      var m := LastNewline(s, j + 1, r);
      assert forall k :: j < k < r ==> IsSpace(s[k]) by {
        forall k | j < k < r ensures IsSpace(s[k]) { assert s[k] == s[j + 1..r][k - j - 1]; }
      }
      assert IsSpace('\n') by { assert '\n' as int == 0x0A; }
      m
  }

  /** A paragraph separator is whitespace only. */
  lemma ParagraphBreakIsBlank(s: string, j: nat)
    requires j < |s| && ParagraphBreakEnd(s, j) != -1
    ensures IsBlank(s[j..ParagraphBreakEnd(s, j) + 1])
  {
    var m := ParagraphBreakEnd(s, j);
    var r := SkipSpaces(s, j + 1);
    forall k | j <= k <= m ensures IsSpace(s[k]) {
      if k > j { assert s[k] == s[j + 1..r][k - j - 1]; }
    }
  }

  /** The first index at or after `i` where the paragraph pattern matches, or `|s|`. */
  function NextParagraphBreak(s: string, i: nat): (j: nat)
    requires i <= |s|
    ensures i <= j <= |s|
    ensures j < |s| ==> ParagraphBreakEnd(s, j) != -1
    ensures forall k :: i <= k < j ==> ParagraphBreakEnd(s, k) == -1
    decreases |s| - i
  {
    if i == |s| || ParagraphBreakEnd(s, i) != -1 then i else NextParagraphBreak(s, i + 1)
  }

  /** `re.split(r'\n\s*\n', s)`. */
  function SplitParagraphsRaw(s: string): (r: seq<string>)
    ensures |r| >= 1
    decreases |s|
  {
    var j := NextParagraphBreak(s, 0);
    if j == |s| then [s]
    else
      var m := ParagraphBreakEnd(s, j);
      [s[..j]] + SplitParagraphsRaw(s[m + 1..])
  }

  /** Before the first separator the text holds no separator. */
  lemma PrefixNoParagraphBreak(s: string, j: nat)
    requires j <= |s| && forall k :: 0 <= k < j ==> ParagraphBreakEnd(s, k) == -1
    ensures forall a, b :: !ParagraphMatch(s[..j], a, b)
  {
    forall a, b | ParagraphMatch(s[..j], a, b) ensures ParagraphMatch(s, a, b) {
      forall k | a < k < b ensures IsSpace(s[k]) { assert s[k] == s[..j][k]; }
    }
    forall a, b | 0 <= a < j ensures !ParagraphMatch(s, a, b) {
      assert ParagraphBreakEnd(s, a) == -1;
    }
  }

  /** No piece of the split holds a blank-line separator: every one is cut. */
  lemma {:induction false} RawParagraphsHaveNoBreak(s: string)
    ensures forall p, a, b :: p in SplitParagraphsRaw(s) ==> !ParagraphMatch(p, a, b)
    decreases |s|
  {
    var j := NextParagraphBreak(s, 0);
    PrefixNoParagraphBreak(s, j);
    if j < |s| {
      var m := ParagraphBreakEnd(s, j);
      RawParagraphsHaveNoBreak(s[m + 1..]);
      assert SplitParagraphsRaw(s) == [s[..j]] + SplitParagraphsRaw(s[m + 1..]);
    } else {
      assert s[..j] == s;
    }
  }

  /** `[p.strip() for p in ps if p.strip()]`. */
  function StripNonBlank(ps: seq<string>): seq<string>
  {
    if ps == [] then []
    else (if Strip(ps[0]) == [] then [] else [Strip(ps[0])]) + StripNonBlank(ps[1..])
  }

  /** The paragraphs `translate_text` works on: split at blank lines, stripped, empty ones dropped. */
  function Paragraphs(s: string): seq<string>
  {
    StripNonBlank(SplitParagraphsRaw(s))
  }

  /** A paragraph is non-empty and has no whitespace at either end. */
  predicate IsStripped(p: string) {
    p != [] && !IsSpace(p[0]) && !IsSpace(p[|p| - 1])
  }

  /** Every element of `ps` is stripped and non-empty. */
  predicate AllStripped(ps: seq<string>) {
    ps == [] || (IsStripped(ps[0]) && AllStripped(ps[1..]))
  }

  lemma {:induction false} AllStrippedAt(ps: seq<string>, k: nat)
    requires AllStripped(ps) && k < |ps|
    ensures IsStripped(ps[k])
  {
    if k > 0 { AllStrippedAt(ps[1..], k - 1); }
  }

  /** A non-empty `strip()` result is stripped. */
  lemma StripIsStripped(s: string)
    ensures Strip(s) != [] ==> IsStripped(Strip(s))
  {
    var i, j := StripSpec(s);
    if Strip(s) != [] {
      assert Strip(s)[0] == s[i] && Strip(s)[|Strip(s)| - 1] == s[j - 1];
    }
  }

  lemma {:induction false} StripNonBlankStripped(ps: seq<string>)
    ensures AllStripped(StripNonBlank(ps))
  {
    if ps != [] {
      StripNonBlankStripped(ps[1..]);
      var rest := StripNonBlank(ps[1..]);
      var p := Strip(ps[0]);
      StripIsStripped(ps[0]);
      if p != [] {
        assert StripNonBlank(ps) == [p] + rest;
        assert ([p] + rest)[0] == p && ([p] + rest)[1..] == rest;
      } else {
        assert StripNonBlank(ps) == rest;
      }
    }
  }

  lemma {:induction false} WordsOfStripNonBlank(ps: seq<string>)
    ensures FlatWords(StripNonBlank(ps)) == FlatWords(ps)
  {
    if ps != [] {
      var head := if Strip(ps[0]) == [] then [] else [Strip(ps[0])];
      WordsOfStrip(ps[0]);
      var i, j := StripSpec(ps[0]);
      WordsAreWords(ps[0]);
      assert FlatWords(head) == Words(ps[0]) by {
        if Strip(ps[0]) != [] { FlatWordsSingle(Strip(ps[0])); }
      }
      WordsOfStripNonBlank(ps[1..]);
      FlatWordsAppend(head, StripNonBlank(ps[1..]));
    }
  }

  lemma {:induction false} WordsOfRawParagraphs(s: string)
    ensures FlatWords(SplitParagraphsRaw(s)) == Words(s)
    decreases |s|
  {
    var j := NextParagraphBreak(s, 0);
    if j == |s| {
      FlatWordsSingle(s);
    } else {
      var m := ParagraphBreakEnd(s, j);
      ParagraphBreakIsBlank(s, j);
      assert s == s[..j] + s[j..m + 1] + s[m + 1..];
      WordsSplitAtBlank(s[..j], s[j..m + 1], s[m + 1..]);
      WordsOfRawParagraphs(s[m + 1..]);
    }
  }

  /**
   * Every paragraph is stripped and non-empty, and together the paragraphs
   * hold exactly the words of the text, in order: splitting at blank lines
   * loses nothing but whitespace.
   */
  lemma ParagraphsKeepWords(s: string)
    ensures AllStripped(Paragraphs(s))
    ensures FlatWords(Paragraphs(s)) == Words(s)
  {
    StripNonBlankStripped(SplitParagraphsRaw(s));
    WordsOfStripNonBlank(SplitParagraphsRaw(s));
    WordsOfRawParagraphs(s);
  }

  /** A text that is not blank has at least one paragraph. */
  lemma NonBlankHasParagraph(s: string)
    requires !IsBlank(s)
    ensures Paragraphs(s) != []
  {
    ParagraphsKeepWords(s);
    WordsAreWords(s);
  }

  lemma {:induction false} RawParagraphsWithin(s: string)
    ensures forall p :: p in SplitParagraphsRaw(s) ==> |p| <= |s|
    decreases |s|
  {
    var j := NextParagraphBreak(s, 0);
    if j < |s| {
      var t := s[ParagraphBreakEnd(s, j) + 1..];
      RawParagraphsWithin(t);
      assert SplitParagraphsRaw(s) == [s[..j]] + SplitParagraphsRaw(t);
      assert |t| <= |s| && |s[..j]| <= |s|;
    } else {
      assert SplitParagraphsRaw(s) == [s];
    }
  }

  lemma {:induction false} StripNonBlankWithin(ps: seq<string>, bound: nat)
    requires forall p :: p in ps ==> |p| <= bound
    ensures forall p :: p in StripNonBlank(ps) ==> |p| <= bound
  {
    if ps != [] {
      var i, j := StripSpec(ps[0]);
      StripNonBlankWithin(ps[1..], bound);
    }
  }

  /** No paragraph is longer than the text it comes from. */
  lemma ParagraphsWithin(s: string)
    ensures forall p :: p in Paragraphs(s) ==> |p| <= |s|
  {
    RawParagraphsWithin(s);
    StripNonBlankWithin(SplitParagraphsRaw(s), |s|);
  }
}
