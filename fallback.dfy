/**
 * The dictionary fallback of `_fallback_dictionary_translation`: for each
 * entry of the target language's table, in order, every whole-word,
 * case-insensitive occurrence of the English word is replaced by its
 * translation (`re.sub(r'\b' + re.escape(eng) + r'\b', trans, text,
 * flags=re.IGNORECASE)`).
 */
module Fallback {
  import opened Options
  import opened Strings

  /** The Spanish table, in insertion order. */
  const SpanishEntries: seq<(string, string)> :=
    [("Hello", "Hola"), ("Document", "Documento"), ("Translation", "Traducción"),
     ("File", "Archivo"), ("Text", "Texto"), ("Language", "Idioma")]

  /** `self.translation_dictionaries`: only Spanish has a table. */
  function Dictionary(lang: string): Option<seq<(string, string)>>
  {
    if lang == "es" then Some(SpanishEntries) else None
  }

  /**
   * An approximation of the regular-expression class `\w`: ASCII letters,
   * digits and `_`, the Latin-1 letters, and any other character above
   * U+00FF that is neither whitespace nor in the general punctuation block
   * (U+2000 to U+206F) or the CJK symbols and punctuation block (U+3000 to
   * U+303F). Other punctuation and symbols above U+00FF count as word
   * characters here, and the Latin-1 superscript digits and fractions do not.
   */
  predicate IsWordChar(c: char) {
    var n := c as int;
    ('a' <= c <= 'z') || ('A' <= c <= 'Z') || ('0' <= c <= '9') || c == '_' ||
    n == 0xAA || n == 0xB5 || n == 0xBA || (0xC0 <= n <= 0xFF && n != 0xD7 && n != 0xF7) ||
    (n > 0xFF && !IsSpace(c) && !(0x2000 <= n <= 0x206F) && !(0x3000 <= n <= 0x303F))
  }

  /** Case folding for `re.IGNORECASE` on the ASCII and Latin-1 capitals. */
  function Fold(c: char): char {
    var n := c as int;
    if ('A' <= c <= 'Z') || (0xC0 <= n <= 0xDE && n != 0xD7) then (n + 32) as char else c
  }

  /** `\b` at index `i` of `t`: a word character on exactly one side. */
  predicate Boundary(t: string, i: nat)
    requires i <= |t|
  {
    (i > 0 && IsWordChar(t[i - 1])) != (i < |t| && IsWordChar(t[i]))
  }

  /** The pattern `\bw\b` matches `t` at index `p`, ignoring case. */
  predicate MatchesAt(t: string, w: string, p: nat) {
    && p + |w| <= |t|
    && Boundary(t, p)
    && (forall k :: 0 <= k < |w| ==> Fold(t[p + k]) == Fold(w[k]))
    && Boundary(t, p + |w|)
  }

  /** `re.sub` from index `i`: try the pattern at each index, and after a match resume past it. */
  function ReplaceFrom(t: string, w: string, r: string, i: nat): string
    requires w != [] && i <= |t|
    decreases |t| - i
  {
    if i + |w| > |t| then t[i..]
    else if MatchesAt(t, w, i) then r + ReplaceFrom(t, w, r, i + |w|)
    else [t[i]] + ReplaceFrom(t, w, r, i + 1)
  }

  /** Every whole-word, case-insensitive occurrence of `w` in `t` replaced by `r`. */
  function Replace(t: string, w: string, r: string): string
    requires w != []
  {
    ReplaceFrom(t, w, r, 0)
  }

  /** How many occurrences the scan from `i` replaces. */
  function MatchCount(t: string, w: string, i: nat): nat
    requires w != [] && i <= |t|
    decreases |t| - i
  {
    if i + |w| > |t| then 0
    else if MatchesAt(t, w, i) then 1 + MatchCount(t, w, i + |w|)
    else MatchCount(t, w, i + 1)
  }

  predicate ValidEntries(es: seq<(string, string)>) {
    forall k :: 0 <= k < |es| ==> es[k].0 != []
  }

  /** The entries applied one after the other, each to the result of the previous ones. */
  function ApplyEntries(t: string, es: seq<(string, string)>): string
    requires ValidEntries(es)
  {
    if es == [] then t
    else
      var last := es[|es| - 1];
      Replace(ApplyEntries(t, es[..|es| - 1]), last.0, last.1)
  }

  /** What the fallback returns: the text itself when the language has no table. */
  function FallbackOf(text: string, lang: string): string
  {
    match Dictionary(lang)
    case None => text
    case Some(es) => ApplyEntries(text, es)
  }

  // ---------------------------------------------------------------------

  /** `n` copies of `d` added up. */
  function Times(n: nat, d: int): int
  {
    if n == 0 then 0 else d + Times(n - 1, d)
  }

  lemma {:induction false} TimesZero(n: nat, d: int)
    ensures Times(n, d) == 0 <==> n == 0 || d == 0
  {
    if n > 0 {
      TimesZero(n - 1, d);
      TimesSign(n - 1, d);
    }
  }

  lemma {:induction false} TimesSign(n: nat, d: int)
    ensures d >= 0 ==> Times(n, d) >= 0
    ensures d <= 0 ==> Times(n, d) <= 0
  {
    if n > 0 {
      TimesSign(n - 1, d);
    }
  }

  /** Each replaced occurrence changes the length by `|r| - |w|`. */
  lemma {:induction false} ReplaceLength(t: string, w: string, r: string, i: nat)
    requires w != [] && i <= |t|
    ensures |ReplaceFrom(t, w, r, i)| == |t| - i + Times(MatchCount(t, w, i), |r| - |w|)
    decreases |t| - i
  {
    if i + |w| <= |t| {
      if MatchesAt(t, w, i) {
        ReplaceLength(t, w, r, i + |w|);
        assert ReplaceFrom(t, w, r, i) == r + ReplaceFrom(t, w, r, i + |w|);
        assert MatchCount(t, w, i) == 1 + MatchCount(t, w, i + |w|);
      } else {
        ReplaceLength(t, w, r, i + 1);
        assert ReplaceFrom(t, w, r, i) == [t[i]] + ReplaceFrom(t, w, r, i + 1);
        assert MatchCount(t, w, i) == MatchCount(t, w, i + 1);
      }
    }
  }

  /** The scan replaces something exactly when the pattern matches somewhere past `i`. */
  lemma {:induction false} MatchCountPositive(t: string, w: string, i: nat)
    requires w != [] && i <= |t|
    ensures MatchCount(t, w, i) > 0 <==> exists p :: i <= p && MatchesAt(t, w, p)
    decreases |t| - i
  {
    if i + |w| <= |t| {
      if MatchesAt(t, w, i) {
        MatchCountPositive(t, w, i + |w|);
      } else {
        MatchCountPositive(t, w, i + 1);
        if p :| i <= p && MatchesAt(t, w, p) {
          assert p != i;
        }
      }
    }
  }

  /** Scanning text with no occurrence gives the text back. */
  lemma {:induction false} ReplaceNoMatch(t: string, w: string, r: string, i: nat)
    requires w != [] && i <= |t| && MatchCount(t, w, i) == 0
    ensures ReplaceFrom(t, w, r, i) == t[i..]
    decreases |t| - i
  {
    if i + |w| <= |t| {
      ReplaceNoMatch(t, w, r, i + 1);
      assert t[i..] == [t[i]] + t[i + 1..];
    }
  }

  /**
   * When the replacement's length differs from the word's, the replacement
   * leaves the text unchanged exactly when the word does not occur in it.
   */
  lemma ReplaceUnchangedIffNoMatch(t: string, w: string, r: string)
    requires w != [] && |r| != |w|
    ensures Replace(t, w, r) == t <==> !exists p :: MatchesAt(t, w, p)
  {
    ReplaceLength(t, w, r, 0);
    TimesZero(MatchCount(t, w, 0), |r| - |w|);
    MatchCountPositive(t, w, 0);
    if MatchCount(t, w, 0) == 0 {
      ReplaceNoMatch(t, w, r, 0);
    }
  }

  /** The Spanish table has non-empty words, each with a translation of a different length. */
  lemma SpanishEntriesValid()
    ensures ValidEntries(SpanishEntries)
    ensures forall k :: 0 <= k < |SpanishEntries| ==>
      SpanishEntries[k].1 != [] && |SpanishEntries[k].0| != |SpanishEntries[k].1|
  {
  }

  /** The fallback never turns a non-empty text into an empty one. */
  lemma {:induction false} ApplyEntriesNonEmpty(t: string, es: seq<(string, string)>)
    requires ValidEntries(es) && t != []
    requires forall k :: 0 <= k < |es| ==> es[k].1 != []
    ensures ApplyEntries(t, es) != []
  {
    if es != [] {
      var init := es[..|es| - 1];
      assert ValidEntries(init) by {
        forall k | 0 <= k < |init| ensures init[k].0 != [] { assert init[k] == es[k]; }
      }
      ApplyEntriesNonEmpty(t, init);
      assert |es[|es| - 1].1| > 0;
    }
  }

  /** Without a table for the language, the fallback is the identity; otherwise it keeps text non-empty. */
  lemma FallbackFacts(text: string, lang: string)
    ensures Dictionary(lang).None? ==> FallbackOf(text, lang) == text
    ensures text != [] ==> FallbackOf(text, lang) != []
  {
    if lang == "es" && text != [] {
      SpanishEntriesValid();
      ApplyEntriesNonEmpty(text, SpanishEntries);
    }
  }

  /** The loop over the table's entries. */
  method FallbackTranslation(text: string, lang: string) returns (r: string)
    ensures r == FallbackOf(text, lang)
  {
    var d := Dictionary(lang);
    if d.None? {
      return text;
    }
    var es := d.value;
    SpanishEntriesValid();
    r := text;
    for k := 0 to |es|
      invariant ValidEntries(es[..k])
      invariant r == ApplyEntries(text, es[..k])
    {
      assert es[..k + 1][..k] == es[..k];
      var (eng, trans) := es[k];
      r := Replace(r, eng, trans);
    }
    assert es[..|es|] == es;
  }
}
