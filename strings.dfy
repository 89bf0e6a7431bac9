/**
 * Character classes and the string operations of Python's `str` that the
 * translator relies on: `isspace`, `strip`, `split()` (no separator),
 * `isdigit` and `sep.join(...)`.
 */
module Strings {

  /** The code points for which Python's `str.isspace()` holds. */
  const SpaceCodePoints: set<int> :=
    {0x09, 0x0A, 0x0B, 0x0C, 0x0D, 0x1C, 0x1D, 0x1E, 0x1F, 0x20, 0x85, 0xA0, 0x1680,
     0x2000, 0x2001, 0x2002, 0x2003, 0x2004, 0x2005, 0x2006, 0x2007, 0x2008, 0x2009, 0x200A,
     0x2028, 0x2029, 0x202F, 0x205F, 0x3000}

  /** Python's `str.isspace()` for one character. */
  predicate IsSpace(c: char) {
    c as int in SpaceCodePoints
  }

  /** `not s.strip()`: the string is empty or holds only whitespace. */
  predicate IsBlank(s: string) {
    forall i :: 0 <= i < |s| ==> IsSpace(s[i])
  }

  /** A non-empty run of non-whitespace characters: what `str.split()` yields. */
  predicate IsWord(s: string) {
    s != [] && forall i :: 0 <= i < |s| ==> !IsSpace(s[i])
  }

  /** `str.isdigit()` restricted to the ASCII digits. */
  predicate IsDigits(s: string) {
    s != [] && forall i :: 0 <= i < |s| ==> '0' <= s[i] <= '9'
  }

  /** `s.lstrip()`: drops the leading whitespace. */
  function TrimStart(s: string): string
  {
    if s != [] && IsSpace(s[0]) then TrimStart(s[1..]) else s
  }

  /** `s.rstrip()`: drops the trailing whitespace. */
  function TrimEnd(s: string): string
  {
    if s != [] && IsSpace(s[|s| - 1]) then TrimEnd(s[..|s| - 1]) else s
  }

  /** `s.strip()`. */
  function Strip(s: string): string
  {
    TrimEnd(TrimStart(s))
  }

  /** `lstrip` removes a blank prefix and stops at a non-whitespace character. */
  lemma {:induction false} TrimStartSpec(s: string) returns (i: nat)
    ensures i <= |s| && TrimStart(s) == s[i..] && IsBlank(s[..i])
    ensures i < |s| ==> !IsSpace(s[i])
  {
    if s != [] && IsSpace(s[0]) {
      var k := TrimStartSpec(s[1..]);
      i := k + 1;
      assert s[1..][k..] == s[i..];
      forall m | 0 <= m < i ensures IsSpace(s[..i][m]) {
        if m > 0 { assert s[..i][m] == s[1..][..k][m - 1]; }
      }
    } else {
      i := 0;
    }
  }

  /** `rstrip` removes a blank suffix and stops at a non-whitespace character. */
  lemma {:induction false} TrimEndSpec(s: string) returns (j: nat)
    ensures j <= |s| && TrimEnd(s) == s[..j] && IsBlank(s[j..])
    ensures 0 < j ==> !IsSpace(s[j - 1])
  {
    if s != [] && IsSpace(s[|s| - 1]) {
      var t := s[..|s| - 1];
      j := TrimEndSpec(t);
      assert t[..j] == s[..j];
      forall m | 0 <= m < |s| - j ensures IsSpace(s[j..][m]) {
        if j + m < |s| - 1 { assert s[j..][m] == t[j..][m]; }
      }
    } else {
      j := |s|;
    }
  }

  /**
   * `s.strip()` is the slice `s[i..j]` left after a blank prefix and a blank
   * suffix are removed; it is empty exactly when `s` is blank, and otherwise
   * it starts and ends with a non-whitespace character.
   */
  lemma StripSpec(s: string) returns (i: nat, j: nat)
    ensures i <= j <= |s| && Strip(s) == s[i..j]
    ensures IsBlank(s[..i]) && IsBlank(s[j..])
    ensures Strip(s) == [] <==> IsBlank(s)
    ensures Strip(s) != [] ==> !IsSpace(s[i]) && !IsSpace(s[j - 1])
  {
    i := TrimStartSpec(s);
    var t := s[i..];
    var k := TrimEndSpec(t);
    j := i + k;
    assert t[..k] == s[i..j];
    assert t[k..] == s[j..];
    if Strip(s) == [] {
      assert k == 0;
      forall m | 0 <= m < |s| ensures IsSpace(s[m]) {
        assert s[m] == s[..i][m];
      }
    }
  }

  /** The index of the first non-whitespace character at or after `i`, or `|s|`. */
  function SkipSpaces(s: string, i: nat): (j: nat)
    requires i <= |s|
    ensures i <= j <= |s|
    ensures IsBlank(s[i..j])
    ensures j == |s| || !IsSpace(s[j])
    decreases |s| - i
  {
    if i < |s| && IsSpace(s[i]) then SkipSpaces(s, i + 1) else i
  }

  /** The index of the first whitespace character at or after `i`, or `|s|`. */
  function WordEnd(s: string, i: nat): (j: nat)
    requires i <= |s|
    ensures i <= j <= |s|
    ensures forall k :: i <= k < j ==> !IsSpace(s[k])
    ensures j == |s| || IsSpace(s[j])
    ensures i < |s| && !IsSpace(s[i]) ==> i < j
    decreases |s| - i
  {
    if i < |s| && !IsSpace(s[i]) then WordEnd(s, i + 1) else i
  }

  /** Python's `s.split()`: the maximal runs of non-whitespace characters, in order. */
  function Words(s: string): seq<string>
    decreases |s|
  {
    if s == [] then []
    else if IsSpace(s[0]) then Words(s[1..])
    else
      var j := WordEnd(s, 0);
      [s[..j]] + Words(s[j..])
  }

  /** Every element of `s.split()` is a word, and there is none exactly when `s` is blank. */
  lemma {:induction false} WordsAreWords(s: string)
    ensures forall k :: 0 <= k < |Words(s)| ==> IsWord(Words(s)[k])
    ensures Words(s) == [] <==> IsBlank(s)
    decreases |s|
  {
    if s == [] {
    } else if IsSpace(s[0]) {
      WordsAreWords(s[1..]);
      if IsBlank(s[1..]) {
        forall k | 0 <= k < |s| ensures IsSpace(s[k]) { if k > 0 { assert s[k] == s[1..][k - 1]; } }
      }
    } else {
      var j := WordEnd(s, 0);
      var w := s[..j];
      forall k | 0 <= k < |w| ensures !IsSpace(w[k]) { assert w[k] == s[k]; }
      WordsAreWords(s[j..]);
    }
  }

  /** `sep.join(xs)`. */
  function Join(xs: seq<string>, sep: string): string
  {
    if |xs| == 0 then ""
    else if |xs| == 1 then xs[0]
    else Join(xs[..|xs| - 1], sep) + sep + xs[|xs| - 1]
  }

  /** The words of every element of `xs`, concatenated in order. */
  function FlatWords(xs: seq<string>): seq<string>
  {
    if xs == [] then [] else Words(xs[0]) + FlatWords(xs[1..])
  }

  /** Sequence concatenation regrouped, for loops that build a result front to back. */
  lemma AppendAssoc<T>(a: seq<T>, b: seq<T>, c: seq<T>)
    ensures a + (b + c) == (a + b) + c
  {
  }

  /** Concatenation of a sequence of sequences. */
  function Flatten<T>(xss: seq<seq<T>>): seq<T>
  {
    if xss == [] then [] else xss[0] + Flatten(xss[1..])
  }

  lemma {:induction false} FlattenAppend<T>(a: seq<seq<T>>, b: seq<seq<T>>)
    ensures Flatten(a + b) == Flatten(a) + Flatten(b)
  {
    if a != [] {
      assert (a + b)[1..] == a[1..] + b;
      FlattenAppend(a[1..], b);
    } else {
      assert a + b == b;
    }
  }

  lemma {:induction false} FlatWordsAppend(a: seq<string>, b: seq<string>)
    ensures FlatWords(a + b) == FlatWords(a) + FlatWords(b)
  {
    if a != [] {
      assert (a + b)[1..] == a[1..] + b;
      FlatWordsAppend(a[1..], b);
    } else {
      assert a + b == b;
    }
  }

  lemma FlatWordsSingle(x: string)
    ensures FlatWords([x]) == Words(x)
  {
    assert [x][1..] == [];
  }

  lemma BlankConcat(a: string, b: string)
    ensures IsBlank(a + b) <==> IsBlank(a) && IsBlank(b)
  {
    if IsBlank(a + b) {
      forall i | 0 <= i < |a| ensures IsSpace(a[i]) { assert (a + b)[i] == a[i]; }
      forall i | 0 <= i < |b| ensures IsSpace(b[i]) { assert (a + b)[|a| + i] == b[i]; }
    }
  }

  lemma {:induction false} WordEndExtend(t: string, c: char, b: string, i: nat)
    requires i <= |t| && IsSpace(c)
    ensures WordEnd(t + [c] + b, i) == WordEnd(t, i)
    decreases |t| - i
  {
    var u := t + [c] + b;
    if i < |t| {
      assert u[i] == t[i];
      if !IsSpace(t[i]) { WordEndExtend(t, c, b, i + 1); }
    } else {
      assert u[i] == c;
    }
  }

  /** Leading whitespace does not change the words. */
  lemma {:induction false} WordsBlankPrefix(w: string, b: string)
    requires IsBlank(w)
    ensures Words(w + b) == Words(b)
  {
    if w != [] {
      assert (w + b)[0] == w[0];
      assert (w + b)[1..] == w[1..] + b;
      WordsBlankPrefix(w[1..], b);
    } else {
      assert w + b == b;
    }
  }

  /** A whitespace character separates words: `(a + c + b).split() == a.split() + b.split()`. */
  lemma {:induction false} WordsSplitAtSpace(a: string, c: char, b: string)
    requires IsSpace(c)
    ensures Words(a + [c] + b) == Words(a) + Words(b)
    decreases |a|
  {
    var s := a + [c] + b;
    if a == [] {
      assert s[0] == c && s[1..] == b;
    } else if IsSpace(a[0]) {
      assert s[0] == a[0];
      assert s[1..] == a[1..] + [c] + b;
      WordsSplitAtSpace(a[1..], c, b);
    } else {
      assert s[0] == a[0];
      var j := WordEnd(a, 0);
      WordEndExtend(a, c, b, 0);
      assert s[..j] == a[..j];
      assert s[j..] == a[j..] + [c] + b;
      WordsSplitAtSpace(a[j..], c, b);
    }
  }

  /** A non-empty blank separator separates words. */
  lemma WordsSplitAtBlank(a: string, w: string, b: string)
    requires IsBlank(w) && w != []
    ensures Words(a + w + b) == Words(a) + Words(b)
  {
    assert a + w + b == a + [w[0]] + (w[1..] + b);
    WordsSplitAtSpace(a, w[0], w[1..] + b);
    WordsBlankPrefix(w[1..], b);
  }

  /** A word splits into itself. */
  lemma WordsOfWord(w: string)
    requires IsWord(w)
    ensures Words(w) == [w]
  {
    var j := WordEnd(w, 0);
    assert j == |w|;
    assert w[..j] == w;
    assert w[j..] == [];
  }

  /** Splitting the words back into words changes nothing. */
  lemma {:induction false} FlatWordsOfWords(ws: seq<string>)
    requires forall k :: 0 <= k < |ws| ==> IsWord(ws[k])
    ensures FlatWords(ws) == ws
  {
    if ws != [] {
      assert IsWord(ws[0]);
      WordsOfWord(ws[0]);
      FlatWordsOfWords(ws[1..]);
    }
  }

  /** Trailing whitespace does not change the words. */
  lemma WordsBlankSuffix(a: string, w: string)
    requires IsBlank(w)
    ensures Words(a + w) == Words(a)
  {
    if w != [] {
      WordsSplitAtBlank(a, w, "");
      assert a + w + "" == a + w;
    } else {
      assert a + w == a;
    }
  }

  /** Stripping does not change the words. */
  lemma WordsOfStrip(s: string)
    ensures Words(Strip(s)) == Words(s)
  {
    var i, j := StripSpec(s);
    assert s == s[..i] + (s[i..j] + s[j..]);
    WordsBlankPrefix(s[..i], s[i..j] + s[j..]);
    WordsBlankSuffix(s[i..j], s[j..]);
  }

  /** Joining with a non-empty blank separator keeps every word of every part, in order. */
  lemma {:induction false} WordsOfJoin(xs: seq<string>, sep: string)
    requires IsBlank(sep) && sep != []
    ensures Words(Join(xs, sep)) == FlatWords(xs)
  {
    if |xs| == 0 {
    } else if |xs| == 1 {
      FlatWordsSingle(xs[0]);
    } else {
      var init, last := xs[..|xs| - 1], xs[|xs| - 1];
      var j := Join(init, sep);
      assert Join(xs, sep) == j + sep + last;
      WordsOfJoin(init, sep);
      WordsSplitAtBlank(j, sep, last);
      assert xs == init + [last];
      FlatWordsAppend(init, [last]);
      FlatWordsSingle(last);
    }
  }

  /** `sep.join(xs)` with one more element appended. */
  lemma JoinSnoc(xs: seq<string>, x: string, sep: string)
    ensures Join(xs + [x], sep) == if xs == [] then x else Join(xs, sep) + sep + x
  {
    assert (xs + [x])[..|xs|] == xs;
  }

  /** Total length of the parts. */
  function SumLengths(xs: seq<string>): nat
  {
    if xs == [] then 0 else |xs[0]| + SumLengths(xs[1..])
  }

  lemma {:induction false} SumLengthsSnoc(xs: seq<string>, x: string)
    ensures SumLengths(xs + [x]) == SumLengths(xs) + |x|
  {
    if xs != [] {
      assert (xs + [x])[1..] == xs[1..] + [x];
      SumLengthsSnoc(xs[1..], x);
    } else {
      assert [x][1..] == [];
    }
  }

  /** The length of a joined string: the parts plus one separator between each two. */
  lemma {:induction false} JoinLength(xs: seq<string>, sep: string)
    requires xs != []
    ensures |Join(xs, sep)| == SumLengths(xs) + (|xs| - 1) * |sep|
  {
    if |xs| > 1 {
      var init, last := xs[..|xs| - 1], xs[|xs| - 1];
      assert Join(xs, sep) == Join(init, sep) + sep + last;
      JoinLength(init, sep);
      SumLengthsSnoc(init, last);
      assert init + [last] == xs;
      var k := |init| - 1;
      assert (k + 1) * |sep| == k * |sep| + |sep|;
    } else {
      assert xs[1..] == [];
    }
  }
}
