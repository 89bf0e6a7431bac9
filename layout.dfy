/**
 * How a translated text is fitted into its block: `adjust_font_size` shrinks
 * the font when the estimated width overflows the block (by at most 30%), and
 * `calculate_text_wrap` breaks the text into lines of at most a given number
 * of characters, keeping short sentences whole and splitting long ones into
 * words. Widths are estimates: characters times font size times a factor.
 */
module Layout {
  import opened Strings
  import opened Splitting
  import opened Geometry

  /** `lang_factors`, in the dictionary's insertion order. */
  const LangFactors: seq<(string, real)> :=
    [("zh-CN", 1.0), ("zh-TW", 1.0), ("ja", 1.0), ("ko", 1.0),
     ("de", 1.2), ("ru", 1.1), ("ar", 1.1), ("default", 0.6)]

  /** `lang_factors['default']`. */
  const DefaultFactor: real := 0.6

  /** `any(ord(c) > bound for c in text)`. */
  predicate HasCodeAbove(text: string, bound: int) {
    exists i :: 0 <= i < |text| && text[i] as int > bound
  }

  /**
   * The width factor: the first non-default entry of the table is taken as
   * soon as any character is above U+03E8, so the factor is 1.0 exactly then
   * and the default otherwise.
   */
  function WidthFactor(text: string): real
  {
    if HasCodeAbove(text, 1000) then 1.0 else DefaultFactor
  }

  /** `len(text) * original_font_size * factor`. */
  function ApproxWidth(text: string, fontSize: real): real
  {
    |text| as real * fontSize * WidthFactor(text)
  }

  /**
   * `adjust_font_size`: the size itself when the text fits, else the size
   * scaled by `rect_width / approx_width`, but not below 70% of it (`min_scale`).
   * The division fails when the estimate is zero and yet overflows.
   */
  function FontSizeFor(text: string, rectWidth: real, fontSize: real): real
    requires ApproxWidth(text, fontSize) <= rectWidth || ApproxWidth(text, fontSize) != 0.0
  {
    var w := ApproxWidth(text, fontSize);
    if w <= rectWidth then fontSize else Max(fontSize * (rectWidth / w), 0.7 * fontSize)
  }

  /**
   * For a positive font size and a non-negative width, the adjusted size
   * lies between 70% of the original and the original; it is the original
   * exactly when the text fits; and unless the 30% floor is hit, the text
   * set in the adjusted size fits the width.
   */
  lemma FontSizeBounds(text: string, rectWidth: real, fontSize: real)
    requires fontSize > 0.0 && rectWidth >= 0.0
    ensures var r := FontSizeFor(text, rectWidth, fontSize);
      && 0.7 * fontSize <= r <= fontSize
      && (r == fontSize <==> ApproxWidth(text, fontSize) <= rectWidth)
      && (ApproxWidth(text, r) <= rectWidth || r == 0.7 * fontSize)
  {
    var w := ApproxWidth(text, fontSize);
    var f := WidthFactor(text);
    var n := |text| as real;
    if w > rectWidth {
      var q := rectWidth / w;
      assert 0.0 <= q < 1.0;
      assert fontSize * q < fontSize;
      assert 0.7 * fontSize < fontSize;
      var r := FontSizeFor(text, rectWidth, fontSize);
      if r != 0.7 * fontSize {
        assert r == fontSize * q;
        calc {
          ApproxWidth(text, r);
          n * (fontSize * q) * f;
          (n * fontSize * f) * q;
          w * (rectWidth / w);
          rectWidth;
        }
      }
    }
  }

  /** The factor-selection loop of `adjust_font_size`. */
  method SelectFactor(text: string) returns (factor: real)
    ensures factor == WidthFactor(text)
  {
    factor := DefaultFactor;
    if HasCodeAbove(text, 127) {
      for k := 0 to |LangFactors|
        invariant k > 0 ==> !HasCodeAbove(text, 1000)
        invariant factor == DefaultFactor
      {
        if LangFactors[k].0 != "default" && HasCodeAbove(text, 1000) {
          factor := LangFactors[k].1;
          break;
        }
      }
    } else {
      forall i | 0 <= i < |text| ensures text[i] as int <= 1000 {
        assert text[i] as int <= 127;
      }
    }
  }

  /** `adjust_font_size`. */
  method AdjustFontSize(text: string, rectWidth: real, fontSize: real) returns (r: real)
    requires ApproxWidth(text, fontSize) <= rectWidth || ApproxWidth(text, fontSize) != 0.0
    ensures r == FontSizeFor(text, rectWidth, fontSize)
  {
    var factor := SelectFactor(text);
    var approxWidth := |text| as real * fontSize * factor;
    if approxWidth <= rectWidth {
      return fontSize;
    }
    var scaling := rectWidth / approxWidth;
    r := Max(fontSize * scaling, 0.7 * fontSize);
  }

  // ---------------------------------------------------------------------
  // Wrapping.

  /** Python's `int(x)` on a float: truncation toward zero. */
  function Trunc(x: real): int
  {
    if x >= 0.0 then x.Floor else -((-x).Floor)
  }

  /** The lines finished so far, the open line's pieces and its running count. */
  datatype WrapState = WrapState(lines: seq<string>, cur: seq<string>, count: int)

  /** Add a sentence or word: onto the open line when it fits, else on a new line. */
  function Place(st: WrapState, item: string, perLine: int): WrapState
  {
    if st.count + |item| + 1 <= perLine then WrapState(st.lines, st.cur + [item], st.count + |item| + 1)
    else WrapState(st.lines + (if st.cur != [] then [Join(st.cur, " ")] else []), [item], |item|)
  }

  function PlaceAll(items: seq<string>, perLine: int): WrapState
  {
    if items == [] then WrapState([], [], 0)
    else Place(PlaceAll(items[..|items| - 1], perLine), items[|items| - 1], perLine)
  }

  /** What a sentence contributes: itself when it fits on a line, else its words. */
  function Pieces(sentence: string, perLine: int): seq<string>
  {
    if |sentence| <= perLine then [sentence] else Words(sentence)
  }

  function Items(sentences: seq<string>, perLine: int): seq<string>
  {
    if sentences == [] then []
    else Items(sentences[..|sentences| - 1], perLine) + Pieces(sentences[|sentences| - 1], perLine)
  }

  /** The finished lines and the open one. */
  function Finish(st: WrapState): seq<string>
  {
    st.lines + (if st.cur != [] then [Join(st.cur, " ")] else [])
  }

  /** `chars_per_line`. */
  function CharsPerLine(fontSize: real, maxWidth: real): int
    requires fontSize != 0.0
  {
    Trunc(maxWidth / AvgCharWidth(fontSize))
  }

  /** `avg_char_width`: the estimated width of one character. */
  function AvgCharWidth(fontSize: real): real
  {
    fontSize * 0.6
  }

  /** The estimated width of a line: `len(text) * avg_char_width`. */
  function LineWidth(line: string, fontSize: real): real
  {
    |line| as real * AvgCharWidth(fontSize)
  }

  /**
   * `calculate_text_wrap`: the text as one line when its estimated width
   * fits, else the packed lines. The division fails when the font size is
   * zero and the width negative.
   */
  function Wrap(text: string, fontSize: real, maxWidth: real): seq<string>
    requires fontSize != 0.0 || maxWidth >= 0.0
  {
    if LineWidth(text, fontSize) <= maxWidth then [text]
    else
      var perLine := CharsPerLine(fontSize, maxWidth);
      Finish(PlaceAll(Items(SplitSentences(text), perLine), perLine))
  }

  // ---------------------------------------------------------------------

  /** A line keeps to the limit, or is a single word too long for any line. */
  predicate LineOK(line: string, perLine: int) {
    |line| <= perLine || IsWord(line)
  }

  predicate AllLinesOK(lines: seq<string>, perLine: int) {
    forall k :: 0 <= k < |lines| ==> LineOK(lines[k], perLine)
  }

  /** What the packing loop keeps true. */
  predicate WrapInv(st: WrapState, perLine: int) {
    && (st.cur == [] ==> st.count == 0)
    && (st.cur != [] ==> |Join(st.cur, " ")| <= st.count)
    && (st.cur != [] && st.count > perLine ==> |st.cur| == 1 && IsWord(st.cur[0]))
    && AllLinesOK(st.lines, perLine)
  }

  lemma PlaceKeeps(st: WrapState, item: string, perLine: int)
    requires WrapInv(st, perLine) && LineOK(item, perLine)
    ensures WrapInv(Place(st, item, perLine), perLine)
  {
    JoinSnoc(st.cur, item, " ");
    if st.count + |item| + 1 > perLine && st.cur != [] {
      var line := Join(st.cur, " ");
      if |st.cur| == 1 {
        assert line == st.cur[0];
      }
      assert LineOK(line, perLine);
    }
  }

  lemma {:induction false} PlaceAllKeeps(items: seq<string>, perLine: int)
    requires forall k :: 0 <= k < |items| ==> LineOK(items[k], perLine)
    ensures WrapInv(PlaceAll(items, perLine), perLine)
  {
    if items != [] {
      PlaceAllKeeps(items[..|items| - 1], perLine);
      PlaceKeeps(PlaceAll(items[..|items| - 1], perLine), items[|items| - 1], perLine);
    }
  }

  lemma {:induction false} ItemsOK(sentences: seq<string>, perLine: int)
    ensures forall k :: 0 <= k < |Items(sentences, perLine)| ==> LineOK(Items(sentences, perLine)[k], perLine)
  {
    if sentences != [] {
      var init, s := sentences[..|sentences| - 1], sentences[|sentences| - 1];
      ItemsOK(init, perLine);
      WordsAreWords(s);
      var a, b := Items(init, perLine), Pieces(s, perLine);
      forall k | 0 <= k < |a + b| ensures LineOK((a + b)[k], perLine) {
        if k >= |a| { assert (a + b)[k] == b[k - |a|]; }
      }
    }
  }

  /**
   * Every packed line keeps to the per-line character count, except a line
   * holding a single word longer than that.
   */
  lemma PackedLinesFit(sentences: seq<string>, perLine: int)
    ensures AllLinesOK(Finish(PlaceAll(Items(sentences, perLine), perLine)), perLine)
  {
    ItemsOK(sentences, perLine);
    var st := PlaceAll(Items(sentences, perLine), perLine);
    PlaceAllKeeps(Items(sentences, perLine), perLine);
    if st.cur != [] {
      var line := Join(st.cur, " ");
      if |st.cur| == 1 { assert line == st.cur[0]; }
      var r := Finish(st);
      forall k | 0 <= k < |r| ensures LineOK(r[k], perLine) {
        if k < |st.lines| { assert r[k] == st.lines[k]; }
      }
    }
  }

  /** The words of the lines, the open one included. */
  lemma FinishWords(st: WrapState)
    ensures FlatWords(Finish(st)) == FlatWords(st.lines) + FlatWords(st.cur)
  {
    assert IsBlank(" ") && " " != [] by { assert IsSpace(' '); }
    if st.cur != [] {
      FlatWordsAppend(st.lines, [Join(st.cur, " ")]);
      FlatWordsSingle(Join(st.cur, " "));
      WordsOfJoin(st.cur, " ");
    } else {
      assert Finish(st) == st.lines;
    }
  }

  lemma PlaceWords(st: WrapState, x: string, perLine: int)
    ensures FlatWords(Finish(Place(st, x, perLine))) == FlatWords(Finish(st)) + Words(x)
  {
    var st' := Place(st, x, perLine);
    var a, b, w := FlatWords(st.lines), FlatWords(st.cur), Words(x);
    FinishWords(st);
    FinishWords(st');
    FlatWordsSingle(x);
    if st.count + |x| + 1 <= perLine {
      assert st'.lines == st.lines && st'.cur == st.cur + [x];
      FlatWordsAppend(st.cur, [x]);
      AppendAssoc(a, b, w);
    } else {
      assert st'.cur == [x];
      if st.cur != [] {
        var closed := WrapState(st.lines, st.cur, 0);
        assert st'.lines == Finish(closed);
        FinishWords(closed);
      } else {
        assert st'.lines == st.lines;
      }
    }
  }

  /** `PlaceAll` over one more piece. */
  lemma PlaceAllSnoc(items: seq<string>, x: string, perLine: int)
    ensures PlaceAll(items + [x], perLine) == Place(PlaceAll(items, perLine), x, perLine)
  {
    assert (items + [x])[..|items|] == items;
  }

  /** The lines hold exactly the words of the pieces, in order. */
  lemma {:induction false} PlaceAllWords(items: seq<string>, perLine: int)
    ensures FlatWords(Finish(PlaceAll(items, perLine))) == FlatWords(items)
  {
    if items != [] {
      var init, x := items[..|items| - 1], items[|items| - 1];
      PlaceAllWords(init, perLine);
      PlaceWords(PlaceAll(init, perLine), x, perLine);
      FlatWordsAppend(init, [x]);
      FlatWordsSingle(x);
      assert init + [x] == items;
    }
  }

  /** A line within the per-line character count has an estimated width within the width. */
  lemma WithinWidth(line: string, fontSize: real, maxWidth: real)
    requires fontSize > 0.0 && maxWidth >= 0.0 && |line| <= CharsPerLine(fontSize, maxWidth)
    ensures LineWidth(line, fontSize) <= maxWidth
  {
    var avg := AvgCharWidth(fontSize);
    var x := maxWidth / avg;
    assert x >= 0.0;
    assert |line| as real <= x;
    assert |line| as real * avg <= x * avg;
  }

  /** A sentence's pieces hold exactly its words. */
  lemma PiecesWords(sentence: string, perLine: int)
    ensures FlatWords(Pieces(sentence, perLine)) == Words(sentence)
  {
    if |sentence| > perLine {
      WordsAreWords(sentence);
      FlatWordsOfWords(Words(sentence));
    } else {
      FlatWordsSingle(sentence);
    }
  }

  lemma {:induction false} ItemsWords(sentences: seq<string>, perLine: int)
    ensures FlatWords(Items(sentences, perLine)) == FlatWords(sentences)
  {
    if sentences != [] {
      var init, s := sentences[..|sentences| - 1], sentences[|sentences| - 1];
      assert Items(sentences, perLine) == Items(init, perLine) + Pieces(s, perLine);
      ItemsWords(init, perLine);
      FlatWordsAppend(Items(init, perLine), Pieces(s, perLine));
      PiecesWords(s, perLine);
      assert init + [s] == sentences;
      FlatWordsAppend(init, [s]);
      FlatWordsSingle(s);
    }
  }

  /** Wrapping only inserts line breaks: the lines hold exactly the words of the text, in order. */
  lemma {:induction false} WrapKeepsWords(text: string, fontSize: real, maxWidth: real)
    requires fontSize != 0.0 || maxWidth >= 0.0
    ensures FlatWords(Wrap(text, fontSize, maxWidth)) == Words(text)
  {
    if LineWidth(text, fontSize) <= maxWidth {
      FlatWordsSingle(text);
    } else {
      var perLine := CharsPerLine(fontSize, maxWidth);
      var ss := SplitSentences(text);
      PlaceAllWords(Items(ss, perLine), perLine);
      ItemsWords(ss, perLine);
      WordsOfSentences(text);
    }
  }

  /**
   * For a positive font size and a non-negative width, every line's
   * estimated width fits the width, except a line holding a single word too
   * long for any line.
   */
  lemma WrapFits(text: string, fontSize: real, maxWidth: real)
    requires fontSize > 0.0 && maxWidth >= 0.0
    ensures forall k :: 0 <= k < |Wrap(text, fontSize, maxWidth)| ==>
      LineWidth(Wrap(text, fontSize, maxWidth)[k], fontSize) <= maxWidth || IsWord(Wrap(text, fontSize, maxWidth)[k])
  {
    var r := Wrap(text, fontSize, maxWidth);
    if LineWidth(text, fontSize) > maxWidth {
      var perLine := CharsPerLine(fontSize, maxWidth);
      PackedLinesFit(SplitSentences(text), perLine);
      forall k | 0 <= k < |r| && !IsWord(r[k]) ensures LineWidth(r[k], fontSize) <= maxWidth {
        assert LineOK(r[k], perLine);
        WithinWidth(r[k], fontSize, maxWidth);
      }
    }
  }

  /** `calculate_text_wrap`. */
  method CalculateTextWrap(text: string, fontSize: real, maxWidth: real) returns (lines: seq<string>)
    requires fontSize != 0.0 || maxWidth >= 0.0
    ensures lines == Wrap(text, fontSize, maxWidth)
  {
    var textWidth := LineWidth(text, fontSize);
    assert AvgCharWidth(fontSize) == 0.0 ==> textWidth == 0.0;
    if textWidth <= maxWidth {
      return [text];
    }
    var perLine := CharsPerLine(fontSize, maxWidth);
    lines := PackLines(SplitSentences(text), perLine);
  }

  /** The sentence loop of `calculate_text_wrap`, and the closing of the last line. */
  method PackLines(sentences: seq<string>, perLine: int) returns (lines: seq<string>)
    ensures lines == Finish(PlaceAll(Items(sentences, perLine), perLine))
  {
    lines := [];
    var currentLine: seq<string> := [];
    var currentCount := 0;
    for k := 0 to |sentences|
      invariant WrapState(lines, currentLine, currentCount) == PlaceAll(Items(sentences[..k], perLine), perLine)
    {
      var sentence := sentences[k];
      ghost var before := Items(sentences[..k], perLine);
      assert sentences[..k + 1][..k] == sentences[..k];
      if |sentence| <= perLine {
        assert (before + [sentence])[..|before|] == before;
        lines, currentLine, currentCount := PlaceOne(lines, currentLine, currentCount, sentence, perLine);
      } else {
        lines, currentLine, currentCount := PlaceWordsOf(lines, currentLine, currentCount, sentence, perLine, before);
      }
    }
    assert sentences[..|sentences|] == sentences;
    if currentLine != [] {
      lines := lines + [Join(currentLine, " ")];
    }
  }

  /** The word loop for a sentence too long for one line. */
  method PlaceWordsOf(lines: seq<string>, currentLine: seq<string>, currentCount: int, sentence: string,
                      perLine: int, ghost before: seq<string>)
    returns (lines': seq<string>, currentLine': seq<string>, currentCount': int)
    requires WrapState(lines, currentLine, currentCount) == PlaceAll(before, perLine)
    ensures WrapState(lines', currentLine', currentCount') == PlaceAll(before + Words(sentence), perLine)
  {
    var words := Words(sentence);
    lines', currentLine', currentCount' := lines, currentLine, currentCount;
    assert before + words[..0] == before;
    for j := 0 to |words|
      invariant WrapState(lines', currentLine', currentCount') == PlaceAll(before + words[..j], perLine)
    {
      assert before + words[..j + 1] == (before + words[..j]) + [words[j]];
      PlaceAllSnoc(before + words[..j], words[j], perLine);
      lines', currentLine', currentCount' := PlaceOne(lines', currentLine', currentCount', words[j], perLine);
    }
    assert words[..|words|] == words;
  }

  /** The body shared by both inner branches: extend the open line or start a new one. */
  method PlaceOne(lines: seq<string>, currentLine: seq<string>, currentCount: int, item: string, perLine: int)
    returns (lines': seq<string>, currentLine': seq<string>, currentCount': int)
    ensures WrapState(lines', currentLine', currentCount') == Place(WrapState(lines, currentLine, currentCount), item, perLine)
  {
    if currentCount + |item| + 1 <= perLine {
      return lines, currentLine + [item], currentCount + |item| + 1;
    }
    lines' := lines;
    if currentLine != [] {
      lines' := lines + [Join(currentLine, " ")];
    }
    return lines', [item], |item|;
  }
}
