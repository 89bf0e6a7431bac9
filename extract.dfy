/**
 * The text units `analyze_pdf` builds from the merged blocks of each page:
 * the block text is every non-blank span's text followed by a space, then
 * stripped; the box is the min/max over exactly those spans, with the
 * minimum seeded at infinity and the maximum seeded at 0.
 */
module Extract {
  import opened Options
  import opened Geometry
  import opened Strings
  import opened Blocks
  import opened Merge

  /** One entry of `text_blocks`. */
  datatype TextUnit = TextUnit(page: nat, text: string, spans: seq<Span>, bbox: Rect,
                               kind: int, pageWidth: real, pageHeight: real)

  /** The spans of the lines, in reading order. */
  function LineSpans(ls: seq<Line>): seq<Span>
  {
    if ls == [] then [] else LineSpans(ls[..|ls| - 1]) + ls[|ls| - 1].spans
  }

  /** `span["text"].strip()` is truthy. */
  predicate Kept(sp: Span) {
    !IsBlank(sp.text)
  }

  /** The spans that contribute to the block, in order (`block_spans`). */
  function KeptSpans(ss: seq<Span>): seq<Span>
  {
    if ss == [] then [] else (if Kept(ss[0]) then [ss[0]] else []) + KeptSpans(ss[1..])
  }

  /** Every span's text is blank. */
  predicate AllBlank(ss: seq<Span>) {
    forall k :: 0 <= k < |ss| ==> IsBlank(ss[k].text)
  }

  /** `block_text` before stripping: each kept span's text followed by a space. */
  function RawText(ss: seq<Span>): string
  {
    if ss == [] then "" else (if Kept(ss[0]) then ss[0].text + " " else "") + RawText(ss[1..])
  }

  function Texts(ss: seq<Span>): seq<string>
  {
    if ss == [] then [] else [ss[0].text] + Texts(ss[1..])
  }

  /**
   * The box over a non-empty run of kept spans: the minimum starts from the
   * first span (min with infinity), the maximum from 0.
   */
  function Cover(ks: seq<Span>): Rect
    requires ks != []
  {
    if |ks| == 1 then
      var b := ks[0].bbox;
      Rect(b.x0, b.y0, Max(0.0, b.x1), Max(0.0, b.y1))
    else
      var c := Cover(ks[..|ks| - 1]);
      var b := ks[|ks| - 1].bbox;
      Rect(Min(c.x0, b.x0), Min(c.y0, b.y0), Max(c.x1, b.x1), Max(c.y1, b.y1))
  }

  /** What one block with line list `lines` contributes: nothing when its text is blank. */
  function UnitOf(page: nat, kind: int, lines: seq<Line>, pageWidth: real, pageHeight: real): Option<TextUnit>
  {
    var ss := LineSpans(lines);
    if IsBlank(RawText(ss)) then None
    else
      RawTextBlank(ss);
      Some(TextUnit(page, Strip(RawText(ss)), KeptSpans(ss), Cover(KeptSpans(ss)), kind, pageWidth, pageHeight))
  }

  // ---------------------------------------------------------------------
  // Facts about the pieces.

  lemma {:induction false} KeptSpansSnoc(ss: seq<Span>, x: Span)
    ensures KeptSpans(ss + [x]) == KeptSpans(ss) + (if Kept(x) then [x] else [])
  {
    var t := if Kept(x) then [x] else [];
    if ss == [] {
      assert [x][1..] == [];
      assert KeptSpans([x]) == t + KeptSpans([]);
    } else {
      var sx := ss + [x];
      var head := if Kept(ss[0]) then [ss[0]] else [];
      assert sx[0] == ss[0] && sx[1..] == ss[1..] + [x];
      KeptSpansSnoc(ss[1..], x);
      assert KeptSpans(sx) == head + KeptSpans(ss[1..] + [x]);
      assert KeptSpans(ss) == head + KeptSpans(ss[1..]);
      assert head + (KeptSpans(ss[1..]) + t) == (head + KeptSpans(ss[1..])) + t;
    }
  }

  lemma {:induction false} RawTextSnoc(ss: seq<Span>, x: Span)
    ensures RawText(ss + [x]) == RawText(ss) + (if Kept(x) then x.text + " " else "")
  {
    var t := if Kept(x) then x.text + " " else "";
    if ss == [] {
      assert [x][1..] == [];
      assert RawText([x]) == t + RawText([]);
    } else {
      var sx := ss + [x];
      var head := if Kept(ss[0]) then ss[0].text + " " else "";
      assert sx[0] == ss[0] && sx[1..] == ss[1..] + [x];
      RawTextSnoc(ss[1..], x);
      assert RawText(sx) == head + RawText(ss[1..] + [x]);
      assert RawText(ss) == head + RawText(ss[1..]);
      assert head + (RawText(ss[1..]) + t) == (head + RawText(ss[1..])) + t;
    }
  }

  /** Every contributing span is non-blank, and each one comes from the input. */
  lemma {:induction false} KeptSpansKept(ss: seq<Span>)
    ensures forall k :: 0 <= k < |KeptSpans(ss)| ==> Kept(KeptSpans(ss)[k]) && KeptSpans(ss)[k] in ss
  {
    if ss != [] {
      KeptSpansKept(ss[1..]);
    }
  }

  /** The block text is blank exactly when no span is kept. */
  lemma {:induction false} RawTextBlank(ss: seq<Span>)
    ensures IsBlank(RawText(ss)) <==> KeptSpans(ss) == []
  {
    if ss != [] {
      RawTextBlank(ss[1..]);
      var head := if Kept(ss[0]) then ss[0].text + " " else "";
      BlankConcat(head, RawText(ss[1..]));
      if Kept(ss[0]) {
        BlankConcat(ss[0].text, " ");
      }
    }
  }

  /** A block's text is blank exactly when every one of its spans is blank. */
  lemma {:induction false} NoneKeptIffAllBlank(ss: seq<Span>)
    ensures KeptSpans(ss) == [] <==> AllBlank(ss)
  {
    if ss != [] {
      NoneKeptIffAllBlank(ss[1..]);
      if AllBlank(ss) {
        forall k | 0 <= k < |ss| - 1 ensures IsBlank(ss[1..][k].text) {
          assert ss[1..][k] == ss[k + 1];
        }
      }
    }
  }

  /** The words of the block text are the words of the kept spans, in order. */
  lemma {:induction false} WordsOfRawText(ss: seq<Span>)
    ensures Words(RawText(ss)) == FlatWords(Texts(KeptSpans(ss)))
  {
    if ss != [] {
      WordsOfRawText(ss[1..]);
      var rest := RawText(ss[1..]);
      if Kept(ss[0]) {
        WordsSplitAtSpace(ss[0].text, ' ', rest);
        assert RawText(ss) == ss[0].text + [' '] + rest;
        assert Texts([ss[0]] + KeptSpans(ss[1..])) == [ss[0].text] + Texts(KeptSpans(ss[1..]));
        assert ([ss[0].text] + Texts(KeptSpans(ss[1..])))[1..] == Texts(KeptSpans(ss[1..]));
      } else {
        assert RawText(ss) == rest;
        assert KeptSpans(ss) == KeptSpans(ss[1..]);
      }
    }
  }

  /** The box covers every kept span. */
  lemma {:induction false} CoverContains(ks: seq<Span>)
    requires ks != []
    ensures forall k :: 0 <= k < |ks| ==> Contains(Cover(ks), ks[k].bbox)
  {
    if |ks| > 1 {
      var init := ks[..|ks| - 1];
      CoverContains(init);
      forall k | 0 <= k < |ks| - 1 ensures Contains(Cover(ks), ks[k].bbox) {
        assert ks[k] == init[k];
      }
    }
  }

  /**
   * The box is tight: its left and top edges are those of some kept span,
   * and its right and bottom edges are those of some kept span or 0.
   */
  lemma {:induction false} CoverAttained(ks: seq<Span>) returns (a: nat, b: nat, c: nat, d: nat)
    requires ks != []
    ensures a < |ks| && b < |ks| && c < |ks| && d < |ks|
    ensures Cover(ks).x0 == ks[a].bbox.x0 && Cover(ks).y0 == ks[b].bbox.y0
    ensures Cover(ks).x1 == Max(0.0, ks[c].bbox.x1) && Cover(ks).y1 == Max(0.0, ks[d].bbox.y1)
  {
    if |ks| == 1 {
      return 0, 0, 0, 0;
    }
    var n := |ks| - 1;
    var init := ks[..n];
    a, b, c, d := CoverAttained(init);
    var cv, bx := Cover(init), ks[n].bbox;
    assert ks[a] == init[a] && ks[b] == init[b] && ks[c] == init[c] && ks[d] == init[d];
    if bx.x0 < cv.x0 { a := n; }
    if bx.y0 < cv.y0 { b := n; }
    if bx.x1 > cv.x1 { c := n; }
    if bx.y1 > cv.y1 { d := n; }
  }

  /**
   * What an emitted unit holds: its text is non-empty and stripped, its words
   * are those of its spans, its spans are the non-blank spans of the block in
   * order, and its box covers each of them.
   */
  lemma UnitFacts(page: nat, kind: int, lines: seq<Line>, pageWidth: real, pageHeight: real)
    requires UnitOf(page, kind, lines, pageWidth, pageHeight).Some?
    ensures var u := UnitOf(page, kind, lines, pageWidth, pageHeight).value;
      && u.page == page && u.kind == kind && u.pageWidth == pageWidth && u.pageHeight == pageHeight
      && WellFormedUnit(u) && u.spans == KeptSpans(LineSpans(lines))
  {
    var ss := LineSpans(lines);
    var raw, ks := RawText(ss), KeptSpans(ss);
    assert !IsBlank(raw);
    RawTextBlank(ss);
    var u := TextUnit(page, Strip(raw), ks, Cover(ks), kind, pageWidth, pageHeight);
    assert UnitOf(page, kind, lines, pageWidth, pageHeight) == Some(u);
    var i, j := StripSpec(raw);
    assert u.text != [] && !IsSpace(u.text[0]) && !IsSpace(u.text[|u.text| - 1]);
    WordsOfStrip(raw);
    WordsOfRawText(ss);
    assert Words(u.text) == FlatWords(Texts(u.spans));
    KeptSpansKept(ss);
    CoverContains(ks);
  }

  /** A block yields no unit exactly when all of its spans are blank. */
  lemma UnitNone(page: nat, kind: int, lines: seq<Line>, pageWidth: real, pageHeight: real)
    ensures UnitOf(page, kind, lines, pageWidth, pageHeight).None? <==> AllBlank(LineSpans(lines))
  {
    RawTextBlank(LineSpans(lines));
    NoneKeptIffAllBlank(LineSpans(lines));
  }

  // ---------------------------------------------------------------------
  // The extraction loops.

  /**
   * The locals of the span loop: `block_text`, `block_spans`, and the box
   * edges. `seen` records whether a span was kept yet, which is when the
   * minima stop being infinite.
   */
  datatype Scan = Scan(text: string, spans: seq<Span>, seen: bool, minX: real, minY: real, maxX: real, maxY: real)

  /** The locals after the spans `done` have been scanned. */
  ghost predicate Scanned(done: seq<Span>, sc: Scan) {
    && sc.text == RawText(done) && sc.spans == KeptSpans(done)
    && (sc.seen <==> sc.spans != [])
    && (sc.seen ==> Rect(sc.minX, sc.minY, sc.maxX, sc.maxY) == Cover(sc.spans))
    && (!sc.seen ==> sc.maxX == 0.0 && sc.maxY == 0.0)
  }

  /** The body of the span loop. */
  method ScanSpan(sc: Scan, sp: Span, ghost done: seq<Span>) returns (sc': Scan)
    requires Scanned(done, sc)
    ensures Scanned(done + [sp], sc')
  {
    KeptSpansSnoc(done, sp);
    RawTextSnoc(done, sp);
    sc' := sc;
    if !IsBlank(sp.text) {
      var spans := sc.spans + [sp];
      assert spans[..|spans| - 1] == sc.spans;
      sc' := Scan(sc.text + sp.text + " ", spans, true,
        if sc.seen then Min(sc.minX, sp.bbox.x0) else sp.bbox.x0,
        if sc.seen then Min(sc.minY, sp.bbox.y0) else sp.bbox.y0,
        Max(sc.maxX, sp.bbox.x1),
        Max(sc.maxY, sp.bbox.y1));
    }
  }

  /** The loop over one line's spans. */
  method ScanLine(sc: Scan, line: Line, ghost done: seq<Span>) returns (sc': Scan)
    requires Scanned(done, sc)
    ensures Scanned(done + line.spans, sc')
  {
    sc' := sc;
    assert done + line.spans[..0] == done;
    for si := 0 to |line.spans|
      invariant Scanned(done + line.spans[..si], sc')
    {
      assert done + line.spans[..si + 1] == (done + line.spans[..si]) + [line.spans[si]];
      sc' := ScanSpan(sc', line.spans[si], done + line.spans[..si]);
    }
    assert line.spans[..|line.spans|] == line.spans;
  }

  /** The span loop of `analyze_pdf` for one block. */
  method ExtractUnit(page: nat, kind: int, lines: seq<Line>, pageWidth: real, pageHeight: real)
    returns (u: Option<TextUnit>)
    ensures u == UnitOf(page, kind, lines, pageWidth, pageHeight)
  {
    var sc := Scan("", [], false, 0.0, 0.0, 0.0, 0.0);
    for li := 0 to |lines|
      invariant Scanned(LineSpans(lines[..li]), sc)
    {
      assert lines[..li + 1][..li] == lines[..li] && lines[..li + 1][li] == lines[li];
      sc := ScanLine(sc, lines[li], LineSpans(lines[..li]));
    }
    assert lines[..|lines|] == lines;
    if IsBlank(sc.text) {
      u := None;
    } else {
      RawTextBlank(LineSpans(lines));
      u := Some(TextUnit(page, Strip(sc.text), sc.spans, Rect(sc.minX, sc.minY, sc.maxX, sc.maxY), kind, pageWidth, pageHeight));
    }
  }

  /** The units of one page's merged blocks (each block that has a `lines` list). */
  function PageUnits(page: nat, bs: seq<Block>, pageWidth: real, pageHeight: real): seq<TextUnit>
    reads ListsOf(bs)
  {
    if bs == [] then []
    else
      var b := bs[|bs| - 1];
      var u := if b.lines.Some? then UnitOf(page, b.kind, b.lines.value.items, pageWidth, pageHeight) else None;
      PageUnits(page, bs[..|bs| - 1], pageWidth, pageHeight) + (if u.Some? then [u.value] else [])
  }

  /**
   * The units of the merge plan `p` over the sorted blocks `s`, given the
   * line lists' contents `orig` before the merge: each output block that
   * has a list yields the unit of the lines its entry stands for.
   */
  function PlanUnits(page: nat, s: seq<Block>, p: seq<Emit>, orig: seq<seq<Line>>, pageWidth: real, pageHeight: real): seq<TextUnit>
  {
    if p == [] then []
    else
      var e := p[|p| - 1];
      var b := Realize(s, e);
      var u := if b.lines.Some? then UnitOf(page, b.kind, EmitLines(orig, e), pageWidth, pageHeight) else None;
      PlanUnits(page, s, p[..|p| - 1], orig, pageWidth, pageHeight) + (if u.Some? then [u.value] else [])
  }

  /** Extracting from the merged blocks gives the units of the plan when every list holds its entry's lines. */
  lemma {:induction false} PageUnitsOfPlan(page: nat, s: seq<Block>, p: seq<Emit>, orig: seq<seq<Line>>, pageWidth: real, pageHeight: real)
    requires forall k :: 0 <= k < |p| && Realize(s, p[k]).lines.Some? ==> Realize(s, p[k]).lines.value.items == EmitLines(orig, p[k])
    ensures PageUnits(page, RealizeAll(s, p), pageWidth, pageHeight) == PlanUnits(page, s, p, orig, pageWidth, pageHeight)
  {
    if p != [] {
      var init := p[..|p| - 1];
      assert forall k :: 0 <= k < |init| ==> init[k] == p[k];
      PageUnitsOfPlan(page, s, init, orig, pageWidth, pageHeight);
      var bs := RealizeAll(s, p);
      assert bs[..|bs| - 1] == RealizeAll(s, init);
    }
  }

  /**
   * One page of `analyze_pdf`: merge its blocks, then extract a unit from
   * each merged block. The lists of the sorted blocks end up as the merge
   * plan says, and the units are those of the plan over the lines the
   * blocks held before.
   */
  method AnalyzePage(page: nat, blocks: seq<Block>, pageWidth: real, pageHeight: real)
    returns (units: seq<TextUnit>)
    requires DistinctLists(blocks)
    modifies ListsOf(blocks)
    ensures var s := SortByTop(blocks);
      units == PageUnits(page, RealizeAll(s, Plan(s)), pageWidth, pageHeight)
    ensures var s := SortByTop(blocks);
      forall j :: 0 <= j < |s| && s[j].lines.Some? ==>
        s[j].lines.value.items == FinalItems(old(ItemsOf(s)), Plan(s))[j]
    ensures var s := SortByTop(blocks);
      units == PlanUnits(page, s, Plan(s), old(ItemsOf(s)), pageWidth, pageHeight)
  {
    ghost var s := SortByTop(blocks);
    SortKeepsLists(blocks);
    ghost var orig := ItemsOf(s);
    var merged := MergeRelatedBlocks(blocks);
    units := ExtractAll(page, merged, pageWidth, pageHeight);
    RealizedItems(orig, s);
    PageUnitsOfPlan(page, s, Plan(s), orig, pageWidth, pageHeight);
  }

  /** The `for block in merged_blocks` loop: one unit per block with a non-blank `lines` list. */
  method ExtractAll(page: nat, merged: seq<Block>, pageWidth: real, pageHeight: real)
    returns (units: seq<TextUnit>)
    ensures units == PageUnits(page, merged, pageWidth, pageHeight)
  {
    units := [];
    var k := 0;
    while k < |merged|
      invariant k <= |merged|
      invariant units == PageUnits(page, merged[..k], pageWidth, pageHeight)
    {
      var b := merged[k];
      assert merged[..k + 1][..k] == merged[..k] && merged[..k + 1][k] == b;
      if b.lines.Some? {
        label Before:
        var u := ExtractUnit(page, b.kind, b.lines.value.items, pageWidth, pageHeight);
        assert unchanged@Before(ListsOf(merged[..k]));
        if u.Some? {
          units := units + [u.value];
        }
      }
      k := k + 1;
    }
    assert merged[..k] == merged;
  }

  /**
   * What extraction promises of every unit: non-empty text without whitespace
   * at either end whose words are those of its spans, at least one span, all
   * spans non-blank, and a box that covers each span.
   */
  predicate WellFormedUnit(u: TextUnit) {
    && u.text != [] && !IsSpace(u.text[0]) && !IsSpace(u.text[|u.text| - 1])
    && Words(u.text) == FlatWords(Texts(u.spans))
    && u.spans != []
    && (forall k :: 0 <= k < |u.spans| ==> Kept(u.spans[k]))
    && (forall k :: 0 <= k < |u.spans| ==> Contains(u.bbox, u.spans[k].bbox))
  }

  /** Every unit of a page is well formed and carries that page's number and size. */
  lemma {:induction false} PageUnitsWellFormed(page: nat, bs: seq<Block>, pageWidth: real, pageHeight: real)
    ensures forall u :: u in PageUnits(page, bs, pageWidth, pageHeight) ==>
      WellFormedUnit(u) && u.page == page && u.pageWidth == pageWidth && u.pageHeight == pageHeight
  {
    if bs != [] {
      var b := bs[|bs| - 1];
      PageUnitsWellFormed(page, bs[..|bs| - 1], pageWidth, pageHeight);
      if b.lines.Some? && UnitOf(page, b.kind, b.lines.value.items, pageWidth, pageHeight).Some? {
        UnitFacts(page, b.kind, b.lines.value.items, pageWidth, pageHeight);
      }
    }
  }

  /** A page as the PDF library reports it: its raw blocks and its size. */
  datatype Page = Page(blocks: seq<Block>, width: real, height: real)

  /** The line lists of all blocks of all pages. */
  function DocumentLists(pages: seq<Page>): set<LineList> {
    set p, l | 0 <= p < |pages| && l in ListsOf(pages[p].blocks) :: l
  }

  /**
   * The page loop of `analyze_pdf`: the units of each page in turn, so they
   * come in page order, each well formed and tagged with its page's size.
   */
  method AnalyzeDocument(pages: seq<Page>) returns (units: seq<TextUnit>)
    requires forall p :: 0 <= p < |pages| ==> DistinctLists(pages[p].blocks)
    modifies DocumentLists(pages)
    ensures forall k :: 0 <= k < |units| ==>
      && units[k].page < |pages| && WellFormedUnit(units[k])
      && units[k].pageWidth == pages[units[k].page].width
      && units[k].pageHeight == pages[units[k].page].height
    ensures forall j, k :: 0 <= j < k < |units| ==> units[j].page <= units[k].page
  {
    units := [];
    var p := 0;
    while p < |pages|
      invariant p <= |pages|
      invariant forall k :: 0 <= k < |units| ==>
        && units[k].page < p && WellFormedUnit(units[k])
        && units[k].pageWidth == pages[units[k].page].width
        && units[k].pageHeight == pages[units[k].page].height
      invariant forall j, k :: 0 <= j < k < |units| ==> units[j].page <= units[k].page
    {
      var pg := pages[p];
      assert ListsOf(pg.blocks) <= DocumentLists(pages);
      var more := AnalyzePage(p, pg.blocks, pg.width, pg.height);
      var s := SortByTop(pg.blocks);
      PageUnitsWellFormed(p, RealizeAll(s, Plan(s)), pg.width, pg.height);
      units := units + more;
      p := p + 1;
    }
  }
}
