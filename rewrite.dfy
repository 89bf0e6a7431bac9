/**
 * The page loop of `translate_pdf`: the text units are grouped by page; on
 * each page every unit that passes the gate (a text block, at least three
 * characters after stripping, not all digits, holding a letter of one of the
 * supported scripts, at least 10 by 10 points) is translated, its box is
 * redacted, and the translation is written back line by line from the box's
 * top-left corner as long as the lines stay above the box's bottom edge.
 *
 * The PDF library's editing calls are recorded as `Command`s, in the order
 * they are made; progress is reported once per page.
 */
module Rewrite {
  import opened Options
  import opened Strings
  import opened Geometry
  import opened Blocks
  import opened Extract
  import opened Translate
  import opened Layout

  /** `translate_text`'s default `max_retries`, which `translate_pdf` keeps. */
  const MaxRetries: int := 3

  /** Blocks narrower or lower than this many points are skipped. */
  const MinBlockSize: real := 10.0

  /** A letter the gate looks for: ASCII letters, Cyrillic (U+0400 to U+04FF), Arabic (U+0600 to U+06FF), kana (U+3040 to U+30FF), CJK ideographs (U+4E00 to U+9FFF) or Hangul syllables (U+AC00 to U+D7AF). */
  predicate IsLetter(c: char) {
    var n := c as int;
    || ('a' <= c <= 'z') || ('A' <= c <= 'Z')
    || (0x0400 <= n <= 0x04FF) || (0x0600 <= n <= 0x06FF) || (0x3040 <= n <= 0x30FF)
    || (0x4E00 <= n <= 0x9FFF) || (0xAC00 <= n <= 0xD7AF)
  }

  /** The `re.search` of the gate succeeds. */
  predicate HasLetter(s: string) {
    exists i :: 0 <= i < |s| && IsLetter(s[i])
  }

  /** The gate: which units are translated and rewritten. */
  predicate Eligible(u: TextUnit) {
    var t := Strip(u.text);
    && u.kind == 0
    && t != [] && !IsDigits(t) && |t| >= 3
    && HasLetter(t)
    && Width(u.bbox) >= MinBlockSize && Height(u.bbox) >= MinBlockSize
  }

  /** An editing call on the output document. */
  datatype Command =
    | Redact(page: nat, area: Rect)
    | Insert(page: nat, x: real, y: real, line: string, size: real, color: int)

  /** The baseline of line `idx`: one font size below the top, then 1.3 font sizes per line. */
  function LineY(top: real, fontSize: real, idx: nat): real
  {
    top + fontSize + idx as real * (fontSize * 1.3)
  }

  /** The lines written into `area`: each one whose baseline is not below the bottom edge. */
  function InsertLines(page: nat, area: Rect, lines: seq<string>, fontSize: real, color: int): seq<Command>
  {
    if lines == [] then []
    else
      var i := |lines| - 1;
      var y := LineY(area.y0, fontSize, i);
      InsertLines(page, area, lines[..i], fontSize, color) +
        (if y <= area.y1 then [Insert(page, area.x0 + 2.0, y, lines[i], fontSize, color)] else [])
  }

  /** Commands and the request counter after them. */
  datatype Rendered = Rendered(commands: seq<Command>, next: nat)

  /**
   * One unit: nothing unless it passes the gate; otherwise its translation,
   * the redaction of its box and, when it has a span, the wrapped lines in
   * the first span's size (adjusted to the box) and colour.
   */
  function BlockCommands(tr: Provider, lang: string, u: TextUnit, n: nat): Rendered
  {
    if !Eligible(u) then Rendered([], n)
    else
      var o := Translation(tr, lang, Strip(u.text), MaxRetries, true, n);
      var redact := [Redact(u.page, u.bbox)];
      if u.spans == [] then Rendered(redact, o.next)
      else
        var w := Width(u.bbox);
        var size := FontSizeFor(o.text, w, u.spans[0].size);
        Rendered(redact + InsertLines(u.page, u.bbox, Wrap(o.text, size, w), size, u.spans[0].color), o.next)
  }

  /** The units of one page, in order. */
  function PageCommands(tr: Provider, lang: string, us: seq<TextUnit>, n: nat): Rendered
  {
    if us == [] then Rendered([], n)
    else
      var b := BlockCommands(tr, lang, us[0], n);
      var r := PageCommands(tr, lang, us[1..], b.next);
      Rendered(b.commands + r.commands, r.next)
  }

  /** `blocks_by_page[p]`: the units of page `p`, in their original order. */
  function OnPage(units: seq<TextUnit>, p: nat): seq<TextUnit>
  {
    if units == [] then []
    else
      var last := units[|units| - 1];
      OnPage(units[..|units| - 1], p) + (if last.page == p then [last] else [])
  }

  /** Pages `p` to `total - 1`, in order. */
  function DocCommands(tr: Provider, lang: string, units: seq<TextUnit>, total: nat, p: nat, n: nat): Rendered
    decreases total - p
  {
    if p >= total then Rendered([], n)
    else
      var a := PageCommands(tr, lang, OnPage(units, p), n);
      var r := DocCommands(tr, lang, units, total, p + 1, a.next);
      Rendered(a.commands + r.commands, r.next)
  }

  /** The progress value after page `p`. */
  function Progress(p: nat, total: nat): real
    requires total > 0
  {
    (p + 1) as real / total as real
  }

  /** The progress values reported after the first `k` pages. */
  function ProgressValues(k: nat, total: nat): seq<real>
    requires k <= total
  {
    if k == 0 then [] else ProgressValues(k - 1, total) + [Progress(k - 1, total)]
  }

  // ---------------------------------------------------------------------
  // Properties.

  /** A unit is on page `p`'s list exactly when it is one of the units and is on page `p`. */
  lemma {:induction false} OnPageMembers(units: seq<TextUnit>, p: nat)
    ensures forall u :: u in OnPage(units, p) <==> u in units && u.page == p
  {
    if units != [] {
      var init := units[..|units| - 1];
      OnPageMembers(init, p);
      assert units == init + [units[|units| - 1]];
    }
  }

  lemma LineYMonotone(top: real, fontSize: real, i: nat, j: nat)
    requires fontSize >= 0.0 && i <= j
    ensures top + fontSize <= LineY(top, fontSize, i) <= LineY(top, fontSize, j)
  {
    var h := fontSize * 1.3;
    assert h >= 0.0;
    assert i as real * h <= j as real * h;
  }

  /**
   * With a non-negative font size, the written lines are the first `m`
   * wrapped lines, in order, each at two points right of the box's left edge
   * and at its own baseline, which lies between the box's top plus one font
   * size and its bottom; the baseline of the first line left out is below
   * the box.
   */
  lemma {:induction false} InsertedPrefix(page: nat, area: Rect, lines: seq<string>, fontSize: real, color: int)
    returns (m: nat)
    requires fontSize >= 0.0
    ensures m <= |lines| && |InsertLines(page, area, lines, fontSize, color)| == m
    ensures forall i :: 0 <= i < m ==>
      InsertLines(page, area, lines, fontSize, color)[i] ==
        Insert(page, area.x0 + 2.0, LineY(area.y0, fontSize, i), lines[i], fontSize, color)
    ensures forall i :: 0 <= i < m ==> area.y0 + fontSize <= LineY(area.y0, fontSize, i) <= area.y1
    ensures m < |lines| ==> LineY(area.y0, fontSize, m) > area.y1
  {
    if lines == [] {
      return 0;
    }
    var k := |lines| - 1;
    var init := lines[..k];
    var m' := InsertedPrefix(page, area, init, fontSize, color);
    var y := LineY(area.y0, fontSize, k);
    var head := InsertLines(page, area, init, fontSize, color);
    forall i | 0 <= i < m' ensures area.y0 + fontSize <= LineY(area.y0, fontSize, i) {
      LineYMonotone(area.y0, fontSize, i, i);
    }
    if m' < k {
      LineYMonotone(area.y0, fontSize, m', k);
      m := m';
    } else if y <= area.y1 {
      LineYMonotone(area.y0, fontSize, k, k);
      m := k + 1;
    } else {
      m := k;
    }
    assert forall i :: 0 <= i < m' ==> init[i] == lines[i];
  }

  /**
   * A unit that fails the gate yields nothing and makes no request; one that
   * passes yields the redaction of its box first and then only line
   * insertions on its own page.
   */
  lemma {:induction false} BlockCommandsShape(tr: Provider, lang: string, u: TextUnit, n: nat)
    ensures var r := BlockCommands(tr, lang, u, n);
      && (r.commands == [] <==> !Eligible(u))
      && (!Eligible(u) ==> r.next == n)
      && (Eligible(u) ==> r.commands[0] == Redact(u.page, u.bbox))
      && (forall k :: 1 <= k < |r.commands| ==> r.commands[k].Insert? && r.commands[k].page == u.page)
  {
    if Eligible(u) && u.spans != [] {
      var o := Translation(tr, lang, Strip(u.text), MaxRetries, true, n);
      var w := Width(u.bbox);
      var size := FontSizeFor(o.text, w, u.spans[0].size);
      InsertsOnPage(u.page, u.bbox, Wrap(o.text, size, w), size, u.spans[0].color);
    }
  }

  lemma {:induction false} InsertsOnPage(page: nat, area: Rect, lines: seq<string>, fontSize: real, color: int)
    ensures forall c :: c in InsertLines(page, area, lines, fontSize, color) ==> c.Insert? && c.page == page
  {
    if lines != [] {
      InsertsOnPage(page, area, lines[..|lines| - 1], fontSize, color);
    }
  }

  /** The redactions among some commands, in order. */
  function Redactions(cs: seq<Command>): seq<Command>
  {
    if cs == [] then [] else (if cs[0].Redact? then [cs[0]] else []) + Redactions(cs[1..])
  }

  /** One redaction per unit that passes the gate, in order. */
  function GateRedactions(us: seq<TextUnit>): seq<Command>
  {
    if us == [] then [] else (if Eligible(us[0]) then [Redact(us[0].page, us[0].bbox)] else []) + GateRedactions(us[1..])
  }

  /** The expected redactions of pages `p` to `total - 1`. */
  function DocRedactions(units: seq<TextUnit>, total: nat, p: nat): seq<Command>
    decreases total - p
  {
    if p >= total then [] else GateRedactions(OnPage(units, p)) + DocRedactions(units, total, p + 1)
  }

  lemma {:induction false} RedactionsAppend(a: seq<Command>, b: seq<Command>)
    ensures Redactions(a + b) == Redactions(a) + Redactions(b)
  {
    if a != [] {
      assert (a + b)[1..] == a[1..] + b;
      RedactionsAppend(a[1..], b);
    } else {
      assert a + b == b;
    }
  }

  lemma {:induction false} BlockRedactions(tr: Provider, lang: string, u: TextUnit, n: nat)
    ensures Redactions(BlockCommands(tr, lang, u, n).commands) ==
      if Eligible(u) then [Redact(u.page, u.bbox)] else []
  {
    var cs := BlockCommands(tr, lang, u, n).commands;
    BlockCommandsShape(tr, lang, u, n);
    if Eligible(u) {
      assert cs == [cs[0]] + cs[1..];
      NoRedactions(cs[1..]);
    }
  }

  lemma {:induction false} NoRedactions(cs: seq<Command>)
    requires forall k :: 0 <= k < |cs| ==> cs[k].Insert?
    ensures Redactions(cs) == []
  {
    if cs != [] {
      NoRedactions(cs[1..]);
    }
  }

  lemma {:induction false} PageRedactions(tr: Provider, lang: string, us: seq<TextUnit>, n: nat)
    ensures Redactions(PageCommands(tr, lang, us, n).commands) == GateRedactions(us)
  {
    if us != [] {
      var b := BlockCommands(tr, lang, us[0], n);
      BlockRedactions(tr, lang, us[0], n);
      PageRedactions(tr, lang, us[1..], b.next);
      RedactionsAppend(b.commands, PageCommands(tr, lang, us[1..], b.next).commands);
    }
  }

  /**
   * Every unit that passes the gate has its box redacted exactly once, page by
   * page and in extraction order within a page, and nothing else is redacted.
   */
  lemma {:induction false} DocRedactionsExact(tr: Provider, lang: string, units: seq<TextUnit>, total: nat, p: nat, n: nat)
    ensures Redactions(DocCommands(tr, lang, units, total, p, n).commands) == DocRedactions(units, total, p)
    decreases total - p
  {
    if p < total {
      var a := PageCommands(tr, lang, OnPage(units, p), n);
      PageRedactions(tr, lang, OnPage(units, p), n);
      DocRedactionsExact(tr, lang, units, total, p + 1, a.next);
      RedactionsAppend(a.commands, DocCommands(tr, lang, units, total, p + 1, a.next).commands);
    }
  }

  lemma {:induction false} ProgressValuesAt(k: nat, total: nat)
    requires k <= total
    ensures |ProgressValues(k, total)| == k
    ensures forall p :: 0 <= p < k ==> ProgressValues(k, total)[p] == Progress(p, total)
  {
    if k > 0 {
      ProgressValuesAt(k - 1, total);
    }
  }

  /**
   * One progress value per page: they rise strictly from `1 / total` and end
   * at exactly 1.
   */
  lemma ProgressFacts(total: nat)
    ensures var s := ProgressValues(total, total);
      && |s| == total
      && (forall p :: 0 <= p < total ==> 0.0 < s[p] <= 1.0)
      && (forall p :: 0 <= p < total - 1 ==> s[p] < s[p + 1])
      && (total > 0 ==> s[total - 1] == 1.0)
  {
    ProgressValuesAt(total, total);
    forall p | 0 <= p < total ensures 0.0 < Progress(p, total) <= 1.0 {
      ProgressWithin(p, total);
    }
    forall p | 0 <= p < total - 1 ensures Progress(p, total) < Progress(p + 1, total) {
      ProgressRises(p, total);
    }
  }

  lemma ProgressWithin(p: nat, total: nat)
    requires p < total
    ensures 0.0 < Progress(p, total) <= 1.0
  {
    var t, q := total as real, (p + 1) as real;
    assert 0.0 < q <= t;
    assert q / t <= t / t;
  }

  lemma ProgressRises(p: nat, total: nat)
    requires p + 1 < total
    ensures Progress(p, total) < Progress(p + 1, total)
  {
    var t := total as real;
    assert (p + 1) as real < (p + 2) as real;
  }

  // ---------------------------------------------------------------------
  // The imperative code.

  /** `groups` holds, for each page with units, exactly that page's units. */
  ghost predicate GroupsOf(groups: map<nat, seq<TextUnit>>, units: seq<TextUnit>) {
    && (forall p :: p in groups <==> OnPage(units, p) != [])
    && (forall p :: p in groups ==> groups[p] == OnPage(units, p))
  }

  /** Building `blocks_by_page`. */
  method GroupByPage(units: seq<TextUnit>) returns (groups: map<nat, seq<TextUnit>>)
    ensures GroupsOf(groups, units)
  {
    groups := map[];
    for k := 0 to |units|
      invariant GroupsOf(groups, units[..k])
    {
      var u := units[k];
      assert units[..k + 1] == units[..k] + [u];
      ghost var before := groups;
      if u.page !in groups {
        groups := groups[u.page := []];
      }
      groups := groups[u.page := groups[u.page] + [u]];
      GroupsOfSnoc(before, units[..k], u);
    }
    assert units[..|units|] == units;
  }

  /** Appending a unit to its page's list keeps `groups` in step with one more unit. */
  lemma GroupsOfSnoc(groups: map<nat, seq<TextUnit>>, units: seq<TextUnit>, u: TextUnit)
    requires GroupsOf(groups, units)
    ensures var prev := if u.page in groups then groups[u.page] else [];
      GroupsOf(groups[u.page := prev + [u]], units + [u])
  {
    var us := units + [u];
    assert us[..|us| - 1] == units && us[|us| - 1] == u;
    forall p ensures OnPage(us, p) == OnPage(units, p) + (if u.page == p then [u] else []) {
    }
  }

  /** The line-insertion loop. */
  method PlaceLines(page: nat, rect: Rect, lines: seq<string>, size: real, color: int) returns (commands: seq<Command>)
    ensures commands == InsertLines(page, rect, lines, size, color)
  {
    commands := [];
    var lineHeight := size * 1.3;
    var startX := rect.x0 + 2.0;
    var startY := rect.y0 + size;
    for idx := 0 to |lines|
      invariant commands == InsertLines(page, rect, lines[..idx], size, color)
    {
      assert lines[..idx + 1][..idx] == lines[..idx];
      var y := startY + idx as real * lineHeight;
      if y <= rect.y1 {
        commands := commands + [Insert(page, startX, y, lines[idx], size, color)];
      }
    }
    assert lines[..|lines|] == lines;
  }

  /** The body of the block loop. */
  method RenderBlock(tr: Provider, lang: string, u: TextUnit, n: nat) returns (commands: seq<Command>, next: nat)
    ensures Rendered(commands, next) == BlockCommands(tr, lang, u, n)
  {
    commands, next := [], n;
    if u.kind != 0 {
      return;
    }
    var blockText := Strip(u.text);
    if blockText == [] || IsDigits(blockText) || |blockText| < 3 {
      return;
    }
    if !HasLetter(blockText) {
      return;
    }
    var rect := u.bbox;
    if Width(rect) < MinBlockSize || Height(rect) < MinBlockSize {
      return;
    }
    var translated;
    translated, next := TranslateText(tr, lang, blockText, MaxRetries, true, n);
    commands := [Redact(u.page, rect)];
    if |u.spans| > 0 {
      var span := u.spans[0];
      var rectWidth := Width(rect);
      var size := AdjustFontSize(translated, rectWidth, span.size);
      var lines := CalculateTextWrap(translated, size, rectWidth);
      var inserts := PlaceLines(u.page, rect, lines, size, span.color);
      commands := commands + inserts;
    }
  }

  /** The block loop of one page. */
  method RenderPage(tr: Provider, lang: string, us: seq<TextUnit>, n: nat) returns (commands: seq<Command>, next: nat)
    ensures Rendered(commands, next) == PageCommands(tr, lang, us, n)
  {
    commands, next := [], n;
    assert us[0..] == us;
    for k := 0 to |us|
      invariant var rest := PageCommands(tr, lang, us[k..], next);
        PageCommands(tr, lang, us, n) == Rendered(commands + rest.commands, rest.next)
    {
      assert us[k..][1..] == us[k + 1..];
      var more;
      ghost var rest := PageCommands(tr, lang, us[k + 1..], BlockCommands(tr, lang, us[k], next).next);
      more, next := RenderBlock(tr, lang, us[k], next);
      AppendAssoc(commands, more, rest.commands);
      commands := commands + more;
    }
    assert us[|us|..] == [];
    assert commands + [] == commands;
  }

  /** One pass of the page loop: the page's units when it has any, else nothing. */
  method RenderPageOf(tr: Provider, lang: string, units: seq<TextUnit>, groups: map<nat, seq<TextUnit>>,
                      page: nat, n: nat) returns (commands: seq<Command>, next: nat)
    requires GroupsOf(groups, units)
    ensures Rendered(commands, next) == PageCommands(tr, lang, OnPage(units, page), n)
  {
    if page in groups {
      commands, next := RenderPage(tr, lang, groups[page], n);
    } else {
      commands, next := [], n;
    }
  }

  /**
   * The page loop of `translate_pdf`: the editing commands of every page in
   * order, and the progress value reported after each page.
   */
  method RenderDocument(tr: Provider, lang: string, units: seq<TextUnit>, totalPages: nat, n: nat)
    returns (commands: seq<Command>, progress: seq<real>, next: nat)
    ensures Rendered(commands, next) == DocCommands(tr, lang, units, totalPages, 0, n)
    ensures progress == ProgressValues(totalPages, totalPages)
  {
    var groups := GroupByPage(units);
    commands := [];
    progress := [];
    next := n;
    for page := 0 to totalPages
      invariant var rest := DocCommands(tr, lang, units, totalPages, page, next);
        DocCommands(tr, lang, units, totalPages, 0, n) == Rendered(commands + rest.commands, rest.next)
      invariant progress == ProgressValues(page, totalPages)
    {
      ghost var rest := DocCommands(tr, lang, units, totalPages, page + 1,
        PageCommands(tr, lang, OnPage(units, page), next).next);
      var more;
      more, next := RenderPageOf(tr, lang, units, groups, page, next);
      AppendAssoc(commands, more, rest.commands);
      commands := commands + more;
      progress := progress + [(page + 1) as real / totalPages as real];
    }
    assert commands + [] == commands;
  }

  /**
   * `translate_pdf` on the extracted units of a document of `totalPages`
   * pages, every unit lying on one of them as extraction makes it: `None`
   * when there are no units or the document has no pages (an empty document
   * is falsy); otherwise the editing commands of every page in order, and
   * one progress value per page.
   */
  method TranslatePdf(tr: Provider, lang: string, units: seq<TextUnit>, totalPages: nat, n: nat)
    returns (out: Option<seq<Command>>, progress: seq<real>, next: nat)
    requires forall k :: 0 <= k < |units| ==> units[k].page < totalPages
    ensures units == [] || totalPages == 0 ==> out == None && progress == [] && next == n
    ensures units != [] && totalPages != 0 ==>
      && out == Some(DocCommands(tr, lang, units, totalPages, 0, n).commands)
      && next == DocCommands(tr, lang, units, totalPages, 0, n).next
      && progress == ProgressValues(totalPages, totalPages)
  {
    if units == [] || totalPages == 0 {
      return None, [], n;
    }
    var commands;
    commands, progress, next := RenderDocument(tr, lang, units, totalPages, n);
    out := Some(commands);
  }
}
