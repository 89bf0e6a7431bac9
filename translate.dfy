/**
 * `translate_text`: blank text becomes empty; with paragraph preservation a
 * text of several paragraphs is translated paragraph by paragraph; otherwise
 * the translation service is tried up to `max_retries` times (a text over
 * `MaxChunkLength` characters is sent as sentence-packed chunks), and when
 * every attempt fails the dictionary fallback is used.
 *
 * The translation service is a `Provider`: given how many requests were made
 * before this one, the target language and the text, it returns the
 * translation or `None` when the request raises. Every function and method
 * threads that request counter through.
 */
module Translate {
  import opened Options
  import opened Strings
  import opened Splitting
  import opened Chunking
  import opened Fallback

  type Provider = (nat, string, string) -> Option<string>

  /** A result and the request counter after producing it. */
  datatype Outcome = Outcome(text: string, next: nat)

  /** The translations of the chunks sent so far, or `None` once a request failed. */
  datatype Sent = Sent(parts: Option<seq<string>>, next: nat)

  /** One attempt's result, or `None` when it raised. */
  datatype Reply = Reply(text: Option<string>, next: nat)

  /** Several results in order. */
  datatype Many = Many(texts: seq<string>, next: nat)

  /** The chunks a long text is sent as. */
  function ChunksOf(text: string): seq<string>
  {
    JoinEach(Groups(SplitSentences(text)))
  }

  /** The chunk loop: blank chunks are skipped; the first failing request ends the attempt. */
  function SendChunks(tr: Provider, lang: string, chunks: seq<string>, n: nat): (s: Sent)
    ensures s.next >= n && (s.parts.None? ==> s.next > n)
  {
    if chunks == [] then Sent(Some([]), n)
    else if IsBlank(chunks[0]) then SendChunks(tr, lang, chunks[1..], n)
    else
      match tr(n, lang, chunks[0])
      case None => Sent(None, n + 1)
      case Some(t) =>
        var rest := SendChunks(tr, lang, chunks[1..], n + 1);
        if rest.parts.Some? then Sent(Some([t] + rest.parts.value), rest.next) else rest
  }

  /** One pass of the `for attempt` loop's body. */
  function Attempt(tr: Provider, lang: string, text: string, n: nat): (r: Reply)
    ensures r.next >= n && (r.text.None? ==> r.next > n)
  {
    if |text| > MaxChunkLength then
      var s := SendChunks(tr, lang, ChunksOf(text), n);
      Reply(if s.parts.Some? then Some(Join(s.parts.value, " ")) else None, s.next)
    else
      Reply(tr(n, lang, text), n + 1)
  }

  /** `attempts` more attempts, then the dictionary fallback. */
  function Retry(tr: Provider, lang: string, text: string, attempts: nat, n: nat): (o: Outcome)
    ensures o.next >= n
    decreases attempts
  {
    if attempts == 0 then Outcome(FallbackOf(text, lang), n)
    else
      var a := Attempt(tr, lang, text, n);
      if a.text.Some? then Outcome(a.text.value, a.next) else Retry(tr, lang, text, attempts - 1, a.next)
  }

  /** `range(max_retries)` runs no attempt when `max_retries` is not positive. */
  function Attempts(maxRetries: int): nat {
    if maxRetries > 0 then maxRetries else 0
  }

  /** `translate_text` with paragraph preservation off. */
  function Plain(tr: Provider, lang: string, text: string, maxRetries: int, n: nat): Outcome
  {
    if IsBlank(text) then Outcome("", n) else Retry(tr, lang, text, Attempts(maxRetries), n)
  }

  /** A paragraph passed through untranslated in the multi-paragraph path. */
  predicate IsShort(p: string) {
    |p| < 3 || IsDigits(p)
  }

  /** The paragraph loop: short or numeric paragraphs as they are, the others translated. */
  function ParagraphResults(tr: Provider, lang: string, ps: seq<string>, maxRetries: int, n: nat): (m: Many)
    ensures |m.texts| == |ps|
    ensures forall k :: 0 <= k < |ps| && IsShort(ps[k]) ==> m.texts[k] == ps[k]
  {
    if ps == [] then Many([], n)
    else
      var first := if IsShort(ps[0]) then Outcome(ps[0], n) else Plain(tr, lang, ps[0], maxRetries, n);
      var rest := ParagraphResults(tr, lang, ps[1..], maxRetries, first.next);
      Many([first.text] + rest.texts, rest.next)
  }

  /** `translate_text(text, lang, max_retries, preserve_paragraphs)`. */
  function Translation(tr: Provider, lang: string, text: string, maxRetries: int, preserve: bool, n: nat): Outcome
  {
    if IsBlank(text) then Outcome("", n)
    else if preserve then
      var ps := Paragraphs(text);
      if ps == [] then Outcome("", n)
      else if |ps| > 1 then
        var m := ParagraphResults(tr, lang, ps, maxRetries, n);
        Outcome(Join(m.texts, "\n\n"), m.next)
      else Retry(tr, lang, text, Attempts(maxRetries), n)
    else Plain(tr, lang, text, maxRetries, n)
  }

  // ---------------------------------------------------------------------
  // Properties.

  /** A service that hands every text back unchanged. */
  ghost predicate Echoes(tr: Provider) {
    forall k, l, s :: tr(k, l, s) == Some(s)
  }

  /** A service whose every request raises. */
  ghost predicate Fails(tr: Provider) {
    forall k, l, s :: tr(k, l, s).None?
  }

  /** Cutting a long text into chunks loses nothing but whitespace. */
  lemma {:induction false} ChunksKeepWords(text: string)
    ensures FlatWords(ChunksOf(text)) == Words(text)
  {
    var ss := SplitSentences(text);
    WordsOfJoinEach(Groups(ss));
    GroupsCorrect(ss);
    WordsOfSentences(text);
  }

  lemma {:induction false} SendChunksEcho(tr: Provider, lang: string, chunks: seq<string>, n: nat)
    requires Echoes(tr)
    ensures var s := SendChunks(tr, lang, chunks, n);
      s.parts.Some? && FlatWords(s.parts.value) == FlatWords(chunks)
  {
    if chunks != [] {
      var c := chunks[0];
      var m := if IsBlank(c) then n else n + 1;
      SendChunksEcho(tr, lang, chunks[1..], m);
      var rest := SendChunks(tr, lang, chunks[1..], m);
      assert FlatWords(chunks) == Words(c) + FlatWords(chunks[1..]);
      if IsBlank(c) {
        WordsAreWords(c);
        assert SendChunks(tr, lang, chunks, n) == rest;
      } else {
        assert tr(n, lang, c) == Some(c);
        var ps := [c] + rest.parts.value;
        assert SendChunks(tr, lang, chunks, n) == Sent(Some(ps), rest.next);
        assert ps[0] == c && ps[1..] == rest.parts.value;
        assert FlatWords(ps) == Words(c) + FlatWords(rest.parts.value);
      }
    }
  }

  lemma {:induction false} SendChunksFail(tr: Provider, lang: string, chunks: seq<string>, n: nat)
    requires Fails(tr) && FlatWords(chunks) != []
    ensures SendChunks(tr, lang, chunks, n) == Sent(None, n + 1)
  {
    if IsBlank(chunks[0]) {
      WordsAreWords(chunks[0]);
      SendChunksFail(tr, lang, chunks[1..], n);
    } else {
      assert tr(n, lang, chunks[0]).None?;
    }
  }

  /** With a pass-through service an attempt succeeds, keeps the words, and gives a short text back as it is. */
  lemma {:induction false} AttemptEcho(tr: Provider, lang: string, text: string, n: nat)
    requires Echoes(tr)
    ensures var a := Attempt(tr, lang, text, n);
      a.text.Some? && Words(a.text.value) == Words(text) && (|text| <= MaxChunkLength ==> a.text.value == text)
  {
    if |text| > MaxChunkLength {
      SendChunksEcho(tr, lang, ChunksOf(text), n);
      var s := SendChunks(tr, lang, ChunksOf(text), n);
      assert IsSpace(' ');
      WordsOfJoin(s.parts.value, " ");
      ChunksKeepWords(text);
    } else {
      assert tr(n, lang, text) == Some(text);
    }
  }

  /** With a failing service an attempt on a non-blank text makes exactly one request and fails. */
  lemma AttemptFail(tr: Provider, lang: string, text: string, n: nat)
    requires Fails(tr) && !IsBlank(text)
    ensures Attempt(tr, lang, text, n) == Reply(None, n + 1)
  {
    if |text| > MaxChunkLength {
      ChunksKeepWords(text);
      WordsAreWords(text);
      SendChunksFail(tr, lang, ChunksOf(text), n);
    } else {
      assert tr(n, lang, text).None?;
    }
  }

  lemma {:induction false} RetryFail(tr: Provider, lang: string, text: string, attempts: nat, n: nat)
    requires Fails(tr) && !IsBlank(text)
    ensures Retry(tr, lang, text, attempts, n) == Outcome(FallbackOf(text, lang), n + attempts)
  {
    if attempts > 0 {
      AttemptFail(tr, lang, text, n);
      RetryFail(tr, lang, text, attempts - 1, n + 1);
    }
  }

  /**
   * When every request raises, a non-blank text costs exactly `max_retries`
   * requests and comes back through the dictionary fallback, never empty.
   */
  lemma FailingServiceFallsBack(tr: Provider, lang: string, text: string, maxRetries: int, n: nat)
    requires Fails(tr) && !IsBlank(text)
    ensures Plain(tr, lang, text, maxRetries, n) == Outcome(FallbackOf(text, lang), n + Attempts(maxRetries))
    ensures Plain(tr, lang, text, maxRetries, n).text != ""
  {
    RetryFail(tr, lang, text, Attempts(maxRetries), n);
    FallbackFacts(text, lang);
  }

  /**
   * When every request raises, the paragraph loop gives each short or
   * numeric paragraph back as it is and every other one through the
   * dictionary fallback.
   */
  lemma {:induction false} ParagraphsFail(tr: Provider, lang: string, ps: seq<string>, maxRetries: int, n: nat)
    requires Fails(tr) && AllStripped(ps)
    ensures var m := ParagraphResults(tr, lang, ps, maxRetries, n);
      forall k :: 0 <= k < |ps| ==> m.texts[k] == if IsShort(ps[k]) then ps[k] else FallbackOf(ps[k], lang)
  {
    if ps != [] {
      var p := ps[0];
      assert !IsBlank(p) by { assert !IsSpace(p[0]); }
      FailingServiceFallsBack(tr, lang, p, maxRetries, n);
      var first := if IsShort(p) then Outcome(p, n) else Plain(tr, lang, p, maxRetries, n);
      ParagraphsFail(tr, lang, ps[1..], maxRetries, first.next);
      var rest := ParagraphResults(tr, lang, ps[1..], maxRetries, first.next);
      var m := ParagraphResults(tr, lang, ps, maxRetries, n);
      assert m.texts == [first.text] + rest.texts;
      forall k | 1 <= k < |ps|
        ensures m.texts[k] == if IsShort(ps[k]) then ps[k] else FallbackOf(ps[k], lang)
      {
        assert m.texts[k] == rest.texts[k - 1] && ps[k] == ps[1..][k - 1];
      }
    }
  }

  /**
   * `translate_pdf`'s call, with paragraph preservation on: when every
   * request raises, a non-blank text still comes back non-empty, and a text
   * of one paragraph costs exactly `max_retries` requests and comes back
   * through the dictionary fallback.
   */
  lemma FailingServicePreserving(tr: Provider, lang: string, text: string, maxRetries: int, n: nat)
    requires Fails(tr) && !IsBlank(text)
    ensures Translation(tr, lang, text, maxRetries, true, n).text != ""
    ensures |Paragraphs(text)| == 1 ==>
      Translation(tr, lang, text, maxRetries, true, n) == Outcome(FallbackOf(text, lang), n + Attempts(maxRetries))
  {
    var ps := Paragraphs(text);
    NonBlankHasParagraph(text);
    if |ps| > 1 {
      var m := ParagraphResults(tr, lang, ps, maxRetries, n);
      JoinLength(m.texts, "\n\n");
    } else {
      RetryFail(tr, lang, text, Attempts(maxRetries), n);
      FallbackFacts(text, lang);
    }
  }

  /** With a pass-through service and at least one attempt, plain translation keeps the words. */
  lemma {:induction false} PlainEcho(tr: Provider, lang: string, text: string, maxRetries: int, n: nat)
    requires Echoes(tr) && maxRetries >= 1
    ensures Words(Plain(tr, lang, text, maxRetries, n).text) == Words(text)
    ensures !IsBlank(text) && |text| <= MaxChunkLength ==> Plain(tr, lang, text, maxRetries, n).text == text
  {
    if IsBlank(text) {
      WordsAreWords(text);
      WordsAreWords("");
    } else {
      AttemptEcho(tr, lang, text, n);
    }
  }

  /** Every text is non-blank and within the request limit. */
  predicate AllSendable(ps: seq<string>) {
    ps == [] || (!IsBlank(ps[0]) && |ps[0]| <= MaxChunkLength && AllSendable(ps[1..]))
  }

  /** Stripped paragraphs no longer than the limit can each be sent as they are. */
  lemma {:induction false} StrippedSendable(ps: seq<string>, bound: nat)
    requires AllStripped(ps) && bound <= MaxChunkLength
    requires forall p :: p in ps ==> |p| <= bound
    ensures AllSendable(ps)
  {
    if ps != [] {
      assert ps[0] in ps;
      assert !IsSpace(ps[0][0]);
      StrippedSendable(ps[1..], bound);
    }
  }

  /** Translating paragraph by paragraph with a pass-through service keeps the words. */
  lemma {:induction false} ParagraphsEchoWords(tr: Provider, lang: string, ps: seq<string>, maxRetries: int, n: nat)
    requires Echoes(tr) && maxRetries >= 1
    ensures FlatWords(ParagraphResults(tr, lang, ps, maxRetries, n).texts) == FlatWords(ps)
  {
    if ps != [] {
      var first := if IsShort(ps[0]) then Outcome(ps[0], n) else Plain(tr, lang, ps[0], maxRetries, n);
      PlainEcho(tr, lang, ps[0], maxRetries, n);
      ParagraphsEchoWords(tr, lang, ps[1..], maxRetries, first.next);
      var m := ParagraphResults(tr, lang, ps, maxRetries, n);
      assert m.texts[0] == first.text;
      assert m.texts[1..] == ParagraphResults(tr, lang, ps[1..], maxRetries, first.next).texts;
    }
  }

  /** ... and gives back paragraphs that are non-blank and within the request limit as they are. */
  lemma {:induction false} ParagraphsEchoSame(tr: Provider, lang: string, ps: seq<string>, maxRetries: int, n: nat)
    requires Echoes(tr) && maxRetries >= 1 && AllSendable(ps)
    ensures ParagraphResults(tr, lang, ps, maxRetries, n).texts == ps
  {
    if ps != [] {
      var first := if IsShort(ps[0]) then Outcome(ps[0], n) else Plain(tr, lang, ps[0], maxRetries, n);
      assert first.text == ps[0] by {
        PlainEcho(tr, lang, ps[0], maxRetries, n);
      }
      ParagraphsEchoSame(tr, lang, ps[1..], maxRetries, first.next);
      assert ps == [ps[0]] + ps[1..];
    }
  }

  /** With a pass-through service and at least one attempt, translation keeps every word of the text, in order. */
  lemma EchoKeepsWords(tr: Provider, lang: string, text: string, maxRetries: int, preserve: bool, n: nat)
    requires Echoes(tr) && maxRetries >= 1
    ensures Words(Translation(tr, lang, text, maxRetries, preserve, n).text) == Words(text)
  {
    PlainEcho(tr, lang, text, maxRetries, n);
    if !IsBlank(text) && preserve {
      var ps := Paragraphs(text);
      NonBlankHasParagraph(text);
      if |ps| > 1 {
        ParagraphsEchoWords(tr, lang, ps, maxRetries, n);
        ParagraphsKeepWords(text);
        assert IsBlank("\n\n") by { assert IsSpace('\n'); }
        WordsOfJoin(ParagraphResults(tr, lang, ps, maxRetries, n).texts, "\n\n");
      }
    }
  }

  /**
   * With a pass-through service and at least one attempt, a non-blank text
   * within the request limit comes back as it is, or, when it has several
   * paragraphs and they are preserved, as its stripped paragraphs joined by
   * blank lines.
   */
  lemma EchoWithinLimit(tr: Provider, lang: string, text: string, maxRetries: int, preserve: bool, n: nat)
    requires Echoes(tr) && maxRetries >= 1 && !IsBlank(text) && |text| <= MaxChunkLength
    ensures Translation(tr, lang, text, maxRetries, preserve, n).text ==
      if preserve && |Paragraphs(text)| > 1 then Join(Paragraphs(text), "\n\n") else text
  {
    PlainEcho(tr, lang, text, maxRetries, n);
    var ps := Paragraphs(text);
    if preserve && |ps| > 1 {
      ParagraphsKeepWords(text);
      ParagraphsWithin(text);
      StrippedSendable(ps, |text|);
      ParagraphsEchoSame(tr, lang, ps, maxRetries, n);
    } else if preserve {
      NonBlankHasParagraph(text);
    }
  }

  // ---------------------------------------------------------------------
  // The imperative code.

  /** The body of one attempt: one request, or the chunk loop for a long text. */
  method AttemptTranslation(tr: Provider, lang: string, text: string, n: nat) returns (r: Option<string>, next: nat)
    ensures Reply(r, next) == Attempt(tr, lang, text, n)
  {
    if |text| <= MaxChunkLength {
      return tr(n, lang, text), n + 1;
    }
    var chunks := PackChunks(SplitSentences(text));
    var parts;
    parts, next := SendAll(tr, lang, chunks, n);
    r := if parts.Some? then Some(Join(parts.value, " ")) else None;
  }

  /** The `for chunk in chunks` loop. */
  method SendAll(tr: Provider, lang: string, chunks: seq<string>, n: nat) returns (parts: Option<seq<string>>, next: nat)
    ensures Sent(parts, next) == SendChunks(tr, lang, chunks, n)
  {
    var translated: seq<string> := [];
    next := n;
    var k := 0;
    assert chunks[0..] == chunks;
    ghost var all := SendChunks(tr, lang, chunks, n);
    if all.parts.Some? {
      assert translated + all.parts.value == all.parts.value;
    }
    while k < |chunks|
      invariant k <= |chunks|
      invariant var rest := SendChunks(tr, lang, chunks[k..], next);
        SendChunks(tr, lang, chunks, n) ==
          if rest.parts.Some? then Sent(Some(translated + rest.parts.value), rest.next) else rest
    {
      assert chunks[k..][1..] == chunks[k + 1..];
      if !IsBlank(chunks[k]) {
        var t := tr(next, lang, chunks[k]);
        if t.None? {
          return None, next + 1;
        }
        var rest := SendChunks(tr, lang, chunks[k + 1..], next + 1);
        if rest.parts.Some? {
          assert translated + ([t.value] + rest.parts.value) == (translated + [t.value]) + rest.parts.value;
        }
        translated := translated + [t.value];
        next := next + 1;
      }
      k := k + 1;
    }
    assert chunks[k..] == [];
    assert translated + [] == translated;
    parts := Some(translated);
  }

  /** The retry loop, then the fallback; `max_retries` defaults to 3 in the source. */
  method RetryTranslation(tr: Provider, lang: string, text: string, maxRetries: int, n: nat)
    returns (r: string, next: nat)
    ensures Outcome(r, next) == Retry(tr, lang, text, Attempts(maxRetries), n)
  {
    next := n;
    var attempt := 0;
    while attempt < maxRetries
      invariant 0 <= attempt <= Attempts(maxRetries)
      invariant Retry(tr, lang, text, Attempts(maxRetries), n) == Retry(tr, lang, text, Attempts(maxRetries) - attempt, next)
    {
      var t;
      t, next := AttemptTranslation(tr, lang, text, next);
      if t.Some? {
        return t.value, next;
      }
      attempt := attempt + 1;
    }
    var translated := FallbackTranslation(text, lang);
    if translated != text {
      return translated, next;
    }
    return text, next;
  }

  /** `translate_text`. */
  method TranslateText(tr: Provider, lang: string, text: string, maxRetries: int, preserve: bool, n: nat)
    returns (r: string, next: nat)
    ensures Outcome(r, next) == Translation(tr, lang, text, maxRetries, preserve, n)
    decreases if preserve then 2 else 0
  {
    if IsBlank(text) {
      return "", n;
    }
    if preserve {
      var ps := Paragraphs(text);
      if ps == [] {
        return "", n;
      }
      if |ps| > 1 {
        var results;
        results, next := TranslateParagraphs(tr, lang, ps, maxRetries, n);
        return Join(results, "\n\n"), next;
      }
    }
    r, next := RetryTranslation(tr, lang, text, maxRetries, n);
  }

  /** After the first `k` paragraphs: `results` and `next` followed by what the rest yields make up the whole. */
  ghost predicate ParagraphsSoFar(tr: Provider, lang: string, ps: seq<string>, maxRetries: int, n: nat,
                                  k: nat, results: seq<string>, next: nat)
    requires k <= |ps|
  {
    var rest := ParagraphResults(tr, lang, ps[k..], maxRetries, next);
    ParagraphResults(tr, lang, ps, maxRetries, n) == Many(results + rest.texts, rest.next)
  }

  /** One pass of the paragraph loop keeps `ParagraphsSoFar`. */
  lemma ParagraphsAdvance(tr: Provider, lang: string, ps: seq<string>, maxRetries: int, n: nat,
                          k: nat, results: seq<string>, next: nat, t: string, next': nat)
    requires k < |ps| && ParagraphsSoFar(tr, lang, ps, maxRetries, n, k, results, next)
    requires Outcome(t, next') == if IsShort(ps[k]) then Outcome(ps[k], next) else Plain(tr, lang, ps[k], maxRetries, next)
    ensures ParagraphsSoFar(tr, lang, ps, maxRetries, n, k + 1, results + [t], next')
  {
    assert ps[k..][0] == ps[k] && ps[k..][1..] == ps[k + 1..];
    AppendAssoc(results, [t], ParagraphResults(tr, lang, ps[k + 1..], maxRetries, next').texts);
  }

  /** The `for paragraph in paragraphs` loop of the multi-paragraph path. */
  method TranslateParagraphs(tr: Provider, lang: string, ps: seq<string>, maxRetries: int, n: nat)
    returns (results: seq<string>, next: nat)
    ensures Many(results, next) == ParagraphResults(tr, lang, ps, maxRetries, n)
    decreases 1
  {
    results := [];
    next := n;
    assert ps[0..] == ps;
    for k := 0 to |ps|
      invariant ParagraphsSoFar(tr, lang, ps, maxRetries, n, k, results, next)
    {
      var p := ps[k];
      if |p| < 3 || IsDigits(p) {
        ParagraphsAdvance(tr, lang, ps, maxRetries, n, k, results, next, p, next);
        results := results + [p];
        continue;
      }
      ghost var before := next;
      var t;
      t, next := TranslateText(tr, lang, p, maxRetries, false, next);
      ParagraphsAdvance(tr, lang, ps, maxRetries, n, k, results, before, t, next);
      results := results + [t];
    }
    assert ps[|ps|..] == [];
    assert results + [] == results;
  }
}
