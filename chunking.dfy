/**
 * How `translate_text` cuts a long text into request-sized pieces: the
 * sentences are packed greedily, in order, into groups whose sentence
 * lengths add up to at most `MaxChunkLength`; a sentence that would push the
 * running total past the limit starts a new group, unless the current group
 * is still empty. The joining spaces are not counted, and a single sentence
 * longer than the limit forms a group of its own.
 */
module Chunking {
  import opened Strings

  /** `max_length`. */
  const MaxChunkLength: nat := 4000

  /** The loop state: finished groups, the open group and its running length. */
  datatype Packing = Packing(done: seq<seq<string>>, cur: seq<string>, len: nat)

  /** One pass of the sentence loop. */
  function PackStep(p: Packing, s: string): Packing
  {
    if p.len + |s| > MaxChunkLength && p.cur != [] then Packing(p.done + [p.cur], [s], |s|)
    else Packing(p.done, p.cur + [s], p.len + |s|)
  }

  function PackAll(ss: seq<string>): Packing
  {
    if ss == [] then Packing([], [], 0) else PackStep(PackAll(ss[..|ss| - 1]), ss[|ss| - 1])
  }

  /** The groups of sentences, one per chunk, in order. */
  function Groups(ss: seq<string>): seq<seq<string>>
  {
    var p := PackAll(ss);
    p.done + (if p.cur != [] then [p.cur] else [])
  }

  /** `" ".join(group)` for each group. */
  function JoinEach(gs: seq<seq<string>>): (r: seq<string>)
    ensures |r| == |gs|
  {
    if gs == [] then [] else JoinEach(gs[..|gs| - 1]) + [Join(gs[|gs| - 1], " ")]
  }

  /** A group of two or more sentences stays within the limit. */
  predicate Fits(g: seq<string>) {
    |g| >= 2 ==> SumLengths(g) <= MaxChunkLength
  }

  predicate AllFit(gs: seq<seq<string>>) {
    forall k :: 0 <= k < |gs| ==> Fits(gs[k])
  }

  predicate NoneEmpty(gs: seq<seq<string>>) {
    forall k :: 0 <= k < |gs| ==> gs[k] != []
  }

  /** Each group but the last was closed because the next sentence would not fit. */
  predicate Greedy(gs: seq<seq<string>>) {
    forall k :: 0 <= k < |gs| - 1 && gs[k + 1] != [] ==> SumLengths(gs[k]) + |gs[k + 1][0]| > MaxChunkLength
  }

  // ---------------------------------------------------------------------

  lemma {:induction false} FlattenSnoc<T>(a: seq<seq<T>>, x: seq<T>)
    ensures Flatten(a + [x]) == Flatten(a) + x
  {
    FlattenAppend(a, [x]);
    assert Flatten([x]) == x + Flatten([x][1..]);
    assert [x][1..] == [];
  }

  /** One pass keeps the running length in step and appends the sentence to what was packed. */
  lemma PackStepPartition(p: Packing, s: string)
    requires p.len == SumLengths(p.cur)
    ensures var q := PackStep(p, s);
      q.len == SumLengths(q.cur) && Flatten(q.done) + q.cur == (Flatten(p.done) + p.cur) + [s] && q.cur != []
  {
    if p.len + |s| > MaxChunkLength && p.cur != [] {
      FlattenSnoc(p.done, p.cur);
      assert SumLengths([s]) == |s| + SumLengths([s][1..]) && [s][1..] == [];
    } else {
      SumLengthsSnoc(p.cur, s);
      AppendAssoc(Flatten(p.done), p.cur, [s]);
    }
  }

  /** The running length is the open group's length, and nothing is lost or reordered. */
  lemma {:induction false} PackPartition(ss: seq<string>)
    ensures var p := PackAll(ss);
      p.len == SumLengths(p.cur) && Flatten(p.done) + p.cur == ss && (ss != [] ==> p.cur != [])
  {
    if ss != [] {
      var init, s := ss[..|ss| - 1], ss[|ss| - 1];
      PackPartition(init);
      PackStepPartition(PackAll(init), s);
      assert init + [s] == ss;
    }
  }

  /** The finished groups are non-empty and keep the limit, and so does the open one. */
  predicate DoneGood(p: Packing) {
    NoneEmpty(p.done) && AllFit(p.done) && Fits(p.cur)
  }

  /** The finished groups are greedy, and the open one could not have joined the last of them. */
  predicate GreedySoFar(p: Packing) {
    && Greedy(p.done)
    && (p.done != [] ==> p.cur != [] && SumLengths(p.done[|p.done| - 1]) + |p.cur[0]| > MaxChunkLength)
  }

  lemma PackStepGood(p: Packing, s: string)
    requires DoneGood(p) && p.len == SumLengths(p.cur)
    ensures DoneGood(PackStep(p, s))
  {
    var q := PackStep(p, s);
    if p.len + |s| > MaxChunkLength && p.cur != [] {
      assert q.done == p.done + [p.cur] && q.cur == [s];
      forall k | 0 <= k < |q.done| ensures q.done[k] != [] && Fits(q.done[k]) {
        if k < |p.done| { assert q.done[k] == p.done[k]; }
      }
    } else {
      SumLengthsSnoc(p.cur, s);
      assert q.cur == p.cur + [s];
    }
  }

  lemma PackStepGreedy(p: Packing, s: string)
    requires GreedySoFar(p) && p.len == SumLengths(p.cur)
    ensures GreedySoFar(PackStep(p, s))
  {
    var q := PackStep(p, s);
    if p.len + |s| > MaxChunkLength && p.cur != [] {
      var d := q.done;
      assert d == p.done + [p.cur];
      forall k | 0 <= k < |d| - 1 && d[k + 1] != [] ensures SumLengths(d[k]) + |d[k + 1][0]| > MaxChunkLength {
        if k < |p.done| - 1 {
          assert d[k] == p.done[k] && d[k + 1] == p.done[k + 1];
        } else {
          assert d[k] == p.done[|p.done| - 1] && d[k + 1] == p.cur;
        }
      }
    } else if p.done != [] {
      assert q.cur[0] == p.cur[0];
    }
  }

  /** Every finished group is non-empty and keeps the limit when it has two or more sentences. */
  lemma {:induction false} PackDoneGood(ss: seq<string>)
    ensures DoneGood(PackAll(ss))
  {
    if ss != [] {
      var init := ss[..|ss| - 1];
      PackDoneGood(init);
      PackPartition(init);
      PackStepGood(PackAll(init), ss[|ss| - 1]);
    }
  }

  /** Consecutive groups could not have been packed together. */
  lemma {:induction false} PackGreedy(ss: seq<string>)
    ensures GreedySoFar(PackAll(ss))
  {
    if ss != [] {
      var init := ss[..|ss| - 1];
      PackGreedy(init);
      PackPartition(init);
      PackStepGreedy(PackAll(init), ss[|ss| - 1]);
    }
  }

  /**
   * The groups partition the sentences in order; none is empty; a group of
   * two or more sentences adds up to at most the limit; and each group was
   * closed only because the next sentence would have pushed it past the limit.
   */
  lemma GroupsCorrect(ss: seq<string>)
    ensures Flatten(Groups(ss)) == ss
    ensures NoneEmpty(Groups(ss)) && AllFit(Groups(ss)) && Greedy(Groups(ss))
  {
    PackPartition(ss);
    PackDoneGood(ss);
    PackGreedy(ss);
    var p := PackAll(ss);
    var gs := Groups(ss);
    if p.cur != [] {
      FlattenSnoc(p.done, p.cur);
      forall k | 0 <= k < |gs| ensures gs[k] != [] && Fits(gs[k]) {
        if k < |p.done| { assert gs[k] == p.done[k]; }
      }
      forall k | 0 <= k < |gs| - 1 && gs[k + 1] != [] ensures SumLengths(gs[k]) + |gs[k + 1][0]| > MaxChunkLength {
        assert gs[k] == p.done[k];
        if k < |p.done| - 1 { assert gs[k + 1] == p.done[k + 1]; }
      }
    } else {
      assert ss == [] && gs == [];
    }
  }

  /** The chunks hold exactly the words of the sentences, in order. */
  lemma {:induction false} WordsOfJoinEach(gs: seq<seq<string>>)
    ensures FlatWords(JoinEach(gs)) == FlatWords(Flatten(gs))
  {
    if gs != [] {
      var init, g := gs[..|gs| - 1], gs[|gs| - 1];
      WordsOfJoinEach(init);
      FlatWordsAppend(JoinEach(init), [Join(g, " ")]);
      FlatWordsSingle(Join(g, " "));
      WordsOfJoin(g, " ");
      assert init + [g] == gs;
      FlattenSnoc(init, g);
      FlatWordsAppend(Flatten(init), g);
    }
  }

  /** The `k`-th chunk is the `k`-th group joined with single spaces. */
  lemma {:induction false} JoinEachAt(gs: seq<seq<string>>, k: nat)
    requires k < |gs|
    ensures JoinEach(gs)[k] == Join(gs[k], " ")
  {
    if k < |gs| - 1 {
      JoinEachAt(gs[..|gs| - 1], k);
    }
  }

  /**
   * The real size of each chunk sent: its sentences' lengths plus one
   * joining space per sentence after the first. A chunk of two or more
   * sentences is therefore at most `MaxChunkLength` plus its joining spaces.
   */
  lemma ChunkLengths(ss: seq<string>)
    ensures var gs := Groups(ss);
      forall k :: 0 <= k < |gs| ==>
        && |JoinEach(gs)[k]| == SumLengths(gs[k]) + |gs[k]| - 1
        && (|gs[k]| >= 2 ==> |JoinEach(gs)[k]| <= MaxChunkLength + |gs[k]| - 1)
  {
    var gs := Groups(ss);
    GroupsCorrect(ss);
    forall k | 0 <= k < |gs|
      ensures |JoinEach(gs)[k]| == SumLengths(gs[k]) + |gs[k]| - 1
    {
      JoinEachAt(gs, k);
      JoinLength(gs[k], " ");
    }
    assert AllFit(gs);
  }

  /** The sentence-packing loop of `translate_text`. */
  method PackChunks(sentences: seq<string>) returns (chunks: seq<string>)
    ensures chunks == JoinEach(Groups(sentences))
  {
    chunks := [];
    var current: seq<string> := [];
    var currentLength: nat := 0;
    ghost var p := PackAll([]);
    for k := 0 to |sentences|
      invariant p == PackAll(sentences[..k])
      invariant chunks == JoinEach(p.done) && current == p.cur && currentLength == p.len
    {
      var s := sentences[k];
      assert sentences[..k + 1][..k] == sentences[..k];
      if currentLength + |s| > MaxChunkLength && current != [] {
        chunks := chunks + [Join(current, " ")];
        current := [s];
        currentLength := |s|;
      } else {
        current := current + [s];
        currentLength := currentLength + |s|;
      }
      p := PackStep(p, s);
    }
    assert sentences[..|sentences|] == sentences;
    if current != [] {
      chunks := chunks + [Join(current, " ")];
    }
  }
}
