/**
 * `_merge_related_blocks`: blocks sorted by top edge are walked once with a
 * running accumulator. A text block close enough to the accumulator's
 * reference height is merged into it (its lines appended, the boxes
 * united); otherwise it closes the accumulator and starts a new one. Blocks
 * that are not text are emitted as they come and leave the accumulator open.
 *
 * The walk is first stated as a plan over positions of the sorted list
 * (`Plan`), which the lemmas below characterise; the method then performs
 * it on the real blocks, mutating the line lists in place.
 */
module Merge {
  import opened Options
  import opened Geometry
  import opened Blocks
  import Strings

  /** `max_y_gap`. */
  const MaxYGap: real := 15.0

  /** One output block: a block passed through, or the merge of several text blocks. */
  datatype Emit = Pass(i: nat) | Group(members: seq<nat>, box: Rect)

  /** The open accumulator: the positions merged so far and their united box. */
  datatype Acc = Acc(members: seq<nat>, box: Rect)

  /** `merged_blocks`, `current_block` and `current_y` during the walk. */
  datatype MState = MState(out: seq<Emit>, cur: Option<Acc>, curY: real)

  function Abs(x: real): real {
    if x < 0.0 then -x else x
  }

  /** The accumulator as an output block, if there is one. */
  function Closed(st: MState): seq<Emit> {
    if st.cur.Some? then [Group(st.cur.value.members, st.cur.value.box)] else []
  }

  /** A text block starts a new accumulator. */
  predicate StartsGroup(st: MState, b: Block) {
    st.cur.None? || Abs(Top(b) - st.curY) > MaxYGap
  }

  /**
   * One iteration of the walk on the block at sorted position `i`. After a
   * fresh start the reference height is the block's top edge; after a merge
   * it is the bottom edge of the united box.
   */
  function Step(st: MState, i: nat, b: Block): MState {
    if !IsText(b) then st.(out := st.out + [Pass(i)])
    else if StartsGroup(st, b) then MState(st.out + Closed(st), Some(Acc([i], b.bbox)), Top(b))
    else
      var box := Union(st.cur.value.box, b.bbox);
      MState(st.out, Some(Acc(st.cur.value.members + [i], box)), box.y1)
  }

  /** The state after walking the whole of `s`. */
  function Run(s: seq<Block>): MState {
    if s == [] then MState([], None, 0.0) else Step(Run(s[..|s| - 1]), |s| - 1, s[|s| - 1])
  }

  /** The output of the walk over the sorted blocks `s`. */
  function Plan(s: seq<Block>): seq<Emit> {
    Run(s).out + Closed(Run(s))
  }

  // ---------------------------------------------------------------------
  // What the plan is made of.

  /** Positions of the text blocks of `s`, in increasing order. */
  function TextPositions(s: seq<Block>): seq<nat> {
    if s == [] then [] else TextPositions(s[..|s| - 1]) + (if IsText(s[|s| - 1]) then [|s| - 1] else [])
  }

  /** Positions of the other blocks of `s`, in increasing order. */
  function OtherPositions(s: seq<Block>): seq<nat> {
    if s == [] then [] else OtherPositions(s[..|s| - 1]) + (if IsText(s[|s| - 1]) then [] else [|s| - 1])
  }

  /** The positions merged into the output's groups, group after group. */
  function Grouped(p: seq<Emit>): seq<nat> {
    if p == [] then []
    else Grouped(p[..|p| - 1]) + (if p[|p| - 1].Group? then p[|p| - 1].members else [])
  }

  /** The positions passed through, in output order. */
  function Passed(p: seq<Emit>): seq<nat> {
    if p == [] then []
    else Passed(p[..|p| - 1]) + (if p[|p| - 1].Pass? then [p[|p| - 1].i] else [])
  }

  function CurMembers(st: MState): seq<nat> {
    if st.cur.Some? then st.cur.value.members else []
  }

  /** An output entry refers to blocks of `s` of the right kind, and a group's box covers its members. */
  predicate WellFormedEmit(s: seq<Block>, e: Emit) {
    match e
    case Pass(i) => i < |s| && !IsText(s[i])
    case Group(ms, box) =>
      ms != [] && forall m :: m in ms ==> m < |s| && IsText(s[m]) && Contains(box, s[m].bbox)
  }

  predicate WellFormed(s: seq<Block>, p: seq<Emit>) {
    forall k :: 0 <= k < |p| ==> WellFormedEmit(s, p[k])
  }

  lemma GroupedSnoc(p: seq<Emit>, e: Emit)
    ensures Grouped(p + [e]) == Grouped(p) + (if e.Group? then e.members else [])
    ensures Passed(p + [e]) == Passed(p) + (if e.Pass? then [e.i] else [])
  {
    assert (p + [e])[..|p|] == p;
  }

  /** One step adds the block's position to the grouped positions if it is text, to the passed ones otherwise. */
  lemma StepPositions(st: MState, i: nat, b: Block)
    ensures Grouped(Step(st, i, b).out) + CurMembers(Step(st, i, b))
      == Grouped(st.out) + CurMembers(st) + (if IsText(b) then [i] else [])
    ensures Passed(Step(st, i, b).out) == Passed(st.out) + (if IsText(b) then [] else [i])
  {
    if !IsText(b) {
      GroupedSnoc(st.out, Pass(i));
    } else if StartsGroup(st, b) {
      if st.cur.Some? {
        GroupedSnoc(st.out, Group(st.cur.value.members, st.cur.value.box));
      } else {
        assert st.out + Closed(st) == st.out;
      }
    }
  }

  lemma {:induction false} RunPositions(s: seq<Block>)
    ensures Grouped(Run(s).out) + CurMembers(Run(s)) == TextPositions(s)
    ensures Passed(Run(s).out) == OtherPositions(s)
  {
    if s != [] {
      RunPositions(s[..|s| - 1]);
      StepPositions(Run(s[..|s| - 1]), |s| - 1, s[|s| - 1]);
    }
  }

  /**
   * Every text block goes into exactly one group, the groups taking them in
   * sorted order, and every other block is passed through exactly once, in
   * sorted order.
   */
  lemma PlanPositions(s: seq<Block>)
    ensures Grouped(Plan(s)) == TextPositions(s)
    ensures Passed(Plan(s)) == OtherPositions(s)
  {
    var st := Run(s);
    RunPositions(s);
    if st.cur.Some? {
      GroupedSnoc(st.out, Group(st.cur.value.members, st.cur.value.box));
    } else {
      assert Plan(s) == st.out;
    }
  }

  /** `TextPositions` lists each text block's position once, in increasing order, and nothing else. */
  lemma {:induction false} TextPositionsExact(s: seq<Block>)
    ensures forall k :: 0 <= k < |TextPositions(s)| ==>
      TextPositions(s)[k] < |s| && IsText(s[TextPositions(s)[k]])
    ensures forall k, l :: 0 <= k < l < |TextPositions(s)| ==> TextPositions(s)[k] < TextPositions(s)[l]
    ensures forall j :: 0 <= j < |s| && IsText(s[j]) ==> j in TextPositions(s)
  {
    if s != [] {
      var init := s[..|s| - 1];
      TextPositionsExact(init);
      forall j | 0 <= j < |s| - 1 && IsText(s[j]) ensures j in TextPositions(s) {
        assert s[j] == init[j];
      }
    }
  }

  lemma LiftEmit(init: seq<Block>, s: seq<Block>, e: Emit)
    requires |init| <= |s| && init == s[..|init|] && WellFormedEmit(init, e)
    ensures WellFormedEmit(s, e)
  {
    match e
    case Pass(i) =>
    case Group(ms, box) =>
      forall m | m in ms ensures m < |s| && IsText(s[m]) && Contains(box, s[m].bbox) {
        assert s[m] == init[m];
      }
  }

  lemma {:induction false} RunWellFormed(s: seq<Block>)
    ensures WellFormed(s, Run(s).out)
    ensures Run(s).cur.Some? ==> WellFormedEmit(s, Group(Run(s).cur.value.members, Run(s).cur.value.box))
  {
    if s != [] {
      var init, i := s[..|s| - 1], |s| - 1;
      var st := Run(init);
      RunWellFormed(init);
      forall k | 0 <= k < |st.out| ensures WellFormedEmit(s, st.out[k]) {
        LiftEmit(init, s, st.out[k]);
      }
      if st.cur.Some? {
        LiftEmit(init, s, Group(st.cur.value.members, st.cur.value.box));
      }
    }
  }

  /** Every output entry is well formed: in particular, a merged box contains the box of every block merged into it. */
  lemma PlanWellFormed(s: seq<Block>)
    ensures WellFormed(s, Plan(s))
  {
    RunWellFormed(s);
  }

  /** Each edge of `box` is the same edge of some block at a position in `ms`. */
  predicate EdgesAttained(s: seq<Block>, ms: seq<nat>, box: Rect) {
    && (exists m :: m in ms && m < |s| && s[m].bbox.x0 == box.x0)
    && (exists m :: m in ms && m < |s| && s[m].bbox.y0 == box.y0)
    && (exists m :: m in ms && m < |s| && s[m].bbox.x1 == box.x1)
    && (exists m :: m in ms && m < |s| && s[m].bbox.y1 == box.y1)
  }

  predicate BoxAttained(s: seq<Block>, e: Emit) {
    e.Group? ==> EdgesAttained(s, e.members, e.box)
  }

  lemma LiftAttained(init: seq<Block>, s: seq<Block>, ms: seq<nat>, box: Rect)
    requires |init| <= |s| && init == s[..|init|] && EdgesAttained(init, ms, box)
    ensures EdgesAttained(s, ms, box)
  {
    var a :| a in ms && a < |init| && init[a].bbox.x0 == box.x0;
    var b :| b in ms && b < |init| && init[b].bbox.y0 == box.y0;
    var c :| c in ms && c < |init| && init[c].bbox.x1 == box.x1;
    var d :| d in ms && d < |init| && init[d].bbox.y1 == box.y1;
    assert s[a] == init[a] && s[b] == init[b] && s[c] == init[c] && s[d] == init[d];
  }

  /** Uniting the box with one more block's keeps every edge attained. */
  lemma MergeAttained(s: seq<Block>, ms: seq<nat>, box: Rect, i: nat)
    requires i < |s| && EdgesAttained(s, ms, box)
    ensures EdgesAttained(s, ms + [i], Union(box, s[i].bbox))
  {
    var u, ms' := Union(box, s[i].bbox), ms + [i];
    assert i in ms';
    var a :| a in ms && a < |s| && s[a].bbox.x0 == box.x0;
    var b :| b in ms && b < |s| && s[b].bbox.y0 == box.y0;
    var c :| c in ms && c < |s| && s[c].bbox.x1 == box.x1;
    var d :| d in ms && d < |s| && s[d].bbox.y1 == box.y1;
    assert a in ms' && b in ms' && c in ms' && d in ms';
    if u.x0 == box.x0 { assert s[a].bbox.x0 == u.x0; } else { assert s[i].bbox.x0 == u.x0; }
    if u.y0 == box.y0 { assert s[b].bbox.y0 == u.y0; } else { assert s[i].bbox.y0 == u.y0; }
    if u.x1 == box.x1 { assert s[c].bbox.x1 == u.x1; } else { assert s[i].bbox.x1 == u.x1; }
    if u.y1 == box.y1 { assert s[d].bbox.y1 == u.y1; } else { assert s[i].bbox.y1 == u.y1; }
  }

  lemma {:induction false} RunAttained(s: seq<Block>)
    ensures forall k :: 0 <= k < |Run(s).out| ==> BoxAttained(s, Run(s).out[k])
    ensures Run(s).cur.Some? ==> EdgesAttained(s, Run(s).cur.value.members, Run(s).cur.value.box)
  {
    if s != [] {
      var init, i := s[..|s| - 1], |s| - 1;
      var st := Run(init);
      RunAttained(init);
      forall k | 0 <= k < |st.out| && st.out[k].Group? ensures EdgesAttained(s, st.out[k].members, st.out[k].box) {
        LiftAttained(init, s, st.out[k].members, st.out[k].box);
      }
      if st.cur.Some? {
        LiftAttained(init, s, st.cur.value.members, st.cur.value.box);
      }
      var b := s[i];
      if IsText(b) {
        if StartsGroup(st, b) {
          assert i in [i];
        } else {
          MergeAttained(s, st.cur.value.members, st.cur.value.box, i);
        }
      }
    }
  }

  /**
   * A merged block's box is exactly the union of its members' boxes: it
   * contains each of them, and each of its edges is the same edge of some
   * member.
   */
  lemma PlanBoxesExact(s: seq<Block>)
    ensures forall k :: 0 <= k < |Plan(s)| ==> WellFormedEmit(s, Plan(s)[k]) && BoxAttained(s, Plan(s)[k])
  {
    RunWellFormed(s);
    RunAttained(s);
  }

  // ---------------------------------------------------------------------
  // What happens to the line lists.

  /** The lines of the blocks at `ms`, in that order, as they were before the walk. */
  function Gather(orig: seq<seq<Line>>, ms: seq<nat>): seq<Line> {
    if ms == [] then []
    else Gather(orig, ms[..|ms| - 1]) + (if ms[|ms| - 1] < |orig| then orig[ms[|ms| - 1]] else [])
  }

  /**
   * The contents of every line list after the walk, given their contents
   * `orig` before it: a group's first block, whose list the merged block
   * shares, ends up holding the lines of all the group's members; every
   * other list is left as it was.
   */
  function FinalItems(orig: seq<seq<Line>>, p: seq<Emit>): (r: seq<seq<Line>>)
    ensures |r| == |orig|
  {
    if p == [] then orig
    else
      var r := FinalItems(orig, p[..|p| - 1]);
      var e := p[|p| - 1];
      if e.Group? && e.members != [] && e.members[0] < |r| then r[e.members[0] := Gather(orig, e.members)] else r
  }

  /** The lines of the output's groups, read group after group. */
  function GroupLines(orig: seq<seq<Line>>, p: seq<Emit>): seq<Line> {
    if p == [] then []
    else GroupLines(orig, p[..|p| - 1]) + (if p[|p| - 1].Group? then Gather(orig, p[|p| - 1].members) else [])
  }

  lemma {:induction false} GatherAppend(orig: seq<seq<Line>>, a: seq<nat>, b: seq<nat>)
    ensures Gather(orig, a + b) == Gather(orig, a) + Gather(orig, b)
    decreases |b|
  {
    if b == [] {
      assert a + b == a;
    } else {
      var b', x := b[..|b| - 1], b[|b| - 1];
      var tail := if x < |orig| then orig[x] else [];
      GatherAppend(orig, a, b');
      assert b == b' + [x] && a + b == (a + b') + [x];
      GatherSnoc(orig, a + b', x);
      GatherSnoc(orig, b', x);
      Strings.AppendAssoc(Gather(orig, a), Gather(orig, b'), tail);
    }
  }

  lemma {:induction false} GroupLinesGrouped(orig: seq<seq<Line>>, p: seq<Emit>)
    ensures GroupLines(orig, p) == Gather(orig, Grouped(p))
  {
    if p != [] {
      var e := p[|p| - 1];
      GroupLinesGrouped(orig, p[..|p| - 1]);
      GatherAppend(orig, Grouped(p[..|p| - 1]), if e.Group? then e.members else []);
    }
  }

  /**
   * Read in output order, the merged groups hold the lines of every text
   * block exactly once, block after block in sorted order.
   */
  lemma MergedLinesInOrder(orig: seq<seq<Line>>, s: seq<Block>)
    ensures GroupLines(orig, Plan(s)) == Gather(orig, TextPositions(s))
  {
    PlanPositions(s);
    GroupLinesGrouped(orig, Plan(s));
  }

  /** The groups of `p` start at strictly increasing positions. */
  predicate HeadsIncreasing(p: seq<Emit>) {
    forall k, l :: 0 <= k < l < |p| && p[k].Group? && p[l].Group? && p[k].members != [] && p[l].members != [] ==>
      p[k].members[0] < p[l].members[0]
  }

  /** Every group closed so far starts before the open one. */
  predicate HeadsBefore(out: seq<Emit>, h: nat) {
    forall k :: 0 <= k < |out| && out[k].Group? && out[k].members != [] ==> out[k].members[0] < h
  }

  /** Closed groups start in increasing order, and the open group after all of them. */
  predicate HeadsOrdered(st: MState) {
    && HeadsIncreasing(st.out)
    && (st.cur.Some? ==> st.cur.value.members != [] && HeadsBefore(st.out, st.cur.value.members[0]))
  }

  /** One step keeps the heads ordered when every head so far lies before the new block. */
  lemma StepHeads(st: MState, i: nat, b: Block)
    requires HeadsOrdered(st) && HeadsBefore(st.out, i)
    requires st.cur.Some? ==> st.cur.value.members[0] < i
    ensures HeadsOrdered(Step(st, i, b))
  {
    var st' := Step(st, i, b);
    if !IsText(b) {
      assert st'.out == st.out + [Pass(i)];
      assert forall k :: 0 <= k < |st.out| ==> st'.out[k] == st.out[k];
    } else if StartsGroup(st, b) {
      if st.cur.Some? {
        var g := Group(st.cur.value.members, st.cur.value.box);
        assert st'.out == st.out + [g];
        assert forall k :: 0 <= k < |st.out| ==> st'.out[k] == st.out[k];
      } else {
        assert st'.out == st.out;
      }
    } else {
      assert (st.cur.value.members + [i])[0] == st.cur.value.members[0];
    }
  }

  lemma {:induction false} RunHeads(s: seq<Block>)
    ensures HeadsOrdered(Run(s))
  {
    if s != [] {
      var init, i := s[..|s| - 1], |s| - 1;
      var st := Run(init);
      RunHeads(init);
      RunWellFormed(init);
      forall k | 0 <= k < |st.out| && st.out[k].Group? && st.out[k].members != [] ensures st.out[k].members[0] < i {
        assert WellFormedEmit(init, st.out[k]) && st.out[k].members[0] in st.out[k].members;
      }
      if st.cur.Some? {
        assert st.cur.value.members[0] in st.cur.value.members;
      }
      StepHeads(st, i, s[i]);
    }
  }

  lemma PlanHeads(s: seq<Block>)
    ensures HeadsIncreasing(Plan(s))
  {
    var st := Run(s);
    RunHeads(s);
    if st.cur.Some? {
      var p := st.out + [Group(st.cur.value.members, st.cur.value.box)];
      assert forall k :: 0 <= k < |st.out| ==> p[k] == st.out[k];
    } else {
      assert Plan(s) == st.out;
    }
  }

  /**
   * When group heads are distinct, each group's first list ends up holding
   * exactly the lines of all its members: no later group overwrites it.
   */
  lemma {:induction false} FinalItemsHeads(orig: seq<seq<Line>>, p: seq<Emit>)
    requires HeadsIncreasing(p)
    ensures forall k :: 0 <= k < |p| && p[k].Group? && p[k].members != [] && p[k].members[0] < |orig| ==>
      FinalItems(orig, p)[p[k].members[0]] == Gather(orig, p[k].members)
  {
    if p != [] {
      var init, e := p[..|p| - 1], p[|p| - 1];
      FinalItemsHeads(orig, init);
      forall k | 0 <= k < |p| - 1 && p[k].Group? && p[k].members != [] && p[k].members[0] < |orig|
        ensures FinalItems(orig, p)[p[k].members[0]] == Gather(orig, p[k].members)
      {
        assert init[k] == p[k];
      }
    }
  }

  /** What a plan entry's block holds, given the lists' contents before the walk. */
  function EmitLines(orig: seq<seq<Line>>, e: Emit): seq<Line> {
    match e
    case Pass(i) => if i < |orig| then orig[i] else []
    case Group(ms, _) => Gather(orig, ms)
  }

  /** One output block of a plan with distinct heads holds what its entry stands for. */
  lemma {:induction false} RealizedItemAt(orig: seq<seq<Line>>, s: seq<Block>, p: seq<Emit>, k: nat)
    requires |orig| == |s| && WellFormed(s, p) && HeadsIncreasing(p) && k < |p|
    requires ListsHold(s, FinalItems(orig, p))
    ensures Realize(s, p[k]).lines.Some? ==> Realize(s, p[k]).lines.value.items == EmitLines(orig, p[k])
  {
    assert WellFormedEmit(s, p[k]);
    if p[k].Pass? {
      var i := p[k].i;
      forall l | 0 <= l < |p| && p[l].Group? && p[l].members != [] ensures p[l].members[0] != i {
        assert WellFormedEmit(s, p[l]) && p[l].members[0] in p[l].members;
      }
      FinalItemsUntouched(orig, p, i);
    } else {
      FinalItemsHeads(orig, p);
      assert p[k].members[0] in p[k].members;
    }
  }

  /**
   * After the walk, every output block that has a line list holds the lines
   * its plan entry stands for: a passed block its own, a merged block those
   * of all its members in order.
   */
  lemma {:induction false} RealizedItems(orig: seq<seq<Line>>, s: seq<Block>)
    requires |orig| == |s| && ListsHold(s, FinalItems(orig, Plan(s)))
    ensures var p := Plan(s);
      forall k :: 0 <= k < |p| && Realize(s, p[k]).lines.Some? ==> Realize(s, p[k]).lines.value.items == EmitLines(orig, p[k])
  {
    var p := Plan(s);
    PlanWellFormed(s);
    PlanHeads(s);
    forall k | 0 <= k < |p| ensures Realize(s, p[k]).lines.Some? ==> Realize(s, p[k]).lines.value.items == EmitLines(orig, p[k]) {
      RealizedItemAt(orig, s, p, k);
    }
  }

  /** The lines of the text blocks of `bs`, read block after block. */
  function TextLines(bs: seq<Block>): seq<Line>
    reads ListsOf(bs)
  {
    if bs == [] then []
    else
      var b := bs[|bs| - 1];
      assert b.lines.Some? ==> b.lines.value in ListsOf(bs);
      TextLines(bs[..|bs| - 1]) + (if IsText(b) then b.lines.value.items else [])
  }

  lemma {:induction false} TextLinesOfPlan(orig: seq<seq<Line>>, s: seq<Block>, p: seq<Emit>)
    requires WellFormed(s, p)
    requires forall k :: 0 <= k < |p| && Realize(s, p[k]).lines.Some? ==> Realize(s, p[k]).lines.value.items == EmitLines(orig, p[k])
    ensures TextLines(RealizeAll(s, p)) == GroupLines(orig, p)
  {
    if p != [] {
      var init, e := p[..|p| - 1], p[|p| - 1];
      assert forall k :: 0 <= k < |init| ==> init[k] == p[k];
      TextLinesOfPlan(orig, s, init);
      var bs := RealizeAll(s, p);
      assert bs[..|bs| - 1] == RealizeAll(s, init);
      assert WellFormedEmit(s, e);
      if e.Group? {
        assert e.members[0] in e.members;
      }
    }
  }

  /**
   * After the walk, the merged text blocks' own lists, read in output order,
   * hold the lines of every text block exactly once, block after block in
   * sorted order.
   */
  lemma {:induction false} MergedListsInOrder(orig: seq<seq<Line>>, s: seq<Block>)
    requires |orig| == |s| && ListsHold(s, FinalItems(orig, Plan(s)))
    ensures TextLines(RealizeAll(s, Plan(s))) == Gather(orig, TextPositions(s))
  {
    PlanWellFormed(s);
    RealizedItems(orig, s);
    TextLinesOfPlan(orig, s, Plan(s));
    MergedLinesInOrder(orig, s);
  }

  /** A list no group starts at keeps its contents. */
  lemma {:induction false} FinalItemsUntouched(orig: seq<seq<Line>>, p: seq<Emit>, j: nat)
    requires j < |orig|
    requires forall k :: 0 <= k < |p| && p[k].Group? && p[k].members != [] ==> p[k].members[0] != j
    ensures FinalItems(orig, p)[j] == orig[j]
  {
    if p != [] {
      FinalItemsUntouched(orig, p[..|p| - 1], j);
    }
  }

  lemma FinalItemsSnoc(orig: seq<seq<Line>>, p: seq<Emit>, e: Emit)
    ensures FinalItems(orig, p + [e]) ==
      var r := FinalItems(orig, p);
      if e.Group? && e.members != [] && e.members[0] < |r| then r[e.members[0] := Gather(orig, e.members)] else r
  {
    assert (p + [e])[..|p|] == p;
  }

  lemma GatherSnoc(orig: seq<seq<Line>>, ms: seq<nat>, m: nat)
    ensures Gather(orig, ms + [m]) == Gather(orig, ms) + (if m < |orig| then orig[m] else [])
  {
    assert (ms + [m])[..|ms|] == ms;
  }

  lemma RunSnoc(s: seq<Block>, i: nat)
    requires i < |s|
    ensures Run(s[..i + 1]) == Step(Run(s[..i]), i, s[i])
  {
    assert s[..i + 1][..i] == s[..i];
  }

  /** Before the block at `i` is walked, no group starts at it, so its list is as it was. */
  lemma NotYetHead(orig: seq<seq<Line>>, s: seq<Block>, i: nat)
    requires i < |s| && |orig| == |s|
    ensures FinalItems(orig, Plan(s[..i]))[i] == orig[i]
  {
    var p := Plan(s[..i]);
    PlanWellFormed(s[..i]);
    forall k | 0 <= k < |p| && p[k].Group? && p[k].members != [] ensures p[k].members[0] != i {
      assert WellFormedEmit(s[..i], p[k]);
      assert p[k].members[0] in p[k].members;
    }
    FinalItemsUntouched(orig, p, i);
  }

  /** Passing a block through leaves every list's final contents as they were. */
  lemma StepItemsPass(orig: seq<seq<Line>>, s: seq<Block>, i: nat)
    requires i < |s| && |orig| == |s| && !IsText(s[i])
    ensures FinalItems(orig, Plan(s[..i + 1])) == FinalItems(orig, Plan(s[..i]))
  {
    var st := Run(s[..i]);
    RunSnoc(s, i);
    FinalItemsSnoc(orig, st.out, Pass(i));
    if st.cur.Some? {
      var g := Group(st.cur.value.members, st.cur.value.box);
      assert Plan(s[..i]) == st.out + [g];
      assert Plan(s[..i + 1]) == (st.out + [Pass(i)]) + [g];
      FinalItemsSnoc(orig, st.out + [Pass(i)], g);
      FinalItemsSnoc(orig, st.out, g);
    } else {
      assert Plan(s[..i]) == st.out;
      assert Plan(s[..i + 1]) == st.out + [Pass(i)];
    }
  }

  /** Starting a group at a block leaves every list's final contents as they were. */
  lemma StepItemsStart(orig: seq<seq<Line>>, s: seq<Block>, i: nat)
    requires i < |s| && |orig| == |s| && IsText(s[i]) && StartsGroup(Run(s[..i]), s[i])
    ensures FinalItems(orig, Plan(s[..i + 1])) == FinalItems(orig, Plan(s[..i]))
  {
    var p := Plan(s[..i]);
    RunSnoc(s, i);
    assert Plan(s[..i + 1]) == p + [Group([i], s[i].bbox)];
    FinalItemsSnoc(orig, p, Group([i], s[i].bbox));
    GatherSnoc(orig, [], i);
    assert Gather(orig, [i]) == orig[i];
    NotYetHead(orig, s, i);
    var f := FinalItems(orig, p);
    assert FinalItems(orig, Plan(s[..i + 1])) == f[i := orig[i]];
    assert f[i := orig[i]] == f;
  }

  /** Merging a block appends its lines to the list of the group's first block. */
  lemma StepItemsMerge(orig: seq<seq<Line>>, s: seq<Block>, i: nat)
    requires i < |s| && |orig| == |s| && IsText(s[i]) && !StartsGroup(Run(s[..i]), s[i])
    ensures var st := Run(s[..i]);
      var f := FinalItems(orig, Plan(s[..i]));
      st.cur.value.members != [] && st.cur.value.members[0] < i &&
      FinalItems(orig, Plan(s[..i + 1])) == f[st.cur.value.members[0] := f[st.cur.value.members[0]] + orig[i]]
  {
    var st := Run(s[..i]);
    var p := Plan(s[..i]);
    RunSnoc(s, i);
    PlanWellFormed(s[..i]);
    var g := Group(st.cur.value.members, st.cur.value.box);
    assert p == st.out + [g];
    assert WellFormedEmit(s[..i], p[|p| - 1]);
    assert g.members[0] in g.members;
    FinalItemsSnoc(orig, st.out, g);
    FinalItemsSnoc(orig, st.out, Group(st.cur.value.members + [i], Union(st.cur.value.box, s[i].bbox)));
    GatherSnoc(orig, st.cur.value.members, i);
  }

  /**
   * The output block for an entry: the block at a `Pass` position, or a
   * copy of a group's first block carrying the united box. (Entries of a
   * plan always refer to blocks of `s`, see `PlanWellFormed`; the last
   * alternative only makes the function total.)
   */
  function Realize(s: seq<Block>, e: Emit): Block {
    if e.Pass? && e.i < |s| then s[e.i]
    else if e.Group? && e.members != [] && e.members[0] < |s| then s[e.members[0]].(bbox := e.box)
    else Block(-1, Rect(0.0, 0.0, 0.0, 0.0), None)
  }

  function RealizeAll(s: seq<Block>, p: seq<Emit>): (r: seq<Block>)
    ensures |r| == |p|
  {
    if p == [] then [] else RealizeAll(s, p[..|p| - 1]) + [Realize(s, p[|p| - 1])]
  }

  lemma RealizeSnoc(s: seq<Block>, p: seq<Emit>, e: Emit)
    ensures RealizeAll(s, p + [e]) == RealizeAll(s, p) + [Realize(s, e)]
  {
    assert (p + [e])[..|p|] == p;
  }

  /** The open accumulator as the block `current_block`. */
  function Current(s: seq<Block>, st: MState): Option<Block> {
    if st.cur.Some? then Some(Realize(s, Group(st.cur.value.members, st.cur.value.box))) else None
  }

  lemma CurrentAfterStart(s: seq<Block>, st: MState, i: nat)
    requires i < |s| && IsText(s[i]) && StartsGroup(st, s[i])
    ensures Current(s, Step(st, i, s[i])) == Some(s[i])
  {
  }

  lemma CurrentAfterMerge(s: seq<Block>, st: MState, i: nat)
    requires i < |s| && IsText(s[i]) && !StartsGroup(st, s[i])
    requires st.cur.value.members != [] && st.cur.value.members[0] < |s|
    ensures var c := Current(s, st).value;
      Current(s, Step(st, i, s[i])) == Some(c.(bbox := Union(c.bbox, s[i].bbox)))
  {
    assert (st.cur.value.members + [i])[0] == st.cur.value.members[0];
  }

  /**
   * The loop of `MergeRelatedBlocks` after `i` blocks: `st` is the walk so
   * far, `merged`, `cur` and `curY` are its concrete counterparts, and `f`
   * holds what every line list contains by the end of the walk so far.
   */
  ghost predicate Tracks(s: seq<Block>, i: nat, orig: seq<seq<Line>>, f: seq<seq<Line>>, st: MState,
                         merged: seq<Block>, cur: Option<Block>, curY: real)
  {
    i <= |s| && |orig| == |s| && f == FinalItems(orig, Plan(s[..i])) && st == Run(s[..i]) &&
    merged == RealizeAll(s, st.out) && cur == Current(s, st) && curY == st.curY
  }

  lemma TracksPass(s: seq<Block>, i: nat, orig: seq<seq<Line>>, f: seq<seq<Line>>, st: MState,
                   merged: seq<Block>, cur: Option<Block>, curY: real) returns (st': MState)
    requires Tracks(s, i, orig, f, st, merged, cur, curY) && i < |s| && !IsText(s[i])
    ensures Tracks(s, i + 1, orig, f, st', merged + [s[i]], cur, curY)
  {
    st' := Step(st, i, s[i]);
    RunSnoc(s, i);
    StepItemsPass(orig, s, i);
    RealizeSnoc(s, st.out, Pass(i));
  }

  lemma TracksStart(s: seq<Block>, i: nat, orig: seq<seq<Line>>, f: seq<seq<Line>>, st: MState,
                    merged: seq<Block>, cur: Option<Block>, curY: real) returns (st': MState)
    requires Tracks(s, i, orig, f, st, merged, cur, curY) && i < |s| && IsText(s[i])
    requires cur.None? || Abs(Top(s[i]) - curY) > MaxYGap
    ensures f[i] == orig[i]
    ensures Tracks(s, i + 1, orig, f, st',
                   merged + (if cur.Some? then [cur.value] else []), Some(s[i]), Top(s[i]))
  {
    st' := Step(st, i, s[i]);
    RunSnoc(s, i);
    NotYetHead(orig, s, i);
    StepItemsStart(orig, s, i);
    CurrentAfterStart(s, st, i);
    if cur.Some? {
      RealizeSnoc(s, st.out, Group(st.cur.value.members, st.cur.value.box));
    } else {
      assert st.out + Closed(st) == st.out;
    }
  }

  lemma TracksMerge(s: seq<Block>, i: nat, orig: seq<seq<Line>>, f: seq<seq<Line>>, st: MState,
                    merged: seq<Block>, cur: Option<Block>, curY: real)
    returns (st': MState, h: nat, f': seq<seq<Line>>)
    requires Tracks(s, i, orig, f, st, merged, cur, curY) && i < |s| && IsText(s[i])
    requires cur.Some? && Abs(Top(s[i]) - curY) <= MaxYGap
    ensures h < i && IsText(s[h]) && cur.value.lines == s[h].lines && f[i] == orig[i]
    ensures f' == f[h := f[h] + orig[i]]
    ensures var c := cur.value;
      var box := Union(c.bbox, s[i].bbox);
      Tracks(s, i + 1, orig, f', st', merged, Some(c.(bbox := box)), box.y1)
  {
    st' := Step(st, i, s[i]);
    RunSnoc(s, i);
    NotYetHead(orig, s, i);
    StepItemsMerge(orig, s, i);
    RunWellFormed(s[..i]);
    h := st.cur.value.members[0];
    assert h in st.cur.value.members && s[..i][h] == s[h];
    CurrentAfterMerge(s, st, i);
    f' := f[h := f[h] + orig[i]];
  }

  /** Each block's line list holds what `f` says it does. */
  ghost predicate ListsHold(s: seq<Block>, f: seq<seq<Line>>)
    reads ListsOf(s)
  {
    |f| == |s| && forall j :: 0 <= j < |s| && s[j].lines.Some? ==> s[j].lines.value.items == f[j]
  }

  /** `current_block["lines"].extend(block["lines"])`: only the group head's list grows. */
  method ExtendGroup(s: seq<Block>, head: LineList, ghost h: nat, i: nat, ghost f: seq<seq<Line>>)
    requires DistinctLists(s) && h < |s| && i < |s| && h != i
    requires s[h].lines == Some(head) && s[i].lines.Some? && ListsHold(s, f)
    modifies head
    ensures ListsHold(s, f[h := f[h] + f[i]])
  {
    head.Extend(s[i].lines.value.items);
  }

  /**
   * The merge itself. The output follows `Plan` over the sorted blocks; each
   * merged block shares the line list of its group's first block (the copy
   * is shallow), and that list now holds the lines of the whole group.
   */
  method MergeRelatedBlocks(blocks: seq<Block>) returns (merged: seq<Block>)
    requires DistinctLists(blocks)
    modifies ListsOf(blocks)
    ensures blocks == [] ==> merged == []
    ensures merged == RealizeAll(SortByTop(blocks), Plan(SortByTop(blocks)))
    ensures var s := SortByTop(blocks);
      forall j :: 0 <= j < |s| && s[j].lines.Some? ==>
        s[j].lines.value.items == FinalItems(old(ItemsOf(s)), Plan(s))[j]
    ensures TextLines(merged) == Gather(old(ItemsOf(SortByTop(blocks))), TextPositions(SortByTop(blocks)))
  {
    if blocks == [] {
      return [];
    }
    var s := SortByTop(blocks);
    SortKeepsLists(blocks);
    ghost var orig := ItemsOf(s);
    merged := Walk(s);
    MergedListsInOrder(orig, s);
  }

  /** The loop of `merge_related_blocks` over blocks already sorted by top edge. */
  method Walk(s: seq<Block>) returns (merged: seq<Block>)
    requires DistinctLists(s)
    modifies ListsOf(s)
    ensures merged == RealizeAll(s, Plan(s))
    ensures ListsHold(s, FinalItems(old(ItemsOf(s)), Plan(s)))
  {
    ghost var orig := ItemsOf(s);
    ghost var f := orig;
    ghost var st := Run([]);
    merged := [];
    var cur: Option<Block> := None;
    var curY: real := 0.0;
    var i := 0;
    while i < |s|
      invariant Tracks(s, i, orig, f, st, merged, cur, curY)
      invariant ListsHold(s, f)
    {
      merged, cur, curY, f, st := Advance(s, i, orig, f, st, merged, cur, curY);
      i := i + 1;
    }
    assert s[..i] == s;
    if cur.Some? {
      RealizeSnoc(s, st.out, Group(st.cur.value.members, st.cur.value.box));
      merged := merged + [cur.value];
    } else {
      assert Plan(s) == st.out;
    }
  }

  /** One pass of the loop: block `s[i]` passes through, starts a group, or joins the open one. */
  method Advance(s: seq<Block>, i: nat, ghost orig: seq<seq<Line>>, ghost f: seq<seq<Line>>, ghost st: MState,
                 merged: seq<Block>, cur: Option<Block>, curY: real)
    returns (merged': seq<Block>, cur': Option<Block>, curY': real, ghost f': seq<seq<Line>>, ghost st': MState)
    requires DistinctLists(s) && i < |s|
    requires Tracks(s, i, orig, f, st, merged, cur, curY) && ListsHold(s, f)
    modifies ListsOf(s)
    ensures Tracks(s, i + 1, orig, f', st', merged', cur', curY') && ListsHold(s, f')
  {
    var b := s[i];
    merged', cur', curY', f' := merged, cur, curY, f;
    if !IsText(b) {
      st' := TracksPass(s, i, orig, f, st, merged, cur, curY);
      merged' := merged + [b];
    } else if cur.None? || Abs(Top(b) - curY) > MaxYGap {
      st' := TracksStart(s, i, orig, f, st, merged, cur, curY);
      if cur.Some? {
        merged' := merged + [cur.value];
      }
      cur' := Some(b);
      curY' := Top(b);
    } else {
      ghost var h;
      st', h, f' := TracksMerge(s, i, orig, f, st, merged, cur, curY);
      var c := cur.value;
      ExtendGroup(s, c.lines.value, h, i, f);
      var box := Union(c.bbox, b.bbox);
      cur' := Some(c.(bbox := box));
      curY' := box.y1;
    }
  }
}
