/**
 * The page structure the PDF library hands to the translator: blocks made of
 * lines made of spans. A block's `lines` list is a mutable object shared by
 * every shallow copy of the block, so it is a class; the rest are values.
 */
module Blocks {
  import opened Options
  import opened Geometry
  import opened Strings

  /** A run of text with one font size and colour (`span["text"]`, `["bbox"]`, `["size"]`, `["color"]`). */
  datatype Span = Span(text: string, bbox: Rect, size: real, color: int)

  datatype Line = Line(spans: seq<Span>)

  /** The list object behind `block["lines"]`. */
  class LineList {
    var items: seq<Line>

    /** `list.extend(more)`. */
    method Extend(more: seq<Line>)
      modifies this
      ensures items == old(items) + more
    {
      items := items + more;
    }
  }

  /**
   * A block: its `type` (0 for text), its `bbox`, and its `lines` list when
   * the block has one (image blocks have none).
   */
  datatype Block = Block(kind: int, bbox: Rect, lines: Option<LineList>)

  /** `block.get("type", 0) == 0 and "lines" in block`. */
  predicate IsText(b: Block) {
    b.kind == 0 && b.lines.Some?
  }

  /** The sort key `b["bbox"][1]`. */
  function Top(b: Block): real {
    b.bbox.y0
  }

  /** The line lists the blocks own. */
  function ListsOf(bs: seq<Block>): set<LineList> {
    set i | 0 <= i < |bs| && bs[i].lines.Some? :: bs[i].lines.value
  }

  /** No two blocks share a line list, as with freshly extracted page blocks. */
  predicate DistinctLists(bs: seq<Block>) {
    forall i, j :: 0 <= i < |bs| && 0 <= j < |bs| && i != j && bs[i].lines.Some? && bs[j].lines.Some? ==>
      bs[i].lines.value != bs[j].lines.value
  }

  /** The current contents of each block's line list (empty for a block without one). */
  function ItemsOf(bs: seq<Block>): (r: seq<seq<Line>>)
    reads ListsOf(bs)
    ensures |r| == |bs|
    ensures forall i :: 0 <= i < |bs| && bs[i].lines.Some? ==> r[i] == bs[i].lines.value.items
    ensures forall i :: 0 <= i < |bs| && bs[i].lines.None? ==> r[i] == []
  {
    if bs == [] then []
    else
      var last := bs[|bs| - 1];
      ItemsOf(bs[..|bs| - 1]) + [if last.lines.Some? then last.lines.value.items else []]
  }

  // ---------------------------------------------------------------------
  // `sorted(blocks, key=top)`: Python's sort is stable.

  predicate SortedByTop(t: seq<Block>) {
    forall i, j :: 0 <= i < j < |t| ==> Top(t[i]) <= Top(t[j])
  }

  /** Puts `x` after every element whose key is not greater than its own. */
  function Insert(t: seq<Block>, x: Block): seq<Block>
  {
    if t == [] || Top(x) < Top(t[0]) then [x] + t else [t[0]] + Insert(t[1..], x)
  }

  /** Stable insertion sort by top edge. */
  function SortByTop(bs: seq<Block>): seq<Block>
  {
    if bs == [] then [] else Insert(SortByTop(bs[..|bs| - 1]), bs[|bs| - 1])
  }

  /** The blocks whose top edge is `k`, in order. */
  function WithTop(t: seq<Block>, k: real): seq<Block>
  {
    if t == [] then [] else (if Top(t[0]) == k then [t[0]] else []) + WithTop(t[1..], k)
  }

  lemma {:induction false} InsertPermutes(t: seq<Block>, x: Block)
    ensures multiset(Insert(t, x)) == multiset(t) + multiset{x}
  {
    if t != [] && Top(x) >= Top(t[0]) {
      InsertPermutes(t[1..], x);
      assert t == [t[0]] + t[1..];
    }
  }

  /** Inserting keeps a lower bound on the top edges. */
  lemma {:induction false} InsertAbove(t: seq<Block>, x: Block, lo: real)
    requires forall j :: 0 <= j < |t| ==> lo <= Top(t[j])
    requires lo <= Top(x)
    ensures forall j :: 0 <= j < |Insert(t, x)| ==> lo <= Top(Insert(t, x)[j])
  {
    if t != [] && Top(x) >= Top(t[0]) {
      InsertAbove(t[1..], x, lo);
      assert Insert(t, x) == [t[0]] + Insert(t[1..], x);
    }
  }

  lemma {:induction false} InsertSorted(t: seq<Block>, x: Block)
    requires SortedByTop(t)
    ensures SortedByTop(Insert(t, x))
  {
    if t != [] && Top(x) >= Top(t[0]) {
      var tail := t[1..];
      assert SortedByTop(tail) by {
        forall i, j | 0 <= i < j < |tail| ensures Top(tail[i]) <= Top(tail[j]) {
          assert tail[i] == t[i + 1] && tail[j] == t[j + 1];
        }
      }
      InsertSorted(tail, x);
      assert forall j :: 0 <= j < |tail| ==> Top(t[0]) <= Top(tail[j]) by {
        forall j | 0 <= j < |tail| ensures Top(t[0]) <= Top(tail[j]) {
          assert tail[j] == t[j + 1];
        }
      }
      InsertAbove(tail, x, Top(t[0]));
      var r := Insert(tail, x);
      assert Insert(t, x) == [t[0]] + r;
    }
  }

  lemma {:induction false} WithTopAppend(a: seq<Block>, b: seq<Block>, k: real)
    ensures WithTop(a + b, k) == WithTop(a, k) + WithTop(b, k)
  {
    if a != [] {
      WithTopAppend(a[1..], b, k);
      assert (a + b)[1..] == a[1..] + b;
    } else {
      assert a + b == b;
    }
  }

  lemma {:induction false} WithTopAbove(t: seq<Block>, k: real)
    requires SortedByTop(t) && t != [] && k < Top(t[0])
    ensures WithTop(t, k) == []
    decreases |t|
  {
    if |t| > 1 {
      WithTopAbove(t[1..], k);
    }
  }

  /** Inserting `x` adds it after all elements of equal key. */
  lemma {:induction false} WithTopInsert(t: seq<Block>, x: Block, k: real)
    requires SortedByTop(t)
    ensures WithTop(Insert(t, x), k) == WithTop(t, k) + (if Top(x) == k then [x] else [])
  {
    if t == [] {
    } else if Top(x) < Top(t[0]) {
      assert ([x] + t)[1..] == t;
      if Top(x) == k { WithTopAbove(t, k); }
    } else {
      WithTopInsert(t[1..], x, k);
      assert ([t[0]] + Insert(t[1..], x))[1..] == Insert(t[1..], x);
    }
  }

  /** The sort orders the blocks by top edge. */
  lemma {:induction false} SortByTopSorted(bs: seq<Block>)
    ensures SortedByTop(SortByTop(bs))
  {
    if bs != [] {
      SortByTopSorted(bs[..|bs| - 1]);
      InsertSorted(SortByTop(bs[..|bs| - 1]), bs[|bs| - 1]);
    }
  }

  /** The sort keeps every block exactly once. */
  lemma {:induction false} SortByTopPermutes(bs: seq<Block>)
    ensures multiset(SortByTop(bs)) == multiset(bs)
  {
    if bs != [] {
      var init, last := bs[..|bs| - 1], bs[|bs| - 1];
      SortByTopPermutes(init);
      InsertPermutes(SortByTop(init), last);
      assert bs == init + [last];
    }
  }

  /** The sort is stable: blocks with the same top edge keep their input order. */
  lemma {:induction false} SortByTopStable(bs: seq<Block>, k: real)
    ensures WithTop(SortByTop(bs), k) == WithTop(bs, k)
  {
    if bs != [] {
      var init, last := bs[..|bs| - 1], bs[|bs| - 1];
      SortByTopStable(init, k);
      SortByTopSorted(init);
      WithTopInsert(SortByTop(init), last, k);
      assert bs == init + [last];
      WithTopAppend(init, [last], k);
      assert WithTop([last], k) == (if Top(last) == k then [last] else []);
    }
  }

  /** The line list a block owns, as a set of at most one element. */
  function ListOf(b: Block): set<LineList> {
    if b.lines.Some? then {b.lines.value} else {}
  }

  lemma ListsOfCons(a: Block, r: seq<Block>)
    ensures ListsOf([a] + r) == ListOf(a) + ListsOf(r)
  {
    var t := [a] + r;
    forall l | l in ListsOf(t) ensures l in ListOf(a) + ListsOf(r) {
      var i :| 0 <= i < |t| && t[i].lines.Some? && t[i].lines.value == l;
      if i > 0 { assert t[i] == r[i - 1]; }
    }
    forall l | l in ListsOf(r) ensures l in ListsOf(t) {
      var i :| 0 <= i < |r| && r[i].lines.Some? && r[i].lines.value == l;
      assert t[i + 1] == r[i];
    }
    if a.lines.Some? { assert t[0] == a; }
  }

  lemma ListsOfSnoc(r: seq<Block>, a: Block)
    ensures ListsOf(r + [a]) == ListsOf(r) + ListOf(a)
  {
    var t := r + [a];
    forall l | l in ListsOf(t) ensures l in ListsOf(r) + ListOf(a) {
      var i :| 0 <= i < |t| && t[i].lines.Some? && t[i].lines.value == l;
      if i < |r| { assert t[i] == r[i]; }
    }
    forall l | l in ListsOf(r) ensures l in ListsOf(t) {
      var i :| 0 <= i < |r| && r[i].lines.Some? && r[i].lines.value == l;
      assert t[i] == r[i];
    }
    if a.lines.Some? { assert t[|r|] == a; }
  }

  /** A list of blocks is unshared exactly when its head's list is not among the tail's and the tail is unshared. */
  lemma DistinctCons(a: Block, r: seq<Block>)
    ensures DistinctLists([a] + r) <==> (ListOf(a) !! ListsOf(r) && DistinctLists(r))
  {
    var t := [a] + r;
    if DistinctLists(t) {
      forall i, j | 0 <= i < |r| && 0 <= j < |r| && i != j && r[i].lines.Some? && r[j].lines.Some?
        ensures r[i].lines.value != r[j].lines.value
      {
        assert t[i + 1] == r[i] && t[j + 1] == r[j];
      }
      forall i | 0 <= i < |r| && r[i].lines.Some? && a.lines.Some?
        ensures r[i].lines.value != a.lines.value
      {
        assert t[i + 1] == r[i] && t[0] == a;
      }
    }
    if ListOf(a) !! ListsOf(r) && DistinctLists(r) {
      forall i, j | 0 <= i < |t| && 0 <= j < |t| && i != j && t[i].lines.Some? && t[j].lines.Some?
        ensures t[i].lines.value != t[j].lines.value
      {
        if i > 0 && j > 0 {
          assert t[i] == r[i - 1] && t[j] == r[j - 1];
        } else if i == 0 {
          assert t[j] == r[j - 1] && t[0] == a;
          assert t[j].lines.value in ListsOf(r);
          assert a.lines.value in ListOf(a);
        } else {
          assert t[i] == r[i - 1] && t[0] == a;
          assert t[i].lines.value in ListsOf(r);
          assert a.lines.value in ListOf(a);
        }
      }
    }
  }

  lemma {:induction false} InsertKeepsLists(t: seq<Block>, x: Block)
    requires DistinctLists(t) && ListOf(x) !! ListsOf(t)
    ensures ListsOf(Insert(t, x)) == ListsOf(t) + ListOf(x)
    ensures DistinctLists(Insert(t, x))
  {
    if t == [] || Top(x) < Top(t[0]) {
      ListsOfCons(x, t);
      DistinctCons(x, t);
    } else {
      assert t == [t[0]] + t[1..];
      ListsOfCons(t[0], t[1..]);
      DistinctCons(t[0], t[1..]);
      InsertKeepsLists(t[1..], x);
      ListsOfCons(t[0], Insert(t[1..], x));
      DistinctCons(t[0], Insert(t[1..], x));
    }
  }

  lemma {:induction false} DistinctPrefix(bs: seq<Block>)
    requires bs != [] && DistinctLists(bs)
    ensures DistinctLists(bs[..|bs| - 1])
    ensures ListOf(bs[|bs| - 1]) !! ListsOf(bs[..|bs| - 1])
  {
    var init := bs[..|bs| - 1];
  }

  /** Sorting keeps the blocks' line lists, and keeps them unshared. */
  lemma {:induction false} SortKeepsLists(bs: seq<Block>)
    requires DistinctLists(bs)
    ensures ListsOf(SortByTop(bs)) == ListsOf(bs)
    ensures DistinctLists(SortByTop(bs))
  {
    if bs != [] {
      var init, last := bs[..|bs| - 1], bs[|bs| - 1];
      DistinctPrefix(bs);
      SortKeepsLists(init);
      InsertKeepsLists(SortByTop(init), last);
      assert bs == init + [last];
      ListsOfSnoc(init, last);
    }
  }
}
