/** What a well-formed tree looks like from its root alone: a depth-first walk, the walk along
    the leaf chain, and why the ghost levels say nothing that the pages do not. */
module TreeFacts {
  import opened Comparator
  import opened Pages
  import opened Lists
  import opened Levels
  import opened Frames
  import opened Height

  /** The pages `h` levels below `es`, in the order of a depth-first walk. */
  ghost function DepthFirst(s: seq<Page>, es: Level, h: nat): Level
    decreases h, |es|
  {
    if es == [] then [] else DepthFirst(s, es[..|es| - 1], h) + Under(s, es[|es| - 1], h)
  }

  ghost function Under(s: seq<Page>, e: Edge, h: nat): Level
    decreases h, 0
  {
    if h == 0 then [e] else DepthFirst(s, Kids(e.lo, PageAt(s, e.pid)), h - 1)
  }

  lemma {:induction false} DepthFirstNone(s: seq<Page>, es: Level)
    ensures DepthFirst(s, es, 0) == es
  {
    if es != [] {
      DepthFirstNone(s, es[..|es| - 1]);
    }
  }

  lemma DepthFirstLast(s: seq<Page>, es: Level, e: Edge, h: nat)
    ensures DepthFirst(s, es + [e], h) == DepthFirst(s, es, h) + Under(s, e, h)
  {
    hide Under;
    assert (es + [e])[..|es|] == es;
  }

  lemma {:induction false} DepthFirstConcat(s: seq<Page>, a: Level, b: Level, h: nat)
    ensures DepthFirst(s, a + b, h) == DepthFirst(s, a, h) + DepthFirst(s, b, h)
    decreases |b|
  {
    hide DepthFirst;
    if b == [] {
      assert a + b == a;
      assert DepthFirst(s, a, h) + [] == DepthFirst(s, a, h);
      NothingBelow(s, h);
    } else {
      var n := |b| - 1;
      DepthFirstConcat(s, a, b[..n], h);
      DepthFirstStep(s, a, b[..n], b[n], h);
      assert b == b[..n] + [b[n]];
    }
  }

  lemma DepthFirstStep(s: seq<Page>, a: Level, c: Level, e: Edge, h: nat)
    requires DepthFirst(s, a + c, h) == DepthFirst(s, a, h) + DepthFirst(s, c, h)
    ensures DepthFirst(s, a + (c + [e]), h) == DepthFirst(s, a, h) + DepthFirst(s, c + [e], h)
  {
    hide DepthFirst, Under;
    DepthFirstLast(s, a + c, e, h);
    DepthFirstLast(s, c, e, h);
    Assoc(a, c, [e]);
    Assoc(DepthFirst(s, a, h), DepthFirst(s, c, h), Under(s, e, h));
  }

  lemma NothingBelow(s: seq<Page>, h: nat)
    ensures DepthFirst(s, [], h) == []
  {
  }

  /** Going down one level first and then depth first is the same walk. */
  lemma {:induction false} DepthFirstExpand(s: seq<Page>, es: Level, h: nat)
    ensures DepthFirst(s, es, h + 1) == DepthFirst(s, Expand(s, es), h)
    decreases |es|
  {
    hide Kids;
    if es == [] {
      assert Expand(s, es) == [];
    } else {
      var n := |es| - 1;
      DepthFirstExpand(s, es[..n], h);
      assert es == es[..n] + [es[n]];
      ExpandConcat(s, es[..n], [es[n]]);
      ExpandOne(s, es[n]);
      DepthFirstConcat(s, Expand(s, es[..n]), Expand(s, [es[n]]), h);
    }
  }

  lemma {:induction false} DepthFirstLevel(cmp: Cmp, s: seq<Page>, root: PageId, lv: seq<Level>, h: nat)
    requires TreeOk(cmp, s, root, lv) && h < |lv|
    ensures DepthFirst(s, [Edge(NegInf, root)], |lv| - 1) == DepthFirst(s, lv[h], h)
    decreases |lv| - h
  {
    hide DepthFirst, Placed, Distinct, Bounds, Leaves, Parents, Chain, ZeroFirst, Room, Filled, Order;
    if h < |lv| - 1 {
      DepthFirstLevel(cmp, s, root, lv, h + 1);
      assert Expand(s, lv[h + 1]) == Seen(lv, h, NoGap);
      DepthFirstExpand(s, lv[h + 1], h);
    }
  }

  /** A depth-first walk from the root meets exactly the leaves of the chain, in order. */
  lemma LeavesDepthFirst(cmp: Cmp, s: seq<Page>, root: PageId, lv: seq<Level>)
    requires TreeOk(cmp, s, root, lv)
    ensures |lv| > 0 && DepthFirst(s, [Edge(NegInf, root)], |lv| - 1) == lv[0]
  {
    DepthFirstLevel(cmp, s, root, lv, 0);
    DepthFirstNone(s, lv[0]);
  }

  /** The levels of a tree are determined by its pages: so is everything defined by them. */
  lemma LevelsUnique(cmp: Cmp, s: seq<Page>, root: PageId, lv: seq<Level>, lv': seq<Level>)
    requires TreeOk(cmp, s, root, lv) && TreeOk(cmp, s, root, lv')
    ensures lv == lv'
  {
    hide Distinct, Bounds, Leaves, Parents, Chain, ZeroFirst, Room, Filled, Order, Expand;
    NotDeeper(cmp, s, root, lv, lv');
    NotDeeper(cmp, s, root, lv', lv);
    forall q | 0 <= q < |lv|
      ensures lv[q] == lv'[q]
    {
      SameFromTop(cmp, s, root, lv, lv', |lv| - 1 - q);
    }
  }

  lemma {:induction false} SameFromTop(cmp: Cmp, s: seq<Page>, root: PageId, lv: seq<Level>, lv': seq<Level>, d: nat)
    requires TreeOk(cmp, s, root, lv) && TreeOk(cmp, s, root, lv') && d < |lv| && d < |lv'|
    ensures lv[|lv| - 1 - d] == lv'[|lv'| - 1 - d]
  {
    hide Placed, Distinct, Bounds, Leaves, Parents, Chain, ZeroFirst, Room, Filled, Order;
    if d > 0 {
      SameFromTop(cmp, s, root, lv, lv', d - 1);
      assert Expand(s, lv[|lv| - d]) == Seen(lv, |lv| - 1 - d, NoGap);
      assert Expand(s, lv'[|lv'| - d]) == Seen(lv', |lv'| - 1 - d, NoGap);
    }
  }

  lemma NotDeeper(cmp: Cmp, s: seq<Page>, root: PageId, lv: seq<Level>, lv': seq<Level>)
    requires TreeOk(cmp, s, root, lv) && TreeOk(cmp, s, root, lv')
    ensures |lv| >= |lv'|
  {
    FirstLeaf(cmp, s, root, lv);
    KindOfLevel(cmp, s, root, lv, 0);
    hide TreeOk;
    if |lv| < |lv'| {
      KindOfLevel(cmp, s, root, lv', |lv'| - |lv|);
      SameFromTop(cmp, s, root, lv, lv', |lv| - 1);
      assert false;
    }
  }

  lemma KindOfLevel(cmp: Cmp, s: seq<Page>, root: PageId, lv: seq<Level>, q: nat)
    requires TreeOk(cmp, s, root, lv) && q < |lv|
    ensures |lv[q]| > 0 && (PageAt(s, lv[q][0].pid).kind == LeafPage <==> q == 0)
  {
    hide Linked, Distinct, Leaves, Parents, Chain, ZeroFirst, Room, Filled, Order, Ascending;
    assert |lv[q]| > 0;
    assert PageOk(s[lv[q][0].pid], q);
  }

  // ---------------------------------------------------------------- the leaf chain

  function PidsOf(es: Level): (r: seq<PageId>)
    ensures |r| == |es|
  {
    seq(|es|, i requires 0 <= i < |es| => es[i].pid)
  }

  /** The pages met by following next_id, at most `n` of them. */
  ghost function FollowNext(s: seq<Page>, pid: PageId, n: nat): seq<PageId>
    decreases n
  {
    if n == 0 then []
    else if PageAt(s, pid).next == INVALID_PAGE_ID then [pid]
    else [pid] + FollowNext(s, PageAt(s, pid).next, n - 1)
  }

  ghost function FollowPrev(s: seq<Page>, pid: PageId, n: nat): seq<PageId>
    decreases n
  {
    if n == 0 then []
    else if PageAt(s, pid).prev == INVALID_PAGE_ID then [pid]
    else FollowPrev(s, PageAt(s, pid).prev, n - 1) + [pid]
  }

  lemma ChainFacts(cmp: Cmp, s: seq<Page>, root: PageId, lv: seq<Level>, i: nat)
    requires TreeOk(cmp, s, root, lv)
    ensures |lv| > 0
    ensures i < |lv[0]| ==> LinkAt(s, lv[0], i)
    ensures 0 < i < |lv[0]| ==> lv[0][i].pid != 0
  {
    FirstLeaf(cmp, s, root, lv);
    LevelFacts(cmp, s, root, lv, NoGap, 0);
  }

  lemma {:induction false} FollowNextFrom(cmp: Cmp, s: seq<Page>, root: PageId, lv: seq<Level>, i: nat, n: nat)
    requires TreeOk(cmp, s, root, lv) && |lv| > 0 && i < |lv[0]| && n >= |lv[0]| - i
    ensures FollowNext(s, lv[0][i].pid, n) == PidsOf(lv[0])[i..]
    decreases n
  {
    hide TreeOk, PageAt;
    ChainFacts(cmp, s, root, lv, i);
    ChainFacts(cmp, s, root, lv, i + 1);
    if i + 1 < |lv[0]| {
      FollowNextFrom(cmp, s, root, lv, i + 1, n - 1);
      assert PidsOf(lv[0])[i..] == [lv[0][i].pid] + PidsOf(lv[0])[i + 1..];
    } else {
      assert PidsOf(lv[0])[i..] == [lv[0][i].pid];
    }
  }

  /** Following next_id from the leftmost leaf visits the leaves of the tree in order, each
      once, and ends; page 0 does no harm there. */
  lemma NextChain(cmp: Cmp, s: seq<Page>, root: PageId, lv: seq<Level>, n: nat)
    requires TreeOk(cmp, s, root, lv) && n >= |lv[0]|
    ensures |lv[0]| > 0
    ensures FollowNext(s, lv[0][0].pid, n) == PidsOf(DepthFirst(s, [Edge(NegInf, root)], |lv| - 1))
  {
    FirstLeaf(cmp, s, root, lv);
    FollowNextFrom(cmp, s, root, lv, 0, n);
    LeavesDepthFirst(cmp, s, root, lv);
  }

  /** The leaves that a backward walk from leaf `i` reaches: all of them, unless the leftmost
      is page 0, which its neighbour's prev_id cannot be told from "none". */
  function FirstReached(es: Level): nat {
    if |es| > 1 && es[0].pid == INVALID_PAGE_ID then 1 else 0
  }

  lemma {:induction false} FollowPrevFrom(cmp: Cmp, s: seq<Page>, root: PageId, lv: seq<Level>, i: nat, n: nat)
    requires TreeOk(cmp, s, root, lv) && |lv| > 0 && FirstReached(lv[0]) <= i < |lv[0]| && n > i
    ensures FollowPrev(s, lv[0][i].pid, n) == PidsOf(lv[0])[FirstReached(lv[0])..i + 1]
    decreases n
  {
    hide TreeOk, PageAt;
    ChainFacts(cmp, s, root, lv, i);
    var f := FirstReached(lv[0]);
    if i > f {
      ChainFacts(cmp, s, root, lv, i - 1);
      FollowPrevFrom(cmp, s, root, lv, i - 1, n - 1);
      SliceLast(PidsOf(lv[0]), f, i);
    } else {
      SliceLast(PidsOf(lv[0]), f, i);
    }
  }

  /** Following prev_id from the last leaf is the mirror image exactly when the leftmost leaf
      is the only one or is not page 0; otherwise just that leaf is missing. */
  lemma PrevChain(cmp: Cmp, s: seq<Page>, root: PageId, lv: seq<Level>, n: nat)
    requires TreeOk(cmp, s, root, lv) && n >= |lv[0]|
    ensures |lv[0]| > 0
    ensures var walk := FollowPrev(s, lv[0][|lv[0]| - 1].pid, n);
      walk == PidsOf(lv[0])[FirstReached(lv[0])..] && (walk == PidsOf(lv[0]) <==> FirstReached(lv[0]) == 0)
  {
    FirstLeaf(cmp, s, root, lv);
    hide TreeOk;
    var all := PidsOf(lv[0]);
    FollowPrevFrom(cmp, s, root, lv, |lv[0]| - 1, n);
    assert all[FirstReached(lv[0])..|all|] == all[FirstReached(lv[0])..];
  }

  // ---------------------------------------------------------------- leaves

  /** No record that a walk from the root can meet carries a deletion mark, and no leaf is
      empty unless it is the whole tree. */
  lemma LiveLeaves(cmp: Cmp, s: seq<Page>, root: PageId, lv: seq<Level>, i: nat)
    requires TreeOk(cmp, s, root, lv)
    ensures var walk := DepthFirst(s, [Edge(NegInf, root)], |lv| - 1);
      i < |walk| ==>
        var p := PageAt(s, walk[i].pid);
        && p.kind == LeafPage
        && (forall t :: 0 <= t < |p.recs| ==> p.recs[t].LeafRec? && !p.recs[t].deleted)
        && (p.recs == [] ==> walk[i].pid == root && |walk| == 1)
  {
    LeavesDepthFirst(cmp, s, root, lv);
    if i < |lv[0]| {
      LeafHere(cmp, s, root, lv, i);
    }
  }

  lemma LeafHere(cmp: Cmp, s: seq<Page>, root: PageId, lv: seq<Level>, i: nat)
    requires TreeOk(cmp, s, root, lv) && i < |lv[0]|
    ensures var p := PageAt(s, lv[0][i].pid);
        && p.kind == LeafPage && LeafRecs(p.recs)
        && (p.recs == [] ==> lv[0][i].pid == root && |lv[0]| == 1)
  {
    hide Distinct, Bounds, Leaves, Parents, Chain, ZeroFirst, Room, Order;
    assert PageOk(s[lv[0][i].pid], 0);
    if |lv| == 1 {
      assert Seen(lv, 0, NoGap) == [Edge(NegInf, root)];
    }
  }
}
