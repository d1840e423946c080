/** Splits: a page hands the right part of its records to a new page, which the
    level above learns about one step later. */
module SplitSteps {
  import opened Comparator
  import opened Pages
  import opened Levels
  import opened Frames

  // ---------------------------------------------------------------- a new page enters a level

  lemma DistinctInsert(s: seq<Page>, lv: seq<Level>, r: nat, at: nat, e: Edge)
    requires r < |lv| && at <= |lv[r]| && e.pid == |s|
    requires Placed(s, lv) && Distinct(lv)
    ensures Distinct(lv[r := InsertAt(lv[r], at, e)])
  {
    var lv': seq<Level> := lv[r := InsertAt(lv[r], at, e)];
    forall q, i, p, j | 0 <= q < |lv'| && 0 <= i < |lv'[q]| && 0 <= p < |lv'| && 0 <= j < |lv'[p]|
      && lv'[q][i].pid == lv'[p][j].pid
      ensures q == p && i == j
    {
      var newI := q == r && i == at;
      var newJ := p == r && j == at;
      var oldI := if q == r && i > at then i - 1 else i;
      var oldJ := if p == r && j > at then j - 1 else j;
      assert newI || lv'[q][i] == lv[q][oldI];
      assert newJ || lv'[p][j] == lv[p][oldJ];
      if !newI && !newJ {
        assert Alone(lv, q, oldI);
      }
    }
  }

  lemma AscendingInsert(cmp: Cmp, es: Level, at: nat, sep: Key, pid: PageId)
    requires Order(cmp) && Ascending(cmp, es) && 0 < at <= |es|
    requires BoundLt(cmp, es[at - 1].lo, From(sep))
    requires at < |es| ==> BoundLt(cmp, From(sep), es[at].lo)
    ensures Ascending(cmp, InsertAt(es, at, Edge(From(sep), pid)))
  {
    var es': Level := InsertAt(es, at, Edge(From(sep), pid));
    forall i, j | 0 <= i < j < |es'|
      ensures BoundLt(cmp, es'[i].lo, es'[j].lo)
    {
      var oldI := if i > at then i - 1 else i;
      var oldJ := if j > at then j - 1 else j;
      if j == at {
        assert i < at - 1 ==> BoundLt(cmp, es[i].lo, es[at - 1].lo);
      } else if i == at {
        assert at < oldJ ==> BoundLt(cmp, es[at].lo, es[oldJ].lo);
      } else {
        assert BoundLt(cmp, es[oldI].lo, es[oldJ].lo);
      }
    }
  }

  lemma BoundsInsert(cmp: Cmp, lv: seq<Level>, r: nat, at: nat, sep: Key, pid: PageId)
    requires Order(cmp) && Bounds(cmp, lv) && r < |lv| && 0 < at <= |lv[r]|
    requires BoundLt(cmp, lv[r][at - 1].lo, From(sep))
    requires at < |lv[r]| ==> BoundLt(cmp, From(sep), lv[r][at].lo)
    ensures Bounds(cmp, lv[r := InsertAt(lv[r], at, Edge(From(sep), pid))])
  {
    AscendingInsert(cmp, lv[r], at, sep, pid);
  }

  lemma ZeroFirstInsert(lv: seq<Level>, r: nat, at: nat, e: Edge)
    requires r < |lv| && 0 < at <= |lv[r]| && e.pid != 0
    requires ZeroFirst(lv)
    ensures ZeroFirst(lv[r := InsertAt(lv[r], at, e)])
  {
    var lv': seq<Level> := lv[r := InsertAt(lv[r], at, e)];
    forall q, i | 0 <= q < |lv'| && 0 <= i < |lv'[q]| && lv'[q][i].pid == 0
      ensures q == 0 && i == 0
    {
      var oldI := if q == r && i > at then i - 1 else i;
      if q == r && i == at {
      } else {
        assert lv'[q][i] == lv[q][oldI];
      }
    }
  }

  // ---------------------------------------------------------------- leaf split

  /** The store after a leaf split: `pid` keeps `left`, the new last page gets
      `right`, and both are linked in. */
  ghost predicate LeafSplit(s: seq<Page>, s': seq<Page>, pid: PageId, left: seq<Rec>, right: seq<Rec>) {
    && pid < |s|
    && |s'| == |s| + 1
    && s'[pid] == Page(LeafPage, s[pid].parent, s[pid].prev, |s|, INVALID_PAGE_ID, left)
    && s'[|s|] == Page(LeafPage, s[pid].parent, pid, s[pid].next, INVALID_PAGE_ID, right)
    && (forall x :: 0 <= x < |s| && x != pid ==>
          s'[x] == if x == s[pid].next && x != INVALID_PAGE_ID then s[x].(prev := |s|) else s[x])
  }

  ghost predicate Halves(cmp: Cmp, es: Level, i: nat, left: seq<Rec>, right: seq<Rec>)
  {
    && i < |es| && LeafOk(cmp, left + right, es, i) && LeafRecs(left) && LeafRecs(right)
    && left != [] && right != []
  }

  ghost function SplitLevel(es: Level, i: nat, sep: Key, pid: PageId): Level
    requires i < |es|
  {
    InsertAt(es, i + 1, Edge(From(sep), pid))
  }

  lemma LeafSplitLeaves(cmp: Cmp, s: seq<Page>, es: Level, i: nat, left: seq<Rec>, right: seq<Rec>, s': seq<Page>)
    requires Order(cmp) && Ascending(cmp, es)
    requires Leaves(cmp, s, es) && Halves(cmp, es, i, left, right)
    requires forall j :: 0 <= j < |es| ==> es[j].pid < |s|
    requires forall j, k :: 0 <= j < |es| && 0 <= k < |es| && j != k ==> es[j].pid != es[k].pid
    requires LeafSplit(s, s', es[i].pid, left, right)
    ensures Leaves(cmp, s', SplitLevel(es, i, right[0].key, |s|))
  {
    var es': Level := SplitLevel(es, i, right[0].key, |s|);
    var all := left + right;
    forall j | 0 <= j < |es'|
      ensures LeafAt(cmp, s', es', j)
    {
      if j < i {
        assert LeafAt(cmp, s, es, j);
      } else if j == i {
        LeftHalfOk(cmp, es, i, left, right, |s|);
      } else if j == i + 1 {
        RightHalfOk(cmp, es, i, left, right, |s|);
      } else {
        assert LeafAt(cmp, s, es, j - 1);
      }
    }
  }

  lemma LeftHalfOk(cmp: Cmp, es: Level, i: nat, left: seq<Rec>, right: seq<Rec>, pid: PageId)
    requires Halves(cmp, es, i, left, right)
    ensures LeafOk(cmp, left, SplitLevel(es, i, right[0].key, pid), i)
  {
    var all := left + right;
    assert forall t :: 0 <= t < |left| ==> left[t] == all[t];
    assert right[0] == all[|left|];
  }

  lemma RightHalfOk(cmp: Cmp, es: Level, i: nat, left: seq<Rec>, right: seq<Rec>, pid: PageId)
    requires Order(cmp) && Halves(cmp, es, i, left, right)
    ensures LeafOk(cmp, right, SplitLevel(es, i, right[0].key, pid), i + 1)
  {
    var all := left + right;
    assert forall t :: 0 <= t < |right| ==> right[t] == all[|left| + t];
  }

  lemma LeafSplitPlaced(s: seq<Page>, lv: seq<Level>, i: nat, left: seq<Rec>, right: seq<Rec>, s': seq<Page>)
    requires |lv| > 0 && i < |lv[0]| && Placed(s, lv) && Alone(lv, 0, i) && LeafRecs(left) && LeafRecs(right)
    requires right != [] && LeafSplit(s, s', lv[0][i].pid, left, right)
    requires s[lv[0][i].pid].next == INVALID_PAGE_ID
      || (i + 1 < |lv[0]| && s[lv[0][i].pid].next == lv[0][i + 1].pid && Alone(lv, 0, i + 1))
    ensures Placed(s', lv[0 := SplitLevel(lv[0], i, right[0].key, |s|)])
  {
    var lv': seq<Level> := lv[0 := SplitLevel(lv[0], i, right[0].key, |s|)];
    forall q, j | 0 <= q < |lv'| && 0 <= j < |lv'[q]|
      ensures lv'[q][j].pid < |s'| && PageOk(s'[lv'[q][j].pid], q)
    {
      if q == 0 && (j == i || j == i + 1) {
      } else {
        var oldJ := if q == 0 && j > i then j - 1 else j;
        assert lv'[q][j] == lv[q][oldJ];
      }
    }
  }

  lemma LeafSplitChain(s: seq<Page>, es: Level, i: nat, sep: Key, left: seq<Rec>, right: seq<Rec>, s': seq<Page>)
    requires i < |es| && Chain(s, es)
    requires forall j :: 0 <= j < |es| ==> es[j].pid < |s|
    requires forall j, k :: 0 <= j < |es| && 0 <= k < |es| && j != k ==> es[j].pid != es[k].pid
    requires forall j :: 0 < j < |es| ==> es[j].pid != 0
    requires LeafSplit(s, s', es[i].pid, left, right)
    ensures Chain(s', SplitLevel(es, i, sep, |s|))
  {
    var es': Level := SplitLevel(es, i, sep, |s|);
    forall j | 0 <= j < |es'|
      ensures LinkAt(s', es', j)
    {
      assert LinkAt(s, es, i);
      if j == i + 1 {
      } else {
        assert LinkAt(s, es, if j > i then j - 1 else j);
      }
    }
  }

  /** The new separator lies strictly inside the span of the split leaf. */
  lemma SepInside(cmp: Cmp, es: Level, i: nat, left: seq<Rec>, right: seq<Rec>)
    requires Order(cmp) && Halves(cmp, es, i, left, right)
    ensures BoundLt(cmp, es[i].lo, From(right[0].key))
    ensures i + 1 < |es| ==> BoundLt(cmp, From(right[0].key), es[i + 1].lo)
  {
    var all := left + right;
    assert all[0] == left[0] && all[|left|] == right[0];
    assert InSpan(cmp, all[0].key, es, i);
    assert InSpan(cmp, all[|left|].key, es, i);
    assert Lt(cmp, all[0].key, all[|left|].key);
    if es[i].lo.From? && es[i].lo.key != left[0].key {
      assert Lt(cmp, es[i].lo.key, left[0].key);
    }
  }

  lemma LinkedInsertLeaf(s: seq<Page>, s': seq<Page>, root: PageId, lv: seq<Level>, at: nat, e: Edge)
    requires Linked(s, root, lv, NoGap) && SameUpper(s, s', lv) && 0 < at <= |lv[0]|
    ensures Linked(s', root, lv[0 := InsertAt(lv[0], at, e)], Gap(0, at))
  {
    var lv': seq<Level> := lv[0 := InsertAt(lv[0], at, e)];
    LinkedFrame(s, s', root, lv, NoGap);
    assert Seen(lv', 0, Gap(0, at)) == lv[0];
    forall q | 1 <= q < |lv'|
      ensures Expand(s', lv'[q]) == Seen(lv', q - 1, Gap(0, at))
    {
      assert Expand(s', lv[q]) == Seen(lv, q - 1, NoGap);
    }
  }

  lemma LeafSplitParents(s: seq<Page>, root: PageId, lv: seq<Level>, i: nat, left: seq<Rec>, right: seq<Rec>,
                         s': seq<Page>)
    requires |lv| > 0 && i < |lv[0]| && Placed(s, lv) && Parents(s, root, lv, NoGap) && SameUpper(s, s', lv)
    requires right != [] && LeafSplit(s, s', lv[0][i].pid, left, right)
    ensures Parents(s', root, lv[0 := SplitLevel(lv[0], i, right[0].key, |s|)], Gap(0, i + 1))
  {
    ParentsFrame(s, s', root, lv, NoGap);
  }

  lemma NextLeaf(s: seq<Page>, es: Level, i: nat)
    requires Chain(s, es) && i < |es|
    ensures PageAt(s, es[i].pid).next == if i + 1 < |es| then es[i + 1].pid else INVALID_PAGE_ID
    ensures PageAt(s, es[i].pid).prev == if i > 0 then es[i - 1].pid else INVALID_PAGE_ID
  {
    assert LinkAt(s, es, i);
  }

  lemma UpperSame(s: seq<Page>, s': seq<Page>, lv: seq<Level>, i: nat, left: seq<Rec>, right: seq<Rec>)
    requires |lv| > 0 && i < |lv[0]| && Placed(s, lv) && Alone(lv, 0, i) && LeafSplit(s, s', lv[0][i].pid, left, right)
    ensures SameUpper(s, s', lv)
  {
    forall q, j {:trigger lv[q][j]} | 1 <= q < |lv| && 0 <= j < |lv[q]|
      ensures SameKids(PageAt(s, lv[q][j].pid), PageAt(s', lv[q][j].pid))
    {
      assert lv[q][j].pid < |s|;
    }
  }

  lemma LeafSplitShape(cmp: Cmp, s: seq<Page>, root: PageId, lv: seq<Level>, i: nat, left: seq<Rec>, right: seq<Rec>,
                       s': seq<Page>)
    requires Order(cmp) && Shape(cmp, s, root, lv, NoGap) && i < |lv[0]|
    requires Halves(cmp, lv[0], i, left, right)
    requires LeafSplit(s, s', lv[0][i].pid, left, right)
    ensures Shape(cmp, s', root, lv[0 := SplitLevel(lv[0], i, right[0].key, |s|)], Gap(0, i + 1))
  {
    hide Leaves, Chain, Parents, Bounds, Expand, ZeroFirst, Ascending, LeafOk, Order, LinkAt, Kids;
    var pid, sep, es := lv[0][i].pid, right[0].key, lv[0];
    var lv': seq<Level> := lv[0 := SplitLevel(es, i, sep, |s|)];
    LevelFacts(cmp, s, root, lv, NoGap, 0);
    assert Alone(lv, 0, i);
    assert i + 1 < |es| ==> Alone(lv, 0, i + 1);
    NextLeaf(s, es, i);
    UpperSame(s, s', lv, i, left, right);
    hide SameUpper, Linked, Distinct, Placed;
    LinkedInsertLeaf(s, s', root, lv, i + 1, Edge(From(sep), |s|));
    LeafSplitPlaced(s, lv, i, left, right, s');
    DistinctInsert(s, lv, 0, i + 1, Edge(From(sep), |s|));
    SepInside(cmp, es, i, left, right);
    BoundsInsert(cmp, lv, 0, i + 1, sep, |s|);
    LeafSplitLeaves(cmp, s, es, i, left, right, s');
    LeafSplitChain(s, es, i, sep, left, right, s');
    ZeroFirstInsert(lv, 0, i + 1, Edge(From(sep), |s|));
    LeafSplitParents(s, root, lv, i, left, right, s');
  }
}
