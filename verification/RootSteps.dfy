/** The tree gains a level, or loses one. */
module RootSteps {
  import opened Comparator
  import opened Pages
  import opened Levels
  import opened Frames

  /** The store after a new root took over the old root and the page pending beside it,
      and ended up with records `recs`. */
  ghost predicate RootParts(s: seq<Page>, s': seq<Page>, root: PageId, pid: PageId, recs: seq<Rec>) {
    && root < |s| && pid < |s|
    && |s'| == |s| + 1
    && s'[|s|] == Page(InternalPage, INVALID_PAGE_ID, INVALID_PAGE_ID, INVALID_PAGE_ID, root, recs)
    && (forall x :: 0 <= x < |s| ==> s'[x] == if x == root || x == pid then s[x].(parent := |s|) else s[x])
  }

  ghost predicate RootGrowth(s: seq<Page>, s': seq<Page>, root: PageId, e: Edge) {
    e.lo.From? && RootParts(s, s', root, e.pid, [ChildRec(e.lo.key, e.pid)])
  }

  ghost function TopLevel(s: seq<Page>): Level {
    [Edge(NegInf, |s|)]
  }

  lemma GrowLinked(s: seq<Page>, root: PageId, lv: seq<Level>, s': seq<Page>)
    requires |lv| > 0 && Linked(s, root, lv, Gap(|lv| - 1, 1)) && Placed(s, lv)
    requires |lv[|lv| - 1]| == 2 && RootGrowth(s, s', root, lv[|lv| - 1][1])
    ensures Linked(s', |s|, lv + [TopLevel(s)], NoGap)
  {
    var top := |lv| - 1;
    var lv' := lv + [TopLevel(s)];
    assert lv[top] == [Edge(NegInf, root), lv[top][1]] by {
      assert Seen(lv, top, Gap(top, 1)) == [lv[top][0]];
    }
    ExpandOne(s', Edge(NegInf, |s|));
    assert Kids(NegInf, s'[|s|]) == lv[top];
    hide Expand, Kids;
    forall q | 1 <= q < |lv'|
      ensures Expand(s', lv'[q]) == lv'[q - 1]
    {
      if q < |lv| {
        assert Expand(s, lv[q]) == Seen(lv, q - 1, Gap(top, 1));
        GrowFrame(s, root, lv, s', q);
      }
    }
  }

  lemma GrowFrame(s: seq<Page>, root: PageId, lv: seq<Level>, s': seq<Page>, q: nat)
    requires |lv| > 0 && Placed(s, lv) && |lv[|lv| - 1]| == 2 && RootGrowth(s, s', root, lv[|lv| - 1][1]) && q < |lv|
    ensures Expand(s', lv[q]) == Expand(s, lv[q])
  {
    hide Expand;
    forall i | 0 <= i < |lv[q]|
      ensures SameKids(PageAt(s, lv[q][i].pid), PageAt(s', lv[q][i].pid))
    {
      assert lv[q][i].pid < |s|;
    }
    ExpandFrame(s, s', lv[q]);
  }

  lemma GrowPlaced(s: seq<Page>, root: PageId, lv: seq<Level>, e: Edge, s': seq<Page>)
    requires |lv| > 0 && Placed(s, lv) && RootGrowth(s, s', root, e)
    ensures Placed(s', lv + [TopLevel(s)])
  {
    var lv': seq<Level> := lv + [TopLevel(s)];
    forall q, i | 0 <= q < |lv'| && 0 <= i < |lv'[q]|
      ensures lv'[q][i].pid < |s'| && PageOk(s'[lv'[q][i].pid], q)
    {
      if q < |lv| {
        assert lv'[q][i] == lv[q][i];
      }
    }
  }

  lemma GrowDistinct(s: seq<Page>, lv: seq<Level>)
    requires Placed(s, lv) && Distinct(lv)
    ensures Distinct(lv + [TopLevel(s)])
  {
    var lv': seq<Level> := lv + [TopLevel(s)];
    forall q, i, p, j | 0 <= q < |lv'| && 0 <= i < |lv'[q]| && 0 <= p < |lv'| && 0 <= j < |lv'[p]|
      && lv'[q][i].pid == lv'[p][j].pid
      ensures q == p && i == j
    {
      if q < |lv| {
        assert lv'[q][i] == lv[q][i] && Alone(lv, q, i);
      }
      if p < |lv| {
        assert lv'[p][j] == lv[p][j] && Alone(lv, p, j);
      }
    }
  }

  /** The root and the page pending beside it are nobody's children. */
  lemma TopsAreNoKids(s: seq<Page>, root: PageId, lv: seq<Level>, q: nat, i: nat, d: nat)
    requires |lv| > 0 && Linked(s, root, lv, Gap(|lv| - 1, 1)) && Distinct(lv) && |lv[|lv| - 1]| == 2
    requires 1 <= q < |lv| && i < |lv[q]| && d <= |PageAt(s, lv[q][i].pid).recs|
    ensures Kids(lv[q][i].lo, PageAt(s, lv[q][i].pid))[d].pid != root
    ensures Kids(lv[q][i].lo, PageAt(s, lv[q][i].pid))[d].pid != lv[|lv| - 1][1].pid
  {
    var top := |lv| - 1;
    assert Seen(lv, top, Gap(top, 1)) == [lv[top][0]];
    assert Expand(s, lv[q]) == Seen(lv, q - 1, Gap(top, 1));
    ExpandAt(s, lv[q], i, d);
    assert Alone(lv, top, 0) && Alone(lv, top, 1);
  }

  lemma GrowParents(s: seq<Page>, root: PageId, lv: seq<Level>, s': seq<Page>)
    requires |lv| > 0 && Linked(s, root, lv, Gap(|lv| - 1, 1)) && Distinct(lv) && Placed(s, lv)
    requires |lv[|lv| - 1]| == 2 && RootGrowth(s, s', root, lv[|lv| - 1][1])
    requires Parents(s, root, lv, Gap(|lv| - 1, 1))
    ensures Parents(s', |s|, lv + [TopLevel(s)], NoGap)
  {
    var lv': seq<Level> := lv + [TopLevel(s)];
    forall q, i | 1 <= q < |lv'| && 0 <= i < |lv'[q]|
      ensures ParentOf(s', lv'[q][i].pid)
    {
      if q < |lv| {
        assert lv'[q][i] == lv[q][i];
        GrowParentOf(s, root, lv, s', q, i);
      } else {
        assert lv'[q][i] == Edge(NegInf, |s|);
      }
    }
  }

  lemma GrowParentOf(s: seq<Page>, root: PageId, lv: seq<Level>, s': seq<Page>, q: nat, i: nat)
    requires |lv| > 0 && Linked(s, root, lv, Gap(|lv| - 1, 1)) && Distinct(lv) && Placed(s, lv)
    requires |lv[|lv| - 1]| == 2 && RootGrowth(s, s', root, lv[|lv| - 1][1])
    requires 1 <= q < |lv| && i < |lv[q]| && ParentOf(s, lv[q][i].pid)
    ensures ParentOf(s', lv[q][i].pid)
  {
    hide Linked, Distinct;
    var p := PageAt(s, lv[q][i].pid);
    var kids := Kids(lv[q][i].lo, p);
    TopsAreNoKids(s, root, lv, q, i, 0);
    forall t | 0 <= t < |p.recs|
      ensures Names(s', ChildOf(p.recs[t]), lv[q][i].pid)
    {
      TopsAreNoKids(s, root, lv, q, i, t + 1);
      assert Names(s, ChildOf(p.recs[t]), lv[q][i].pid);
      assert kids[t + 1].pid == ChildOf(p.recs[t]);
    }
  }

  /** A new root on top completes the tree. */
  lemma GrowShape(cmp: Cmp, s: seq<Page>, root: PageId, lv: seq<Level>, s': seq<Page>)
    requires |lv| > 0 && Shape(cmp, s, root, lv, Gap(|lv| - 1, 1))
    requires |lv[|lv| - 1]| == 2 && RootGrowth(s, s', root, lv[|lv| - 1][1])
    ensures Shape(cmp, s', |s|, lv + [TopLevel(s)], NoGap)
  {
    hide Leaves, Chain, Expand;
    GrowLinked(s, root, lv, s');
    GrowParents(s, root, lv, s');
    hide Parents, Linked;
    GrowPlaced(s, root, lv, lv[|lv| - 1][1], s');
    GrowDistinct(s, lv);
    ChainFrame(s, s', lv[0]);
    LeavesFrame(cmp, s, s', lv[0]);
  }

  // ---------------------------------------------------------------- root shrink

  /** The store after the only child of an empty root became the root. */
  ghost predicate RootShrink(s: seq<Page>, s': seq<Page>, root: PageId) {
    var child := PageAt(s, root).firstChild;
    root < |s| && s[root].recs == [] && child < |s| && s' == s[child := s[child].(parent := INVALID_PAGE_ID)]
  }

  /** Below an empty root there is one page. */
  lemma ShrinkTop(s: seq<Page>, root: PageId, lv: seq<Level>)
    requires Linked(s, root, lv, NoGap) && |lv| > 1 && PageAt(s, root).recs == []
    ensures lv[|lv| - 2] == [Edge(NegInf, PageAt(s, root).firstChild)]
  {
    var top := |lv| - 1;
    assert Expand(s, lv[top]) == Seen(lv, top - 1, NoGap);
    ExpandOne(s, Edge(NegInf, root));
    assert Kids(NegInf, PageAt(s, root)) == [Edge(NegInf, PageAt(s, root).firstChild)];
  }

  lemma ShrinkLinked(s: seq<Page>, root: PageId, lv: seq<Level>, s': seq<Page>)
    requires Linked(s, root, lv, NoGap) && |lv| > 1 && RootShrink(s, s', root)
    ensures Linked(s', PageAt(s, root).firstChild, lv[..|lv| - 1], NoGap)
  {
    ShrinkTop(s, root, lv);
    hide Expand;
    var lv' := lv[..|lv| - 1];
    forall q | 1 <= q < |lv'|
      ensures Expand(s', lv'[q]) == lv'[q - 1]
    {
      assert Expand(s, lv[q]) == Seen(lv, q - 1, NoGap);
      ExpandFrame(s, s', lv[q]);
    }
  }

  lemma ShrinkDistinct(lv: seq<Level>)
    requires Distinct(lv) && |lv| > 1
    ensures Distinct(lv[..|lv| - 1])
  {
    var lv': seq<Level> := lv[..|lv| - 1];
    forall q, i | 0 <= q < |lv'| && 0 <= i < |lv'[q]|
      ensures Alone(lv', q, i)
    {
      assert Alone(lv, q, i);
    }
  }

  lemma ShrinkParents(s: seq<Page>, root: PageId, lv: seq<Level>, s': seq<Page>)
    requires Linked(s, root, lv, NoGap) && Distinct(lv) && Parents(s, root, lv, NoGap)
    requires |lv| > 1 && RootShrink(s, s', root)
    ensures Parents(s', PageAt(s, root).firstChild, lv[..|lv| - 1], NoGap)
  {
    var child := PageAt(s, root).firstChild;
    var lv': seq<Level> := lv[..|lv| - 1];
    ShrinkTop(s, root, lv);
    assert Alone(lv, |lv| - 2, 0);
    forall q, i | 1 <= q < |lv'| && 0 <= i < |lv'[q]|
      ensures ParentOf(s', lv'[q][i].pid)
    {
      var e := lv[q][i];
      assert lv'[q][i] == e && ParentOf(s, e.pid);
      NotTop(s, root, lv, q, i, 0);
      forall t | 0 <= t < |PageAt(s, e.pid).recs|
        ensures Names(s', ChildOf(PageAt(s, e.pid).recs[t]), e.pid)
      {
        assert Names(s, ChildOf(PageAt(s, e.pid).recs[t]), e.pid);
        assert Kids(e.lo, PageAt(s, e.pid))[t + 1].pid == ChildOf(PageAt(s, e.pid).recs[t]);
        NotTop(s, root, lv, q, i, t + 1);
      }
    }
  }

  /** The page that becomes the root is a child of the old root only. */
  lemma NotTop(s: seq<Page>, root: PageId, lv: seq<Level>, q: nat, i: nat, d: nat)
    requires Linked(s, root, lv, NoGap) && Distinct(lv) && |lv| > 1 && PageAt(s, root).recs == []
    requires 1 <= q < |lv| - 1 && i < |lv[q]| && d <= |PageAt(s, lv[q][i].pid).recs|
    ensures Kids(lv[q][i].lo, PageAt(s, lv[q][i].pid))[d].pid != PageAt(s, root).firstChild
  {
    ShrinkTop(s, root, lv);
    assert Expand(s, lv[q]) == Seen(lv, q - 1, NoGap);
    ExpandAt(s, lv[q], i, d);
    assert Alone(lv, |lv| - 2, 0);
  }

  /** Dropping an empty root leaves a tree that is one level lower. */
  lemma ShrinkShape(cmp: Cmp, s: seq<Page>, root: PageId, lv: seq<Level>, s': seq<Page>)
    requires Shape(cmp, s, root, lv, NoGap) && |lv| > 1 && RootShrink(s, s', root)
    ensures Shape(cmp, s', PageAt(s, root).firstChild, lv[..|lv| - 1], NoGap)
  {
    hide Leaves, Chain, Expand;
    ShrinkLinked(s, root, lv, s');
    ShrinkParents(s, root, lv, s');
    hide Parents, Linked;
    ShrinkDistinct(lv);
    ChainFrame(s, s', lv[0]);
    LeavesFrame(cmp, s, s', lv[0]);
  }
}
