/** Deleting a key and rebalancing (src/btree.c:215-353, 460-487). */
module Deletion {
  import opened Comparator
  import opened Pages
  import opened Levels
  import opened Frames
  import opened Contents
  import opened Search
  import opened Descent
  import opened Fitting
  import opened LeafSteps
  import opened InternalSteps
  import opened RootSteps
  import opened MergeSteps
  import opened LeafPut

  // ---------------------------------------------------------------- taking the record out

  /** Every page but one holds something, unless the tree is a single leaf. */
  ghost predicate FilledBut(s: seq<Page>, lv: seq<Level>, pid: PageId) {
    forall q, i {:trigger lv[q][i]} :: 0 <= q < |lv| && 0 <= i < |lv[q]| && |lv| > 1 && lv[q][i].pid != pid ==>
      |PageAt(s, lv[q][i].pid).recs| > 0
  }

  lemma RemoveFromLeaf(cmp: Cmp, s: seq<Page>, root: PageId, lv: seq<Level>, k: Key, i: nat, s': seq<Page>)
    requires Order(cmp) && Shape(cmp, s, root, lv, NoGap) && Room(s, lv) && Filled(s, lv)
    requires |lv| > 0 && i < |lv[0]| && InSpan(cmp, k, lv[0], i) && lv[0][i].pid < |s|
    requires s' == s[lv[0][i].pid := s[lv[0][i].pid].(recs := WithoutKey(s[lv[0][i].pid].recs, k))]
    ensures Shape(cmp, s', root, lv, NoGap) && Room(s', lv) && FilledBut(s', lv, lv[0][i].pid)
    ensures ToMap(Records(s', lv[0])) == ToMap(Records(s, lv[0])) - {k}
  {
    hide Shape, WithoutKey, ToMap, Records, Leaves, Ascending, Order, InSpan, Fits;
    var recs := s[lv[0][i].pid].recs;
    var rest := WithoutKey(recs, k);
    LeafFacts(cmp, s, root, lv, NoGap, i);
    hide Sorted;
    LevelFacts(cmp, s, root, lv, NoGap, 0);
    ShapeLeaves(cmp, s, root, lv, NoGap);
    WithoutKeyFacts(cmp, recs, k);
    WithoutKeyLeafOk(cmp, lv[0], i, recs, k);
    hide LeafOk, LeafRecs;
    ReplaceLeafShape(cmp, s, root, lv, i, rest, s');
    ReplaceLeafRecords(s, lv[0], i, rest, s');
    LeafRemoveContents(cmp, s, lv[0], i, k, rest);
    PageRoom(s, lv, 0, i);
    WithoutKeyFits(recs, k);
    InPlaceRoom(s, lv, lv[0][i].pid, rest, s');
    FilledElsewhere(s, lv, lv[0][i].pid, s');
  }

  lemma PageRoom(s: seq<Page>, lv: seq<Level>, q: nat, i: nat)
    requires Room(s, lv) && q < |lv| && i < |lv[q]|
    ensures Fits(PageAt(s, lv[q][i].pid).recs)
  {
  }

  lemma FilledElsewhere(s: seq<Page>, lv: seq<Level>, pid: PageId, s': seq<Page>)
    requires Filled(s, lv) && |s'| == |s|
    requires forall x :: 0 <= x < |s| && x != pid ==> s'[x].recs == s[x].recs
    ensures FilledBut(s', lv, pid)
  {
  }

  lemma WithoutKeyFits(recs: seq<Rec>, k: Key)
    requires Fits(recs)
    ensures Fits(WithoutKey(recs, k))
  {
    var i := KeyPos(recs, k);
    if i < |recs| {
      assert recs == recs[..i] + [recs[i]] + recs[i + 1..];
      FitsPart(recs[..i], [recs[i]], recs[i + 1..]);
    }
  }

  // ---------------------------------------------------------------- merging a page with a sibling

  /** What merging child `node` of `parent` with a sibling relies on. */
  ghost predicate Mergeable(s: seq<Page>, parent: PageId, node: PageId) {
    && parent < |s| && |s[parent].recs| > 0
    && (exists c :: 0 <= c <= |s[parent].recs| && ChildAt(s[parent], c) == node)
    && (forall c :: 0 <= c <= |s[parent].recs| ==> MergeChild(s, parent, c))
    && (forall a, b :: 0 <= a < b <= |s[parent].recs| ==> ChildAt(s[parent], a) != ChildAt(s[parent], b))
  }

  /** A child of `parent`, and the page it links to, are pages of their own. */
  ghost predicate MergeChild(s: seq<Page>, parent: PageId, c: nat)
    requires parent < |s| && c <= |s[parent].recs|
  {
    var x := ChildAt(s[parent], c);
    && x < |s| && x != parent
    && (s[x].next != INVALID_PAGE_ID ==>
          s[x].next < |s| && s[x].next != parent && s[x].next != x
            && (c > 0 ==> s[x].next != ChildAt(s[parent], c - 1)))
  }

  /** In a tree, every child of an internal page can be merged with a sibling. */
  lemma TreeMergeable(cmp: Cmp, s: seq<Page>, root: PageId, lv: seq<Level>, u: nat, j: nat, c: nat)
    requires Shape(cmp, s, root, lv, NoGap) && 1 <= u < |lv| && j < |lv[u]|
    requires lv[u][j].pid < |s| && 0 < |s[lv[u][j].pid].recs| && c <= |s[lv[u][j].pid].recs|
    ensures Mergeable(s, lv[u][j].pid, ChildAt(s[lv[u][j].pid], c))
  {
    var pid := lv[u][j].pid;
    var p := s[pid];
    ShapeAll(cmp, s, root, lv);
    hide Shape, Linked, Placed, Distinct, Chain;
    forall d | 0 <= d <= |p.recs|
      ensures MergeChild(s, pid, d)
    {
      TreeMergeChild(cmp, s, root, lv, u, j, d);
    }
    forall a, b | 0 <= a < b <= |p.recs|
      ensures ChildAt(p, a) != ChildAt(p, b)
    {
      if ChildAt(p, a) == ChildAt(p, b) {
        KidAt(lv[u][j].lo, p, a);
        KidAt(lv[u][j].lo, p, b);
        KidUnique(s, root, lv, u, j, a, u, j, b);
      }
    }
  }

  lemma ShapeAll(cmp: Cmp, s: seq<Page>, root: PageId, lv: seq<Level>)
    requires Shape(cmp, s, root, lv, NoGap)
    ensures Linked(s, root, lv, NoGap) && Placed(s, lv) && Distinct(lv) && Chain(s, lv[0]) && |lv| > 0
  {
  }

  lemma TreeMergeChild(cmp: Cmp, s: seq<Page>, root: PageId, lv: seq<Level>, u: nat, j: nat, d: nat)
    requires Linked(s, root, lv, NoGap) && Placed(s, lv) && Distinct(lv) && |lv| > 0 && Chain(s, lv[0])
    requires 1 <= u < |lv| && j < |lv[u]| && lv[u][j].pid < |s| && d <= |s[lv[u][j].pid].recs|
    ensures MergeChild(s, lv[u][j].pid, d)
  {
    var pid := lv[u][j].pid;
    var p := s[pid];
    hide Linked;
    KidAt(lv[u][j].lo, p, d);
    KidPlace(s, root, lv, u, j, d);
    KidNotSelf(s, root, lv, u, j, d);
    var i := Offset(s, lv[u], j) + d;
    var x := lv[u - 1][i].pid;
    assert PageOk(s[x], u - 1);
    if d > 0 {
      KidAt(lv[u][j].lo, p, d - 1);
      KidPlace(s, root, lv, u, j, d - 1);
    }
    hide Expand, Kids;
    if u == 1 {
      assert LinkAt(s, lv[0], i);
      if i + 1 < |lv[0]| {
        assert Alone(lv, 0, i + 1);
      }
    }
  }

  /** The siblings that removing record `c` of page `j` above concerns. */
  ghost predicate LeafSiblings(s: seq<Page>, lv: seq<Level>, j: nat, c: nat) {
    && |lv| > 1 && j < |lv[1]| && lv[1][j].pid < |s| && c < |s[lv[1][j].pid].recs|
  }

  /** Merging two leaves keeps the tree and all its records. */
  lemma LeafMergeStep(cmp: Cmp, s: seq<Page>, root: PageId, lv: seq<Level>, j: nat, c: nat, s': seq<Page>)
    requires Order(cmp) && Shape(cmp, s, root, lv, NoGap) && Room(s, lv) && LeafSiblings(s, lv, j, c)
    requires var p := s[lv[1][j].pid];
             && (FilledBut(s, lv, ChildAt(p, c)) || FilledBut(s, lv, ChildAt(p, c + 1)))
             && Fits(PageAt(s, ChildAt(p, c)).recs + PageAt(s, ChildAt(p, c + 1)).recs)
             && LeafMerge(s, s', ChildAt(p, c), ChildAt(p, c + 1), lv[1][j].pid, c)
    ensures Offset(s, lv[1], j) + c + 1 < |lv[0]|
    ensures var lv' := MergedLevels(lv, Offset(s, lv[1], j) + c);
            && Shape(cmp, s', root, lv', NoGap) && Room(s', lv') && FilledBut(s', lv', lv[1][j].pid)
            && Records(s', lv'[0]) == Records(s, lv[0]) && lv'[0][0].pid == lv[0][0].pid
  {
    hide Shape, Linked, Distinct, Chain, LeafMerge, Records, Expand, Kids, Room, FilledBut, Fits, MergedLevels, Order,
      Placed;
    var p := s[lv[1][j].pid];
    var i := Offset(s, lv[1], j) + c;
    ShapeAll(cmp, s, root, lv);
    KidAt(lv[1][j].lo, p, c);
    KidAt(lv[1][j].lo, p, c + 1);
    KidPlace(s, root, lv, 1, j, c);
    KidPlace(s, root, lv, 1, j, c + 1);
    LeafPlace(s, lv, i);
    LeafPlace(s, lv, i + 1);
    assert Merged(s, s', lv, i, j, c);
    MergeShape(cmp, s, root, lv, i, j, c, s');
    MergeRecords(s, lv, i, j, c, s');
    MergeRoom(s, lv, i, j, c, s');
    MergeFirst(lv, i);
  }

  lemma LeafPlace(s: seq<Page>, lv: seq<Level>, i: nat)
    requires Placed(s, lv) && |lv| > 0 && i < |lv[0]|
    ensures lv[0][i].pid < |s|
  {
  }

  lemma MergeFirst(lv: seq<Level>, i: nat)
    requires |lv| > 0 && i + 1 < |lv[0]|
    ensures |MergedLevels(lv, i)| == |lv| && |MergedLevels(lv, i)[0]| > 0 && MergedLevels(lv, i)[0][0] == lv[0][0]
    ensures forall q :: 1 <= q < |lv| ==> MergedLevels(lv, i)[q] == lv[q]
  {
  }

  lemma MergeRoom(s: seq<Page>, lv: seq<Level>, i: nat, j: nat, c: nat, s': seq<Page>)
    requires Room(s, lv) && Placed(s, lv) && Distinct(lv) && Merged(s, s', lv, i, j, c)
    requires FilledBut(s, lv, lv[0][i].pid) || FilledBut(s, lv, lv[0][i + 1].pid)
    requires Fits(s[lv[0][i].pid].recs + s[lv[0][i + 1].pid].recs)
    ensures Room(s', MergedLevels(lv, i)) && FilledBut(s', MergedLevels(lv, i), lv[1][j].pid)
  {
    var lv': seq<Level> := MergedLevels(lv, i);
    var left, parent := lv[0][i].pid, lv[1][j].pid;
    assert Alone(lv, 0, i) && Alone(lv, 0, i + 1) && Alone(lv, 1, j);
    var recs := s[parent].recs;
    assert recs == recs[..c] + [recs[c]] + recs[c + 1..];
    assert Fits(recs);
    FitsPart(recs[..c], [recs[c]], recs[c + 1..]);
    hide Distinct, Placed;
    forall q, h | 0 <= q < |lv'| && 0 <= h < |lv'[q]|
      ensures Fits(PageAt(s', lv'[q][h].pid).recs)
      ensures lv'[q][h].pid != parent ==> |PageAt(s', lv'[q][h].pid).recs| > 0
    {
      var oldH := if q == 0 && h > i then h + 1 else h;
      assert lv'[q][h] == lv[q][oldH];
      if lv[q][oldH].pid != left && lv[q][oldH].pid != parent {
        assert PageAt(s', lv[q][oldH].pid).recs == PageAt(s, lv[q][oldH].pid).recs;
      }
    }
  }

  /** Nothing is left to do when the page that lost something is not empty. */
  lemma NothingEmpty(s: seq<Page>, lv: seq<Level>, pid: PageId)
    requires FilledBut(s, lv, pid) && PageAt(s, pid).recs != []
    ensures Filled(s, lv)
  {
  }

  /** Dropping an empty root. */
  lemma ShrinkStep(cmp: Cmp, s: seq<Page>, root: PageId, lv: seq<Level>, s': seq<Page>)
    requires Shape(cmp, s, root, lv, NoGap) && Room(s, lv) && FilledBut(s, lv, root)
    requires |lv| > 1 && RootShrink(s, s', root)
    ensures var lv' := lv[..|lv| - 1];
            && Shape(cmp, s', PageAt(s, root).firstChild, lv', NoGap) && Room(s', lv') && Filled(s', lv')
            && Records(s', lv'[0]) == Records(s, lv[0])
  {
    hide Shape, Records, Linked, Distinct, Room, FilledBut, Filled;
    ShrinkShape(cmp, s, root, lv, s');
    ShapeAll(cmp, s, root, lv);
    ShrinkRoom(s, root, lv, s');
    RecordsFrame(s, s', lv[0]);
  }

  lemma ShrinkRoom(s: seq<Page>, root: PageId, lv: seq<Level>, s': seq<Page>)
    requires Linked(s, root, lv, NoGap) && Distinct(lv) && Room(s, lv) && FilledBut(s, lv, root)
    requires |lv| > 1 && RootShrink(s, s', root)
    ensures Room(s', lv[..|lv| - 1]) && Filled(s', lv[..|lv| - 1])
  {
    assert lv[|lv| - 1] == [Edge(NegInf, root)];
    assert Alone(lv, |lv| - 1, 0);
    hide Linked, Distinct;
  }

  /** The next page on the path of a key is a child of the one before. */
  lemma PathChild(cmp: Cmp, s: seq<Page>, root: PageId, lv: seq<Level>, k: Key, q: nat, i: nat, h: nat)
    requires Order(cmp) && Shape(cmp, s, root, lv, NoGap) && 1 <= q < |lv|
    requires i < |lv[q]| && InSpan(cmp, k, lv[q], i) && lv[q][i].pid < |s|
    requires h < |lv[q - 1]| && InSpan(cmp, k, lv[q - 1], h)
    ensures var c := UpperPos(cmp, s[lv[q][i].pid].recs, k);
            c <= |s[lv[q][i].pid].recs| && h == Offset(s, lv[q], i) + c
              && ChildAt(s[lv[q][i].pid], c) == lv[q - 1][h].pid
  {
    var p := s[lv[q][i].pid];
    var c := UpperPos(cmp, p.recs, k);
    PageSorted(cmp, s, root, lv, NoGap, q, i);
    UpperPosIsUpper(cmp, p.recs, k);
    LevelFacts(cmp, s, root, lv, NoGap, q - 1);
    ShapeAll(cmp, s, root, lv);
    assert Expand(s, lv[q]) == Seen(lv, q - 1, NoGap);
    hide Shape, Expand, Kids, Placed, Distinct, Chain;
    ChildIndex(cmp, s, lv[q], k, i, c, h);
    KidPlace(s, root, lv, q, i, c);
    KidAt(lv[q][i].lo, p, c);
  }
}
