/** The rounds of rebalance_after_delete: the leaf merge, the check of its parent,
    and the rounds in which internal pages are merged like leaves. */
module Rebalance {
  import opened Comparator
  import opened Pages
  import opened Levels
  import opened Contents
  import opened Search
  import opened Descent
  import opened InternalSteps
  import opened RootSteps
  import opened MergeSteps
  import opened Deletion
  import opened LostChild

  /** A tree in which only page `pid` may hold too little. */
  ghost predicate TreeBut(cmp: Cmp, s: seq<Page>, root: PageId, lv: seq<Level>, pid: PageId) {
    Order(cmp) && Shape(cmp, s, root, lv, NoGap) && Room(s, lv) && FilledBut(s, lv, pid)
  }

  /** One round's outcome: page `node` and its left neighbour, or its right one if it is a first
      child, were merged, or there was no reason or no room to do so. They are children `c` and
      `c + 1` of `parent`. */
  ghost predicate Round(s: seq<Page>, s': seq<Page>, parent: PageId, node: PageId, c: nat, merged: bool) {
    && parent < |s| && node < |s| && c < |s[parent].recs|
    && var left, right := ChildAt(s[parent], c), ChildAt(s[parent], c + 1);
    && left < |s| && right < |s|
    && (if s[parent].firstChild == node then c == 0 else ChildOf(s[parent].recs[c]) == node)
    && (merged <==>
        && (if s[node].kind == LeafPage then |s[node].recs| < 2 else |s[node].recs| < 1)
        && Fits(s[left].recs + s[right].recs))
    && (merged ==> LeafMerge(s, s', left, right, parent, c))
    && (!merged ==> s' == s)
  }

  /** The rounds from entry `level` of the path up, until one merges nothing or the root is
      reached: they lead from `s` to `t` and end at entry `end`. */
  ghost predicate Rounds(s: seq<Page>, t: seq<Page>, path: seq<PageId>, level: nat, end: nat)
    requires level < |path|
    decreases level
  {
    if level == 0 then t == s && end == 0
    else
      var parent, node, up := path[level - 1], path[level], level - 1;
      || (exists c: nat, u :: Round(s, u, parent, node, c, true) && Rounds(u, t, path, up, end))
      || (t == s && end == level && exists c: nat :: Round(s, s, parent, node, c, false))
  }

  /** All of rebalance_after_delete: the rounds, and the root's only child in its place if they
      reached the root and left it without separators. */
  ghost predicate Rebalanced(s: seq<Page>, root: PageId, s': seq<Page>, root': PageId, path: seq<PageId>)
    requires |path| > 0
  {
    var bottom := |path| - 1;
    exists t, end: nat :: Rounds(s, t, path, bottom, end) && RootStep(t, root, s', root', end)
  }

  ghost predicate RootStep(t: seq<Page>, root: PageId, s': seq<Page>, root': PageId, end: nat) {
    if end == 0 && root < |t| && t[root].kind == InternalPage && t[root].recs == [] then
      RootShrink(t, s', root) && root' == t[root].firstChild
    else s' == t && root' == root
  }

  /** Every further outcome of the rounds from here is one of the rounds from the start. */
  ghost predicate Onward(s0: seq<Page>, s: seq<Page>, path: seq<PageId>, level: nat)
    requires level < |path|
  {
    var bottom := |path| - 1;
    forall t, end: nat :: Rounds(s, t, path, level, end) ==> Rounds(s0, t, path, bottom, end)
  }

  lemma OnwardStart(s: seq<Page>, path: seq<PageId>)
    requires |path| > 0
    ensures Onward(s, s, path, |path| - 1)
  {
  }

  lemma OnwardMerge(s0: seq<Page>, s: seq<Page>, path: seq<PageId>, level: nat, c: nat, s': seq<Page>)
    requires 0 < level < |path| && Onward(s0, s, path, level) && Round(s, s', path[level - 1], path[level], c, true)
    ensures Onward(s0, s', path, level - 1)
  {
    hide Round;
    var up := level - 1;
    forall t, end: nat | Rounds(s', t, path, up, end)
      ensures Rounds(s0, t, path, |path| - 1, end)
    {
      assert Rounds(s, t, path, level, end);
    }
  }

  lemma OnwardStop(s0: seq<Page>, s: seq<Page>, root: PageId, path: seq<PageId>, level: nat, c: nat)
    requires 0 < level < |path| && Onward(s0, s, path, level) && Round(s, s, path[level - 1], path[level], c, false)
    ensures Rebalanced(s0, root, s, root, path)
  {
    hide Round;
    assert Rounds(s, s, path, level, level);
    assert RootStep(s, root, s, root, level);
  }

  lemma OnwardEnd(s0: seq<Page>, s: seq<Page>, root: PageId, path: seq<PageId>, s': seq<Page>, root': PageId)
    requires |path| > 0 && Onward(s0, s, path, 0) && RootStep(s, root, s', root', 0)
    ensures Rebalanced(s0, root, s', root', path)
  {
    assert Rounds(s, s, path, 0, 0);
  }

  // ---------------------------------------------------------------- what becomes of the leaf

  /** The rounds above the leaves touch no leaf's records. */
  ghost predicate LeavesSame(s: seq<Page>, s': seq<Page>) {
    |s'| == |s| && forall x :: 0 <= x < |s| ==>
      s'[x].kind == s[x].kind && (s[x].kind == LeafPage ==> s'[x].recs == s[x].recs)
  }

  /** What the first round does to leaf `leaf`, whose separator in its parent, or its right
      neighbour's if it is a first child, is record `c`; nothing more happens if it does nothing. */
  ghost predicate LeafLands(s: seq<Page>, root: PageId, s': seq<Page>, root': PageId, parent: PageId, leaf: PageId,
                            c: nat)
  {
    && parent < |s| && leaf < |s| && c < |s[parent].recs| && |s'| == |s|
    && (if s[parent].firstChild == leaf then c == 0 else ChildOf(s[parent].recs[c]) == leaf)
    && var left, right := ChildAt(s[parent], c), ChildAt(s[parent], c + 1);
    && left < |s| && right < |s|
    && if |s[leaf].recs| < 2 && Fits(s[left].recs + s[right].recs)
       then s'[left].recs == s[left].recs + s[right].recs
            && forall x :: 0 <= x < |s| && s[x].kind == LeafPage && x != left ==> s'[x].recs == s[x].recs
       else s' == s && root' == root
  }

  /** The first round merged the leaf and gave `m`; the rounds since left the leaves alone. */
  ghost predicate Landed(s: seq<Page>, m: seq<Page>, s': seq<Page>, root: PageId, parent: PageId, leaf: PageId,
                         c: nat) {
    && LeafLands(s, root, m, root, parent, leaf, c) && SameKinds(s, m) && LeavesSame(m, s')
    && s[ChildAt(s[parent], c)].kind == LeafPage
    && |s[leaf].recs| < 2 && Fits(s[ChildAt(s[parent], c)].recs + s[ChildAt(s[parent], c + 1)].recs)
  }

  lemma LandedStart(s: seq<Page>, m: seq<Page>, root: PageId, parent: PageId, leaf: PageId, c: nat)
    requires LeafLands(s, root, m, root, parent, leaf, c) && SameKinds(s, m) && Round(s, m, parent, leaf, c, true)
    requires s[ChildAt(s[parent], c)].kind == LeafPage && s[leaf].kind == LeafPage
    ensures Landed(s, m, m, root, parent, leaf, c)
  {
    hide Fits, LeafMerge;
  }

  lemma LandedMerge(s: seq<Page>, m: seq<Page>, t: seq<Page>, s': seq<Page>, root: PageId, parent: PageId, leaf: PageId,
                    c: nat, up: PageId, node: PageId, d: nat)
    requires Landed(s, m, t, root, parent, leaf, c) && Round(t, s', up, node, d, true)
    requires t[up].kind == InternalPage && t[ChildAt(t[up], d)].kind == InternalPage
    ensures Landed(s, m, s', root, parent, leaf, c)
  {
    hide Fits, LeafLands;
  }

  lemma LandedEnd(s: seq<Page>, m: seq<Page>, t: seq<Page>, s': seq<Page>, root: PageId, root': PageId, parent: PageId,
                  leaf: PageId, c: nat)
    requires Landed(s, m, t, root, parent, leaf, c) && LeavesSame(t, s')
    ensures LeafLands(s, root, s', root', parent, leaf, c)
  {
    hide Fits;
  }

  lemma FirstLands(cmp: Cmp, s: seq<Page>, root: PageId, lv: seq<Level>, path: seq<PageId>, k: Key, ix: seq<nat>,
                   c: nat, s': seq<Page>, merged: bool)
    requires |path| >= 2 && TreeBut(cmp, s, root, lv, path[|path| - 1]) && TreeSteps(cmp, lv, path, k, ix, 0)
    requires Round(s, s', path[|path| - 2], path[|path| - 1], c, merged)
    ensures LeafLands(s, root, s', root, path[|path| - 2], path[|path| - 1], c)
    ensures merged ==> Landed(s, s', s', root, path[|path| - 2], path[|path| - 1], c)
  {
    hide TreeBut, Distinct, FilledBut, Fits, Placed, Shape, InSpan, Landed;
    TreeButParts(cmp, s, root, lv, path[|path| - 1]);
    assert lv[1][ix[1]].pid == path[|path| - 2] && lv[0][ix[0]].pid == path[|path| - 1];
    PlacedAt(s, lv, 0, ix[0]);
    PlacedAt(s, lv, 1, ix[1]);
    LeafKid(cmp, s, root, lv, ix[1], c);
    if merged {
      LandedStart(s, s', root, path[|path| - 2], path[|path| - 1], c);
    }
  }

  lemma LeafKid(cmp: Cmp, s: seq<Page>, root: PageId, lv: seq<Level>, j: nat, c: nat)
    requires Shape(cmp, s, root, lv, NoGap) && |lv| > 1 && j < |lv[1]| && lv[1][j].pid < |s|
    requires c <= |s[lv[1][j].pid].recs|
    ensures var x := ChildAt(s[lv[1][j].pid], c); x < |s| && s[x].kind == LeafPage
  {
    hide Expand, Kids;
    KidAt(lv[1][j].lo, s[lv[1][j].pid], c);
    KidPlace(s, root, lv, 1, j, c);
  }

  ghost predicate SameKinds(s: seq<Page>, s': seq<Page>) {
    |s'| == |s| && forall x :: 0 <= x < |s| ==> s'[x].kind == s[x].kind
  }

  /** Pages merged above the leaves are internal pages. */
  lemma SecondKinds(cmp: Cmp, s0: seq<Page>, lv0: seq<Level>, root: PageId, s: seq<Page>, lv: seq<Level>,
                    path: seq<PageId>, k: Key, ix: seq<nat>, c: nat, s': seq<Page>)
    requires |path| >= 3 && MergedOnce(cmp, s0, lv0, root, s, lv, path, k, ix)
    requires Round(s, s', path[|path| - 3], path[|path| - 2], c, true)
    ensures s[path[|path| - 3]].kind == InternalPage && s[ChildAt(s[path[|path| - 3]], c)].kind == InternalPage
  {
    hide TreeBut, Distinct, FilledBut, LeafMerge, Fits, Placed, Records, Shape, Room, InSpan, Linked;
    TreeButParts(cmp, s, root, lv, path[|path| - 2]);
    InternalOnPath(cmp, s, root, lv, path, k, ix, 2);
    assert lv[2][ix[2]].pid == path[|path| - 3];
    ShapeAll(cmp, s, root, lv);
    var i := InnerKid(s, root, lv, 2, ix[2], c);
  }

  lemma LaterKinds(cmp: Cmp, s0: seq<Page>, lv0: seq<Level>, s1: seq<Page>, root: PageId, lv1: seq<Level>,
                   s: seq<Page>, path: seq<PageId>, k: Key, ix: seq<nat>, level: nat, reach: set<PageId>, lost: Key,
                   c: nat, s': seq<Page>)
    requires LosingSince(cmp, s0, lv0, s1, root, lv1, s, path, k, ix, level, reach, lost)
    requires 0 < level < |path| && Round(s, s', path[level - 1], path[level], c, true)
    ensures s[path[level - 1]].kind == InternalPage && s[ChildAt(s[path[level - 1]], c)].kind == InternalPage
  {
    hide Losing, LeafMerge, MergeKeeps, ToMap, Records, Fits;
    LosingMergeable(cmp, s1, root, lv1, s, path, k, ix, level, reach, lost, path[level - 1]);
  }

  lemma TreeButParts(cmp: Cmp, s: seq<Page>, root: PageId, lv: seq<Level>, pid: PageId)
    requires TreeBut(cmp, s, root, lv, pid)
    ensures Order(cmp) && Shape(cmp, s, root, lv, NoGap) && Room(s, lv) && FilledBut(s, lv, pid)
    ensures Placed(s, lv) && Distinct(lv) && |lv| > 0
  {
  }

  /** A page on the path above the one that may hold too little holds something. */
  lemma ParentHolds(cmp: Cmp, s: seq<Page>, root: PageId, lv: seq<Level>, path: seq<PageId>, k: Key, ix: seq<nat>,
                    q: nat)
    requires 1 <= q < |path| && TreeBut(cmp, s, root, lv, path[|path| - q])
    requires TreeSteps(cmp, lv, path, k, ix, q - 1)
    ensures lv[q][ix[q]].pid == path[|path| - 1 - q] && path[|path| - 1 - q] < |s|
    ensures PageAt(s, path[|path| - 1 - q]).recs != []
  {
    hide TreeBut, Distinct, FilledBut;
    TreeButParts(cmp, s, root, lv, path[|path| - q]);
    DistinctAt(lv, q, ix[q]);
    assert lv[q - 1][ix[q - 1]].pid == path[|path| - q];
    PageHolds(s, lv, path[|path| - q], q, ix[q]);
  }

  /** What the first round leaves: the leaf's parent lost a separator. */
  ghost predicate MergedOnce(cmp: Cmp, s0: seq<Page>, lv0: seq<Level>, root: PageId, s: seq<Page>, lv: seq<Level>,
                             path: seq<PageId>, k: Key, ix: seq<nat>)
  {
    && |path| >= 2 && |lv0| > 0
    && TreeBut(cmp, s, root, lv, path[|path| - 2]) && TreeSteps(cmp, lv, path, k, ix, 1)
    && |lv[0]| > 0 && |lv0[0]| > 0 && lv[0][0].pid == lv0[0][0].pid && Records(s, lv[0]) == Records(s0, lv0[0])
    && |s| == |s0| && path[|path| - 2] < |s| && path[|path| - 1] < |s|
    && |s0[path[|path| - 1]].recs| < 2
    && |s0[path[|path| - 2]].recs| == |s[path[|path| - 2]].recs| + 1
    && (|s0[path[|path| - 2]].recs| == 1 ==>
      var p := s0[path[|path| - 2]]; Fits(PageAt(s0, ChildAt(p, 0)).recs + PageAt(s0, ChildAt(p, 1)).recs))
  }

  lemma FirstStop(cmp: Cmp, s: seq<Page>, root: PageId, lv: seq<Level>, path: seq<PageId>, k: Key, ix: seq<nat>, c: nat)
    requires |path| >= 2 && TreeBut(cmp, s, root, lv, path[|path| - 1]) && TreeSteps(cmp, lv, path, k, ix, 0)
    requires Round(s, s, path[|path| - 2], path[|path| - 1], c, false)
    ensures Filled(s, lv) && MergeKeeps(s, path)
  {
    hide TreeBut, Distinct, FilledBut, Filled, LeafMerge, Fits, Placed;
    var leaf, parent := path[|path| - 1], path[|path| - 2];
    TreeButParts(cmp, s, root, lv, leaf);
    assert PageOk(s[leaf], 0) by {
      assert lv[0][ix[0]].pid == leaf;
      PlacedAt(s, lv, 0, ix[0]);
    }
    if |s[leaf].recs| < 2 {
      var left, right := ChildAt(s[parent], c), ChildAt(s[parent], c + 1);
      if s[leaf].recs == [] {
        OneEmpty(cmp, s, root, lv, path, k, ix, 1, c);
        assert false;
      }
    }
    NothingEmpty(s, lv, leaf);
  }

  lemma PlacedAt(s: seq<Page>, lv: seq<Level>, q: nat, i: nat)
    requires Placed(s, lv) && q < |lv| && i < |lv[q]|
    ensures lv[q][i].pid < |s| && PageOk(s[lv[q][i].pid], q)
  {
  }

  /** An empty page always fits together with its neighbour. */
  lemma OneEmpty(cmp: Cmp, s: seq<Page>, root: PageId, lv: seq<Level>, path: seq<PageId>, k: Key, ix: seq<nat>,
                 q: nat, c: nat)
    requires 1 <= q < |path| && TreeBut(cmp, s, root, lv, path[|path| - q]) && TreeSteps(cmp, lv, path, k, ix, q - 1)
    requires path[|path| - 1 - q] < |s| && c < |s[path[|path| - 1 - q]].recs|
    requires var p := s[path[|path| - 1 - q]];
             && ChildAt(p, c) < |s| && ChildAt(p, c + 1) < |s|
             && (s[ChildAt(p, c)].recs == [] || s[ChildAt(p, c + 1)].recs == [])
    ensures var p := s[path[|path| - 1 - q]]; Fits(s[ChildAt(p, c)].recs + s[ChildAt(p, c + 1)].recs)
  {
    hide TreeBut, Distinct, FilledBut, Fits, Expand, Placed, Room, Shape, Offset, Linked, Kids, InSpan;
    var p := s[path[|path| - 1 - q]];
    TreeButParts(cmp, s, root, lv, path[|path| - q]);
    ShapeAll(cmp, s, root, lv);
    assert lv[q][ix[q]].pid == path[|path| - 1 - q];
    KidAt(lv[q][ix[q]].lo, p, c);
    KidAt(lv[q][ix[q]].lo, p, c + 1);
    KidPlace(s, root, lv, q, ix[q], c);
    KidPlace(s, root, lv, q, ix[q], c + 1);
    PageRoom(s, lv, q - 1, Offset(s, lv[q], ix[q]) + c);
    PageRoom(s, lv, q - 1, Offset(s, lv[q], ix[q]) + c + 1);
    EmptySide(s[ChildAt(p, c)].recs, s[ChildAt(p, c + 1)].recs);
  }

  lemma EmptySide(l: seq<Rec>, r: seq<Rec>)
    requires (l == [] && Fits(r)) || (r == [] && Fits(l))
    ensures Fits(l + r)
  {
    assert l == [] ==> l + r == r;
    assert r == [] ==> l + r == l;
  }

  lemma FirstMerge(cmp: Cmp, s: seq<Page>, root: PageId, lv: seq<Level>, path: seq<PageId>, k: Key, ix: seq<nat>,
                   c: nat, s': seq<Page>) returns (lv': seq<Level>)
    requires |path| >= 2 && TreeBut(cmp, s, root, lv, path[|path| - 1]) && TreeSteps(cmp, lv, path, k, ix, 0)
    requires Round(s, s', path[|path| - 2], path[|path| - 1], c, true)
    ensures MergedOnce(cmp, s, lv, root, s', lv', path, k, ix)
  {
    hide Shape, Distinct, FilledBut, LeafMerge, Fits, Placed, Records, Room, MergedLevels, Order, InSpan, Expand;
    var leaf, parent := path[|path| - 1], path[|path| - 2];
    TreeButParts(cmp, s, root, lv, leaf);
    assert lv[1][ix[1]].pid == parent && lv[0][ix[0]].pid == leaf;
    PlacedAt(s, lv, 0, ix[0]);
    LeafMergeStep(cmp, s, root, lv, ix[1], c, s');
    var i := Offset(s, lv[1], ix[1]) + c;
    MergeFirst(lv, i);
    MergedSizes(s, s', ChildAt(s[parent], c), ChildAt(s[parent], c + 1), parent, c);
    lv' := MergedLevels(lv, i);
  }

  lemma MergedSizes(s: seq<Page>, s': seq<Page>, left: PageId, right: PageId, parent: PageId, c: nat)
    requires LeafMerge(s, s', left, right, parent, c)
    ensures |s'| == |s| && |s[parent].recs| == |s'[parent].recs| + 1
  {
  }

  /** Second round, nothing merged: the parent kept a separator, so the tree is whole. */
  lemma SecondStop(cmp: Cmp, s0: seq<Page>, lv0: seq<Level>, root: PageId, s: seq<Page>, lv: seq<Level>,
                   path: seq<PageId>, k: Key, ix: seq<nat>, c: nat)
    requires |path| >= 3 && MergedOnce(cmp, s0, lv0, root, s, lv, path, k, ix)
    requires Round(s, s, path[|path| - 3], path[|path| - 2], c, false)
    ensures Filled(s, lv) && MergeKeeps(s0, path)
  {
    hide TreeBut, Distinct, FilledBut, Filled, LeafMerge, Fits, Placed, Records;
    var parent := path[|path| - 2];
    TreeButParts(cmp, s, root, lv, parent);
    InternalOnPath(cmp, s, root, lv, path, k, ix, 1);
    if s[parent].recs == [] {
      OneEmpty(cmp, s, root, lv, path, k, ix, 2, c);
      assert false;
    }
    NothingEmpty(s, lv, parent);
  }

  lemma InternalOnPath(cmp: Cmp, s: seq<Page>, root: PageId, lv: seq<Level>, path: seq<PageId>, k: Key, ix: seq<nat>,
                       q: nat)
    requires 1 <= q < |path| && TreeBut(cmp, s, root, lv, path[|path| - 2]) && TreeSteps(cmp, lv, path, k, ix, 1)
    ensures path[|path| - 1 - q] < |s| && s[path[|path| - 1 - q]].kind == InternalPage
  {
    hide TreeBut, Placed;
    TreeButParts(cmp, s, root, lv, path[|path| - 2]);
    assert lv[q][ix[q]].pid == path[|path| - 1 - q];
    PlacedAt(s, lv, q, ix[q]);
  }

  /** Second round, merged: the parent had lost its only separator, and a key is lost. */
  lemma SecondMerge(cmp: Cmp, s0: seq<Page>, lv0: seq<Level>, root: PageId, s: seq<Page>, lv: seq<Level>,
                    path: seq<PageId>, k: Key, ix: seq<nat>, c: nat, s': seq<Page>)
    returns (reach: set<PageId>, lost: Key)
    requires |path| >= 3 && MergedOnce(cmp, s0, lv0, root, s, lv, path, k, ix)
    requires Round(s, s', path[|path| - 3], path[|path| - 2], c, true)
    ensures LosingSince(cmp, s0, lv0, s, root, lv, s', path, k, ix, |path| - 3, reach, lost)
  {
    hide TreeBut, Distinct, FilledBut, Filled, LeafMerge, Fits, Placed, Records, Shape, Order, Room, InSpan, ToMap,
      Sealed;
    var grand := path[|path| - 3];
    TreeButParts(cmp, s, root, lv, path[|path| - 2]);
    InternalOnPath(cmp, s, root, lv, path, k, ix, 1);
    assert lv[2][ix[2]].pid == grand;
    LeavesHold(cmp, s, root, lv, path, k, ix);
    reach, lost := InnerMergeLoses(cmp, s, root, lv, ix[2], c, s');
    InnerMergeFrame(cmp, s, root, lv, path, k, ix, c, s');
  }

  lemma LeavesHold(cmp: Cmp, s: seq<Page>, root: PageId, lv: seq<Level>, path: seq<PageId>, k: Key, ix: seq<nat>)
    requires |path| >= 3 && TreeBut(cmp, s, root, lv, path[|path| - 2]) && TreeSteps(cmp, lv, path, k, ix, 1)
    ensures forall i :: 0 <= i < |lv[0]| ==> PageAt(s, lv[0][i].pid).recs != []
  {
    hide TreeBut, Placed, Distinct, FilledBut;
    TreeButParts(cmp, s, root, lv, path[|path| - 2]);
    assert lv[1][ix[1]].pid == path[|path| - 2];
    DistinctAt(lv, 1, ix[1]);
    forall i | 0 <= i < |lv[0]|
      ensures PageAt(s, lv[0][i].pid).recs != []
    {
      PageHolds(s, lv, path[|path| - 2], 0, i);
    }
  }

  /** The internal merge leaves the kinds of pages and the path above it alone. */
  lemma InnerMergeFrame(cmp: Cmp, s: seq<Page>, root: PageId, lv: seq<Level>, path: seq<PageId>, k: Key, ix: seq<nat>,
                        c: nat, s': seq<Page>)
    requires Shape(cmp, s, root, lv, NoGap) && |path| >= 3 && TreeSteps(cmp, lv, path, k, ix, 1)
    requires lv[2][ix[2]].pid == path[|path| - 3] && InnerMerge(s, s', lv, ix[2], c)
    ensures |s'| == |s| && forall x :: 0 <= x < |s| ==> s'[x].kind == s[x].kind
    ensures forall l :: 0 <= l < |path| - 3 ==> path[l] < |s| && s'[path[l]] == s[path[l]]
  {
    hide Shape, Distinct, LeafMerge, InSpan;
    ShapeAll(cmp, s, root, lv);
    var g := s[path[|path| - 3]];
    hide Linked, Placed, Chain, Expand;
    KidAt(lv[2][ix[2]].lo, g, c + 1);
    KidPlace(s, root, lv, 2, ix[2], c + 1);
    InnerMergePages(s, root, lv, ix[2], c, s', Offset(s, lv[2], ix[2]) + c + 1);
    forall l | 0 <= l < |path| - 3
      ensures path[l] < |s| && s'[path[l]] == s[path[l]]
    {
      var q := |path| - 1 - l;
      assert lv[q][ix[q]].pid == path[l];
      PlacedAt(s, lv, q, ix[q]);
      DistinctAt(lv, q, ix[q]);
    }
  }

  // ---------------------------------------------------------------- the loop, round by round

  /** The state from the second merge on. */
  ghost predicate LosingSince(cmp: Cmp, s0: seq<Page>, lv0: seq<Level>, s1: seq<Page>, root: PageId, lv1: seq<Level>,
                              s: seq<Page>, path: seq<PageId>, k: Key, ix: seq<nat>, level: int, reach: set<PageId>,
                              lost: Key)
  {
    && |path| > 0 && |lv0| > 0 && !MergeKeeps(s0, path) && lost in ToMap(Records(s0, lv0[0]))
    && Losing(cmp, s1, root, lv1, s, path, k, ix, level, reach, lost)
  }

  lemma TreeButIntro(cmp: Cmp, s: seq<Page>, root: PageId, lv: seq<Level>, pid: PageId)
    requires Order(cmp) && Shape(cmp, s, root, lv, NoGap) && Room(s, lv) && FilledBut(s, lv, pid)
    ensures TreeBut(cmp, s, root, lv, pid)
  {
  }

  lemma FirstMergeable(cmp: Cmp, s: seq<Page>, root: PageId, lv: seq<Level>, path: seq<PageId>, k: Key, ix: seq<nat>)
    requires |path| >= 2 && TreeBut(cmp, s, root, lv, path[|path| - 1]) && TreeSteps(cmp, lv, path, k, ix, 0)
    ensures Mergeable(s, path[|path| - 2], path[|path| - 1]) && path[|path| - 1] < |s|
  {
    hide TreeBut, Shape, Mergeable, FilledBut, Distinct, Placed;
    TreeButParts(cmp, s, root, lv, path[|path| - 1]);
    ParentHolds(cmp, s, root, lv, path, k, ix, 1);
    PathMergeable(cmp, s, root, lv, path, k, ix, |path| - 1);
  }

  lemma SecondMergeable(cmp: Cmp, s0: seq<Page>, lv0: seq<Level>, root: PageId, s: seq<Page>, lv: seq<Level>,
                        path: seq<PageId>, k: Key, ix: seq<nat>)
    requires |path| >= 3 && MergedOnce(cmp, s0, lv0, root, s, lv, path, k, ix)
    ensures Mergeable(s, path[|path| - 3], path[|path| - 2]) && path[|path| - 2] < |s|
  {
    hide TreeBut, Shape, Mergeable, FilledBut, Distinct, Placed, Records, Fits;
    TreeButParts(cmp, s, root, lv, path[|path| - 2]);
    ParentHolds(cmp, s, root, lv, path, k, ix, 2);
    PathMergeable(cmp, s, root, lv, path, k, ix, |path| - 2);
  }

  lemma LaterMergeable(cmp: Cmp, s0: seq<Page>, lv0: seq<Level>, s1: seq<Page>, root: PageId, lv1: seq<Level>,
                       s: seq<Page>, path: seq<PageId>, k: Key, ix: seq<nat>, level: nat, reach: set<PageId>,
                       lost: Key, pid: PageId)
    requires LosingSince(cmp, s0, lv0, s1, root, lv1, s, path, k, ix, level, reach, lost)
    requires 0 < level < |path| && pid == path[level - 1]
    ensures Mergeable(s, pid, path[level]) && path[level] < |s|
  {
    hide Losing, Mergeable;
    LosingMergeable(cmp, s1, root, lv1, s, path, k, ix, level, reach, lost, pid);
  }

  lemma LaterMerge(cmp: Cmp, s0: seq<Page>, lv0: seq<Level>, s1: seq<Page>, root: PageId, lv1: seq<Level>,
                   s: seq<Page>, path: seq<PageId>, k: Key, ix: seq<nat>, level: nat, reach: set<PageId>, lost: Key,
                   c: nat, s': seq<Page>)
    requires LosingSince(cmp, s0, lv0, s1, root, lv1, s, path, k, ix, level, reach, lost)
    requires 0 < level < |path| && Round(s, s', path[level - 1], path[level], c, true)
    ensures LosingSince(cmp, s0, lv0, s1, root, lv1, s', path, k, ix, level - 1, reach, lost)
  {
    hide Losing, LeafMerge, MergeKeeps, ToMap, Records;
    LosingStep(cmp, s1, root, lv1, s, path, k, ix, level, reach, lost, c, s');
  }

  /** Whatever happens from here on, the lost key is not found. */
  lemma LaterStop(cmp: Cmp, s0: seq<Page>, lv0: seq<Level>, s1: seq<Page>, root: PageId, lv1: seq<Level>, s: seq<Page>,
                  path: seq<PageId>, k: Key, ix: seq<nat>, level: nat, reach: set<PageId>, lost: Key)
    requires LosingSince(cmp, s0, lv0, s1, root, lv1, s, path, k, ix, level, reach, lost)
    ensures |path| > 0 && |lv0| > 0 && !MergeKeeps(s0, path)
    ensures lost in ToMap(Records(s0, lv0[0])) && Lookup(cmp, s, root, lost) == None
  {
    hide Shape, MergeKeeps, ToMap, Records, FilledBut, Sealed, Lookup;
    SealedLookup(cmp, s, root, reach, lost);
  }

  // ---------------------------------------------------------------- after the loop

  lemma RootOnPath(cmp: Cmp, s: seq<Page>, root: PageId, lv: seq<Level>, path: seq<PageId>, k: Key, ix: seq<nat>,
                   from: nat)
    requires Shape(cmp, s, root, lv, NoGap) && from < |path| && TreeSteps(cmp, lv, path, k, ix, from)
    ensures path[0] == root && root < |s| && PageOk(s[root], |path| - 1)
  {
    hide Distinct, Bounds, Leaves, Parents, Chain, Expand;
    var top := |lv| - 1;
    assert lv[top] == [Edge(NegInf, root)];
    PlacedAt(s, lv, top, 0);
    assert lv[top][ix[top]].pid == path[0];
  }

  /** The tree is a single leaf. */
  lemma EndAtLeaf(cmp: Cmp, s: seq<Page>, root: PageId, lv: seq<Level>, path: seq<PageId>, k: Key, ix: seq<nat>)
    requires |path| == 1 && TreeBut(cmp, s, root, lv, path[0]) && TreeSteps(cmp, lv, path, k, ix, 0)
    ensures path[0] == root && root < |s| && s[root].kind == LeafPage
    ensures Filled(s, lv) && MergeKeeps(s, path)
  {
    hide TreeBut, Shape;
    TreeButParts(cmp, s, root, lv, path[0]);
    RootOnPath(cmp, s, root, lv, path, k, ix, 0);
  }

  /** The root lost a separator: if it was the last, its only child becomes the root. */
  lemma EndAtRoot(cmp: Cmp, s0: seq<Page>, lv0: seq<Level>, root: PageId, s: seq<Page>, lv: seq<Level>,
                  path: seq<PageId>, k: Key, ix: seq<nat>)
    requires |path| == 2 && MergedOnce(cmp, s0, lv0, root, s, lv, path, k, ix)
    ensures path[0] == root && root < |s| && s[root].kind == InternalPage && s[root].firstChild < |s|
    ensures MergeKeeps(s0, path) && |lv| == 2
    ensures |lv0| > 0 && |lv[0]| > 0 && |lv0[0]| > 0 && lv[0][0].pid == lv0[0][0].pid
    ensures s[root].recs != [] ==> Filled(s, lv)
    ensures s[root].recs == [] ==>
      var s' := s[s[root].firstChild := s[s[root].firstChild].(parent := INVALID_PAGE_ID)];
      && Shape(cmp, s', s[root].firstChild, lv[..1], NoGap) && Room(s', lv[..1]) && Filled(s', lv[..1])
      && Records(s', lv[0]) == Records(s0, lv0[0])
  {
    hide TreeBut, Shape, FilledBut, Filled, Room, Records, Fits, MergeKeeps, Distinct, Linked;
    assert MergeKeeps(s0, path) by { ShortPath(s0, path); }
    TreeButParts(cmp, s, root, lv, path[0]);
    RootOnPath(cmp, s, root, lv, path, k, ix, 1);
    FirstChildIn(cmp, s, root, lv);
    if s[root].recs == [] {
      ShrinkStep(cmp, s, root, lv, s[s[root].firstChild := s[s[root].firstChild].(parent := INVALID_PAGE_ID)]);
    } else {
      NothingEmpty(s, lv, root);
    }
  }

  lemma ShortPath(s: seq<Page>, path: seq<PageId>)
    requires 0 < |path| <= 2
    ensures MergeKeeps(s, path)
  {
  }

  lemma FirstChildIn(cmp: Cmp, s: seq<Page>, root: PageId, lv: seq<Level>)
    requires Shape(cmp, s, root, lv, NoGap) && |lv| > 1 && root < |s|
    ensures s[root].firstChild < |s|
  {
    hide Placed, Distinct, Bounds, Leaves, Chain, Expand;
    var top := |lv| - 1;
    assert lv[top] == [Edge(NegInf, root)];
    assert lv[top][0].pid == root;
    assert ParentOf(s, root);
  }

  /** The root of a tree that lost a key may shrink, too. */
  lemma EndLosing(cmp: Cmp, s0: seq<Page>, lv0: seq<Level>, s1: seq<Page>, root: PageId, lv1: seq<Level>, s: seq<Page>,
                  path: seq<PageId>, k: Key, ix: seq<nat>, level: nat, reach: set<PageId>, lost: Key)
    requires LosingSince(cmp, s0, lv0, s1, root, lv1, s, path, k, ix, level, reach, lost)
    ensures |path| > 0 && |lv0| > 0 && !MergeKeeps(s0, path)
    ensures lost in ToMap(Records(s0, lv0[0])) && Lookup(cmp, s, root, lost) == None
    ensures path[0] == root && root < |s| && s[root].kind == InternalPage && s[root].firstChild < |s|
    ensures s[root].recs == [] ==>
      Lookup(cmp, s[s[root].firstChild := s[s[root].firstChild].(parent := INVALID_PAGE_ID)], s[root].firstChild,
        lost) == None
  {
    hide Shape, MergeKeeps, ToMap, Records, FilledBut, Sealed, Lookup, SealedPage;
    SealedLookup(cmp, s, root, reach, lost);
    RootOnPath(cmp, s1, root, lv1, path, k, ix, 1);
    RootSealed(s, root, reach, lost);
    if s[root].recs == [] {
      var s' := s[s[root].firstChild := s[s[root].firstChild].(parent := INVALID_PAGE_ID)];
      SealedShrink(s, root, reach, lost, s');
      SealedLookup(cmp, s', s[root].firstChild, reach, lost);
    }
  }

  lemma RootSealed(s: seq<Page>, root: PageId, reach: set<PageId>, lost: Key)
    requires Sealed(s, root, reach, lost) && root < |s| && s[root].kind == InternalPage
    ensures s[root].firstChild < |s|
  {
    assert SealedPage(s, root, reach, lost);
    assert ChildAt(s[root], 0) == s[root].firstChild;
    assert SealedPage(s, s[root].firstChild, reach, lost);
  }
}
