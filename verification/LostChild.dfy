/** What rebalance_after_delete does to an internal page that ran empty: it merges
    the page like a leaf, and the right page's first child is lost. */
module LostChild {
  import opened Comparator
  import opened Pages
  import opened Levels
  import opened Contents
  import opened Search
  import opened Descent
  import opened Fitting
  import opened InternalSteps
  import opened RootSteps
  import opened MergeSteps
  import opened LeafPut
  import opened Deletion

  /** A set of pages that no search leaves, and in whose leaves `lost` is not stored. */
  ghost predicate Sealed(s: seq<Page>, root: PageId, reach: set<PageId>, lost: Key) {
    root in reach && forall p :: p in reach ==> SealedPage(s, p, reach, lost)
  }

  ghost predicate SealedPage(s: seq<Page>, p: PageId, reach: set<PageId>, lost: Key) {
    && p < |s|
    && (s[p].kind == LeafPage ==> lost !in ToMap(s[p].recs))
    && (s[p].kind == InternalPage ==>
          && s[p].next == INVALID_PAGE_ID
          && forall c :: 0 <= c <= |s[p].recs| ==> ChildAt(s[p], c) in reach)
  }

  lemma {:induction false} SealedPath(cmp: Cmp, s: seq<Page>, root: PageId, reach: set<PageId>, lost: Key,
                                      pid: PageId, k: Key, fuel: nat)
    requires Sealed(s, root, reach, lost) && pid in reach
    ensures PathOf(cmp, s, pid, k, fuel)[|PathOf(cmp, s, pid, k, fuel)| - 1] in reach
    decreases fuel
  {
    assert SealedPage(s, pid, reach, lost);
    if fuel > 0 && s[pid].kind != LeafPage {
      SealedPath(cmp, s, root, reach, lost, ChildAt(s[pid], UpperPos(cmp, s[pid].recs, k)), k, fuel - 1);
    }
  }

  /** No search finds the lost key. */
  lemma SealedLookup(cmp: Cmp, s: seq<Page>, root: PageId, reach: set<PageId>, lost: Key)
    requires Sealed(s, root, reach, lost)
    ensures Lookup(cmp, s, root, lost) == None
  {
    SealedPath(cmp, s, root, reach, lost, root, lost, BTREE_MAX_DEPTH - 1);
    var path := FullPath(cmp, s, root, lost);
    assert SealedPage(s, path[|path| - 1], reach, lost);
  }

  /** Further merges of sealed internal pages do not bring the key back. */
  lemma SealedMerge(s: seq<Page>, root: PageId, reach: set<PageId>, lost: Key, parent: PageId, c: nat, s': seq<Page>)
    requires Sealed(s, root, reach, lost) && parent in reach && parent < |s|
    requires s[parent].kind == InternalPage && c < |s[parent].recs|
    requires var l, r := ChildAt(s[parent], c), ChildAt(s[parent], c + 1);
             && l < |s| && r < |s| && l != parent && s[l].kind == InternalPage && s[r].kind == InternalPage
             && LeafMerge(s, s', l, r, parent, c)
    ensures Sealed(s', root, reach, lost)
  {
    var l, r := ChildAt(s[parent], c), ChildAt(s[parent], c + 1);
    assert SealedPage(s, parent, reach, lost);
    assert SealedPage(s, l, reach, lost) && SealedPage(s, r, reach, lost);
    forall p | p in reach
      ensures SealedPage(s', p, reach, lost)
    {
      assert SealedPage(s, p, reach, lost);
      if p == l {
        MergedKids(s[l], s[r], s'[l], reach);
      } else if p == parent {
        FewerKids(s[parent], c, s'[parent], reach);
      }
    }
  }

  lemma MergedKids(l: Page, r: Page, m: Page, reach: set<PageId>)
    requires m.firstChild == l.firstChild && m.recs == l.recs + r.recs
    requires forall c :: 0 <= c <= |l.recs| ==> ChildAt(l, c) in reach
    requires forall c :: 1 <= c <= |r.recs| ==> ChildAt(r, c) in reach
    ensures forall c :: 0 <= c <= |m.recs| ==> ChildAt(m, c) in reach
  {
    forall c | 0 <= c <= |m.recs|
      ensures ChildAt(m, c) in reach
    {
      if c <= |l.recs| {
        assert ChildAt(m, c) == ChildAt(l, c);
      } else {
        assert ChildAt(m, c) == ChildAt(r, c - |l.recs|);
      }
    }
  }

  lemma FewerKids(p: Page, c: nat, q: Page, reach: set<PageId>)
    requires c < |p.recs| && q.firstChild == p.firstChild && q.recs == RemoveAt(p.recs, c)
    requires forall d :: 0 <= d <= |p.recs| && d != c + 1 ==> ChildAt(p, d) in reach
    ensures forall d :: 0 <= d <= |q.recs| ==> ChildAt(q, d) in reach
  {
    forall d | 0 <= d <= |q.recs|
      ensures ChildAt(q, d) in reach
    {
      assert ChildAt(q, d) == ChildAt(p, if d <= c then d else d + 1);
    }
  }

  /** A root shrink moves the root within the sealed pages. */
  lemma SealedShrink(s: seq<Page>, root: PageId, reach: set<PageId>, lost: Key, s': seq<Page>)
    requires Sealed(s, root, reach, lost) && root < |s| && s[root].kind == InternalPage && RootShrink(s, s', root)
    ensures Sealed(s', s[root].firstChild, reach, lost)
  {
    assert SealedPage(s, root, reach, lost);
    assert ChildAt(s[root], 0) == s[root].firstChild;
    forall p | p in reach
      ensures SealedPage(s', p, reach, lost)
    {
      assert SealedPage(s, p, reach, lost);
      SameChildAt(s[p], s'[p]);
    }
  }

  lemma SameChildAt(p: Page, q: Page)
    requires p.firstChild == q.firstChild && p.recs == q.recs
    ensures forall c :: 0 <= c <= |p.recs| ==> ChildAt(q, c) == ChildAt(p, c)
  {
  }

  // ---------------------------------------------------------------- the first internal merge

  /** The pages of the tree other than `a` and `b`. */
  ghost function OtherPages(lv: seq<Level>, a: PageId, b: PageId): set<PageId> {
    (set q, i | 0 <= q < |lv| && 0 <= i < |lv[q]| :: lv[q][i].pid) - {a, b}
  }

  /** Children `c` and `c + 1` of page `j` of level 2 were merged like leaves. */
  ghost predicate InnerMerge(s: seq<Page>, s': seq<Page>, lv: seq<Level>, j: nat, c: nat) {
    && 2 < |lv| && j < |lv[2]| && lv[2][j].pid < |s| && c < |s[lv[2][j].pid].recs|
    && LeafMerge(s, s', ChildAt(s[lv[2][j].pid], c), ChildAt(s[lv[2][j].pid], c + 1), lv[2][j].pid, c)
  }

  /** The leaf that the merge loses: its place, and a record of it. */
  lemma LostLeaf(cmp: Cmp, s: seq<Page>, root: PageId, lv: seq<Level>, j: nat, c: nat, s': seq<Page>)
    returns (h: nat, x: nat)
    requires Order(cmp) && Shape(cmp, s, root, lv, NoGap) && InnerMerge(s, s', lv, j, c)
    ensures h == Offset(s, lv[2], j) + c + 1 && h < |lv[1]| && lv[1][h].pid == ChildAt(s[lv[2][j].pid], c + 1)
    ensures lv[1][h].pid < |s|
    ensures x == Offset(s, lv[1], h) && x < |lv[0]| && lv[0][x].pid == s[lv[1][h].pid].firstChild
  {
    hide Shape, Linked, Distinct, Chain, Expand, LeafMerge;
    ShapeAll(cmp, s, root, lv);
    h := Offset(s, lv[2], j) + c + 1;
    KidAt(lv[2][j].lo, s[lv[2][j].pid], c + 1);
    KidPlace(s, root, lv, 2, j, c + 1);
    x := Offset(s, lv[1], h);
    KidAt(lv[1][h].lo, s[lv[1][h].pid], 0);
    KidPlace(s, root, lv, 1, h, 0);
  }

  /** A child is among the other pages, unless it is one of the two left out. */
  lemma KidReached(s: seq<Page>, root: PageId, lv: seq<Level>, j: nat, c: nat, h: nat, x: nat, q: nat, i: nat, d: nat)
    requires Linked(s, root, lv, NoGap) && Distinct(lv) && 2 < |lv|
    requires j < |lv[2]| && c < |PageAt(s, lv[2][j].pid).recs| && h < |lv[1]| && x < |lv[0]|
    requires lv[1][h].pid == ChildAt(PageAt(s, lv[2][j].pid), c + 1)
    requires lv[0][x].pid == ChildAt(PageAt(s, lv[1][h].pid), 0)
    requires 1 <= q < |lv| && i < |lv[q]| && d <= |PageAt(s, lv[q][i].pid).recs|
    requires !(q == 1 && i == h && d == 0) && !(q == 2 && i == j && d == c + 1)
    ensures ChildAt(PageAt(s, lv[q][i].pid), d) in OtherPages(lv, lv[0][x].pid, lv[1][h].pid)
  {
    hide Linked, Distinct, Expand;
    var kid := ChildAt(PageAt(s, lv[q][i].pid), d);
    KidAt(lv[q][i].lo, PageAt(s, lv[q][i].pid), d);
    KidAt(lv[2][j].lo, PageAt(s, lv[2][j].pid), c + 1);
    KidAt(lv[1][h].lo, PageAt(s, lv[1][h].pid), 0);
    hide Kids;
    KidPlace(s, root, lv, q, i, d);
    if kid == lv[0][x].pid {
      KidUnique(s, root, lv, 1, h, 0, q, i, d);
    }
    if kid == lv[1][h].pid {
      KidUnique(s, root, lv, 2, j, c + 1, q, i, d);
    }
    assert lv[q - 1][Offset(s, lv[q], i) + d].pid == kid;
  }

  /** The record of the lost leaf is in no other leaf. */
  lemma LostElsewhere(cmp: Cmp, s: seq<Page>, root: PageId, lv: seq<Level>, x: nat, i: nat)
    requires Order(cmp) && Shape(cmp, s, root, lv, NoGap) && |lv| > 0
    requires x < |lv[0]| && i < |lv[0]| && i != x && PageAt(s, lv[0][x].pid).recs != []
    ensures PageAt(s, lv[0][x].pid).recs[0].key !in ToMap(PageAt(s, lv[0][i].pid).recs)
  {
    LeafFacts(cmp, s, root, lv, NoGap, x);
    LeafFacts(cmp, s, root, lv, NoGap, i);
    LevelFacts(cmp, s, root, lv, NoGap, 0);
    hide Shape, ToMap, Sorted, Ascending, Order;
    var lost := s[lv[0][x].pid].recs[0].key;
    var recs := s[lv[0][i].pid].recs;
    ToMapKeys(recs, lost);
    forall t | 0 <= t < |recs|
      ensures recs[t].key != lost
    {
      if recs[t].key == lost {
        SpanUnique(cmp, lost, lv[0], i, x);
      }
    }
  }

  /** Every other page is sealed after the merge. */
  lemma SealOne(cmp: Cmp, s: seq<Page>, root: PageId, lv: seq<Level>, j: nat, c: nat, s': seq<Page>, h: nat, x: nat,
                q: nat, i: nat)
    requires Order(cmp) && Shape(cmp, s, root, lv, NoGap) && InnerMerge(s, s', lv, j, c)
    requires h < |lv[1]| && lv[1][h].pid == ChildAt(s[lv[2][j].pid], c + 1) && lv[1][h].pid < |s|
    requires x < |lv[0]| && lv[0][x].pid == s[lv[1][h].pid].firstChild && PageAt(s, lv[0][x].pid).recs != []
    requires q < |lv| && i < |lv[q]| && lv[q][i].pid != lv[0][x].pid && lv[q][i].pid != lv[1][h].pid
    ensures SealedPage(s', lv[q][i].pid, OtherPages(lv, lv[0][x].pid, lv[1][h].pid),
      PageAt(s, lv[0][x].pid).recs[0].key)
  {
    var reach := OtherPages(lv, lv[0][x].pid, lv[1][h].pid);
    var p, g := lv[q][i].pid, s[lv[2][j].pid];
    ShapeAll(cmp, s, root, lv);
    InnerMergePages(s, root, lv, j, c, s', h);
    assert PageOk(s[p], q);
    assert Alone(lv, q, i);
    if q == 0 {
      LostElsewhere(cmp, s, root, lv, x, i);
    } else {
      hide Shape, Linked, Distinct, Placed, Chain, OtherPages, ToMap;
      forall d | 0 <= d <= |s[p].recs| && !(q == 2 && i == j && d == c + 1)
        ensures ChildAt(s[p], d) in reach
      {
        KidReached(s, root, lv, j, c, h, x, q, i, d);
      }
      if p == ChildAt(g, c) {
        forall d | 1 <= d <= |s[lv[1][h].pid].recs|
          ensures ChildAt(s[lv[1][h].pid], d) in reach
        {
          KidReached(s, root, lv, j, c, h, x, 1, h, d);
        }
        MergedKids(s[p], s[lv[1][h].pid], s'[p], reach);
      } else if p == lv[2][j].pid {
        FewerKids(g, c, s'[p], reach);
      }
    }
  }

  /** The merge changes the left child and the parent only: internal pages link to no page. */
  lemma InnerMergePages(s: seq<Page>, root: PageId, lv: seq<Level>, j: nat, c: nat, s': seq<Page>, h: nat)
    requires Linked(s, root, lv, NoGap) && Placed(s, lv) && Distinct(lv) && InnerMerge(s, s', lv, j, c)
    requires h < |lv[1]| && lv[1][h].pid == ChildAt(s[lv[2][j].pid], c + 1)
    ensures var l, r := ChildAt(s[lv[2][j].pid], c), lv[1][h].pid;
            && l < |s| && r < |s| && |s'| == |s| && l != lv[2][j].pid
            && (exists g :: 0 <= g < |lv[1]| && lv[1][g].pid == l)
            && s'[l] == s[l].(recs := s[l].recs + s[r].recs)
            && s'[lv[2][j].pid] == s[lv[2][j].pid].(recs := RemoveAt(s[lv[2][j].pid].recs, c))
            && (forall x :: 0 <= x < |s| && x != l && x != lv[2][j].pid ==> s'[x] == s[x])
  {
    hide Linked, Distinct, Expand;
    var p := s[lv[2][j].pid];
    KidAt(lv[2][j].lo, p, c);
    hide Kids;
    KidPlace(s, root, lv, 2, j, c);
    KidNotSelf(s, root, lv, 2, j, c);
    var g := Offset(s, lv[2], j) + c;
    assert lv[1][g].pid == ChildAt(p, c);
    assert PageOk(s[lv[1][g].pid], 1) && PageOk(s[lv[1][h].pid], 1);
  }

  /** After the merge, the records of the right page's first child are out of reach. */
  lemma InnerMergeLoses(cmp: Cmp, s: seq<Page>, root: PageId, lv: seq<Level>, j: nat, c: nat, s': seq<Page>)
    returns (reach: set<PageId>, lost: Key)
    requires Order(cmp) && Shape(cmp, s, root, lv, NoGap) && InnerMerge(s, s', lv, j, c)
    requires forall i :: 0 <= i < |lv[0]| ==> PageAt(s, lv[0][i].pid).recs != []
    ensures Sealed(s', root, reach, lost) && lost in ToMap(Records(s, lv[0]))
    ensures forall q, i {:trigger lv[q][i]} :: 2 <= q < |lv| && 0 <= i < |lv[q]| ==> lv[q][i].pid in reach
  {
    hide Shape, Linked, Distinct, Placed, Chain, ToMap, SealedPage, Records, OtherPages, LeafMerge;
    var h, x := LostLeaf(cmp, s, root, lv, j, c, s');
    var leaf, right := lv[0][x].pid, lv[1][h].pid;
    reach := OtherPages(lv, leaf, right);
    lost := PageAt(s, leaf).recs[0].key;
    LostStored(cmp, s, root, lv, x);
    OthersHold(cmp, s, root, lv, h, x);
    forall p | p in reach
      ensures SealedPage(s', p, reach, lost)
    {
      var q, i := OtherPlace(lv, leaf, right, p);
      SealOne(cmp, s, root, lv, j, c, s', h, x, q, i);
    }
  }

  lemma OtherPlace(lv: seq<Level>, a: PageId, b: PageId, p: PageId) returns (q: nat, i: nat)
    requires p in OtherPages(lv, a, b)
    ensures q < |lv| && i < |lv[q]| && lv[q][i].pid == p && p != a && p != b
  {
    q, i :| 0 <= q < |lv| && 0 <= i < |lv[q]| && lv[q][i].pid == p;
  }

  /** The root and all pages of the upper levels are among the others. */
  lemma OthersHold(cmp: Cmp, s: seq<Page>, root: PageId, lv: seq<Level>, h: nat, x: nat)
    requires Shape(cmp, s, root, lv, NoGap) && 2 < |lv| && h < |lv[1]| && x < |lv[0]|
    ensures root in OtherPages(lv, lv[0][x].pid, lv[1][h].pid)
    ensures forall q, i {:trigger lv[q][i]} :: 2 <= q < |lv| && 0 <= i < |lv[q]| ==>
      lv[q][i].pid in OtherPages(lv, lv[0][x].pid, lv[1][h].pid)
  {
    assert Alone(lv, 0, x) && Alone(lv, 1, h);
    assert lv[|lv| - 1] == [Edge(NegInf, root)];
    hide Shape, Linked, Distinct, Placed, Chain, Bounds, Leaves, Parents;
    assert lv[|lv| - 1][0].pid == root;
  }

  lemma LostStored(cmp: Cmp, s: seq<Page>, root: PageId, lv: seq<Level>, x: nat)
    requires Order(cmp) && Shape(cmp, s, root, lv, NoGap) && |lv| > 0 && x < |lv[0]|
    requires PageAt(s, lv[0][x].pid).recs != []
    ensures PageAt(s, lv[0][x].pid).recs[0].key in ToMap(Records(s, lv[0]))
  {
    LeafFacts(cmp, s, root, lv, NoGap, x);
    LevelFacts(cmp, s, root, lv, NoGap, 0);
    ShapeLeaves(cmp, s, root, lv, NoGap);
    var recs := s[lv[0][x].pid].recs;
    hide Shape, ToMap, Records, Sorted;
    ToMapKeys(recs, recs[0].key);
    LookupInLeaf(cmp, s, lv[0], recs[0].key, x);
  }

  // ---------------------------------------------------------------- when the tree keeps its shape

  /** Rebalancing keeps the tree, given the store after the record was taken out:
      the leaf is not merged, or its parent is the root or keeps a separator. */
  predicate MergeKeeps(s: seq<Page>, path: seq<PageId>)
    requires |path| > 0
  {
    |path| <= 2 ||
    var leaf, parent := PageAt(s, path[|path| - 1]), PageAt(s, path[|path| - 2]);
    || |leaf.recs| >= 2
    || |parent.recs| != 1
    || !Fits(PageAt(s, ChildAt(parent, 0)).recs + PageAt(s, ChildAt(parent, 1)).recs)
  }

  /** Deleting `k` keeps all other keys: a condition the caller can compute beforehand. */
  predicate DeleteSafe(cmp: Cmp, s: seq<Page>, root: PageId, k: Key) {
    var path := FullPath(cmp, s, root, k);
    var leafId := path[|path| - 1];
    leafId < |s| ==> MergeKeeps(s[leafId := s[leafId].(recs := WithoutKey(s[leafId].recs, k))], path)
  }

  /** The page at entry `level` of the path can be merged with a sibling. */
  lemma PathMergeable(cmp: Cmp, s: seq<Page>, root: PageId, lv: seq<Level>, path: seq<PageId>, k: Key, ix: seq<nat>,
                      level: nat)
    requires 0 < level < |path|
    requires Order(cmp) && Shape(cmp, s, root, lv, NoGap) && TreeSteps(cmp, lv, path, k, ix, |path| - 1 - level)
    requires PageAt(s, path[level - 1]).recs != []
    ensures Mergeable(s, path[level - 1], path[level])
    ensures path[level] < |s| && path[level - 1] < |s|
  {
    var u := |path| - level;
    ShapeAll(cmp, s, root, lv);
    hide Shape, Linked, Distinct, Chain, Mergeable;
    assert lv[u][ix[u]].pid == path[level - 1] && lv[u - 1][ix[u - 1]].pid == path[level];
    PathChild(cmp, s, root, lv, k, u, ix[u], ix[u - 1]);
    TreeMergeable(cmp, s, root, lv, u, ix[u], UpperPos(cmp, s[path[level - 1]].recs, k));
  }

  /** The state of the loop after an internal page was merged: `s1` is the store
      before that, a tree but for one empty page. */
  ghost predicate Losing(cmp: Cmp, s1: seq<Page>, root: PageId, lv1: seq<Level>, s: seq<Page>, path: seq<PageId>,
                         k: Key, ix: seq<nat>, level: int, reach: set<PageId>, lost: Key)
  {
    && Order(cmp) && Shape(cmp, s1, root, lv1, NoGap) && TreeSteps(cmp, lv1, path, k, ix, 1)
    && 0 <= level && level + 3 <= |path| && FilledBut(s1, lv1, path[|path| - 2])
    && |s| == |s1| && (forall x :: 0 <= x < |s| ==> s[x].kind == s1[x].kind)
    && (forall l :: 0 <= l < level ==> path[l] < |s| && s[path[l]] == s1[path[l]])
    && Sealed(s, root, reach, lost) && lost in ToMap(Records(s1, lv1[0]))
    && (forall q, i {:trigger lv1[q][i]} :: 2 <= q < |lv1| && 0 <= i < |lv1[q]| ==> lv1[q][i].pid in reach)
  }

  lemma LosingMergeable(cmp: Cmp, s1: seq<Page>, root: PageId, lv1: seq<Level>, s: seq<Page>, path: seq<PageId>,
                        k: Key, ix: seq<nat>, level: nat, reach: set<PageId>, lost: Key, pid: PageId)
    requires Losing(cmp, s1, root, lv1, s, path, k, ix, level, reach, lost) && 0 < level && pid == path[level - 1]
    ensures pid < |s| && Mergeable(s, pid, path[level]) && path[level] < |s|
    ensures pid in reach && s[pid] == s1[pid] && s[pid].kind == InternalPage
    ensures forall c :: 0 <= c <= |s[pid].recs| ==>
      ChildAt(s[pid], c) < |s| && ChildAt(s[pid], c) in reach && s[ChildAt(s[pid], c)].kind == InternalPage
  {
    hide Shape, Linked, Distinct, Chain, Leaves, Mergeable, SealedPage, Sealed, ToMap, Records, FilledBut, Order,
      InSpan;
    var u := |path| - level;
    ShapeAll(cmp, s1, root, lv1);
    assert lv1[u][ix[u]].pid == pid;
    assert PageOk(s1[pid], u);
    DistinctAt(lv1, 1, ix[1]);
    PageHolds(s1, lv1, path[|path| - 2], u, ix[u]);
    PathMergeable(cmp, s1, root, lv1, path, k, ix, level);
    forall c | 0 <= c <= |s[pid].recs|
      ensures ChildAt(s[pid], c) < |s| && ChildAt(s[pid], c) in reach && s[ChildAt(s[pid], c)].kind == InternalPage
    {
      var i := InnerKid(s1, root, lv1, u, ix[u], c);
    }
    SealedMergeable(s1, s, root, pid, path[level], reach, lost);
  }

  lemma PageHolds(s: seq<Page>, lv: seq<Level>, pid: PageId, q: nat, i: nat)
    requires FilledBut(s, lv, pid) && |lv| > 1 && q < |lv| && i < |lv[q]| && lv[q][i].pid != pid
    ensures PageAt(s, lv[q][i].pid).recs != []
  {
  }

  /** Children of pages from level 3 on are internal pages of level 2 or higher. */
  lemma InnerKid(s: seq<Page>, root: PageId, lv: seq<Level>, u: nat, j: nat, c: nat) returns (i: nat)
    requires Linked(s, root, lv, NoGap) && Placed(s, lv) && 2 <= u < |lv| && j < |lv[u]|
      && c <= |PageAt(s, lv[u][j].pid).recs|
    ensures i < |lv[u - 1]| && lv[u - 1][i].pid == ChildAt(PageAt(s, lv[u][j].pid), c)
    ensures lv[u - 1][i].pid < |s| && s[lv[u - 1][i].pid].kind == InternalPage
  {
    hide Linked, Expand;
    KidAt(lv[u][j].lo, PageAt(s, lv[u][j].pid), c);
    KidPlace(s, root, lv, u, j, c);
    i := Offset(s, lv[u], j) + c;
    assert PageOk(s[lv[u - 1][i].pid], u - 1);
  }

  lemma DistinctAt(lv: seq<Level>, q: nat, i: nat)
    requires Distinct(lv) && q < |lv| && i < |lv[q]|
    ensures Alone(lv, q, i)
  {
  }

  lemma SealedMergeable(s1: seq<Page>, s: seq<Page>, root: PageId, pid: PageId, node: PageId, reach: set<PageId>,
                        lost: Key)
    requires Mergeable(s1, pid, node) && Sealed(s, root, reach, lost) && |s| == |s1| && pid < |s| && s[pid] == s1[pid]
    requires forall c :: 0 <= c <= |s[pid].recs| ==>
      ChildAt(s[pid], c) < |s| && ChildAt(s[pid], c) in reach && s[ChildAt(s[pid], c)].kind == InternalPage
    ensures Mergeable(s, pid, node)
  {
    forall c | 0 <= c <= |s[pid].recs|
      ensures MergeChild(s, pid, c)
    {
      assert MergeChild(s1, pid, c);
      assert SealedPage(s, ChildAt(s[pid], c), reach, lost);
    }
  }

  /** One more internal merge: the lost key stays lost. */
  lemma LosingStep(cmp: Cmp, s1: seq<Page>, root: PageId, lv1: seq<Level>, s: seq<Page>, path: seq<PageId>, k: Key,
                   ix: seq<nat>, level: nat, reach: set<PageId>, lost: Key, c: nat, s': seq<Page>)
    requires Losing(cmp, s1, root, lv1, s, path, k, ix, level, reach, lost) && 0 < level
    requires path[level - 1] < |s| && c < |s[path[level - 1]].recs|
    requires LeafMerge(s, s', ChildAt(s[path[level - 1]], c), ChildAt(s[path[level - 1]], c + 1), path[level - 1], c)
    ensures Losing(cmp, s1, root, lv1, s', path, k, ix, level - 1, reach, lost)
  {
    hide Shape, ToMap, Records, Sealed, Mergeable, FilledBut, Order;
    var pid := path[level - 1];
    var l, r := ChildAt(s[pid], c), ChildAt(s[pid], c + 1);
    LosingMergeable(cmp, s1, root, lv1, s, path, k, ix, level, reach, lost, pid);
    SealedMerge(s, root, reach, lost, pid, c, s');
    LinksNowhere(s, root, reach, lost, r);
    forall h | 0 <= h < level - 1
      ensures path[h] != l && path[h] != pid
    {
      AbovePath(cmp, s1, root, lv1, path, k, ix, level, h, c);
    }
  }

  lemma LinksNowhere(s: seq<Page>, root: PageId, reach: set<PageId>, lost: Key, x: PageId)
    requires Sealed(s, root, reach, lost) && x in reach && x < |s| && s[x].kind == InternalPage
    ensures s[x].next == INVALID_PAGE_ID
  {
    assert SealedPage(s, x, reach, lost);
  }

  /** Pages further up the path are neither the parent nor its children. */
  lemma AbovePath(cmp: Cmp, s: seq<Page>, root: PageId, lv: seq<Level>, path: seq<PageId>, k: Key, ix: seq<nat>,
                  level: nat, h: nat, c: nat)
    requires Shape(cmp, s, root, lv, NoGap) && TreeSteps(cmp, lv, path, k, ix, 1)
    requires h + 1 < level && level + 1 < |path| && path[level - 1] < |s| && c <= |s[path[level - 1]].recs|
    ensures path[h] != ChildAt(s[path[level - 1]], c) && path[h] != path[level - 1]
  {
    var u := |path| - level;
    ShapeAll(cmp, s, root, lv);
    hide Shape, Linked, Placed, Chain, Distinct;
    assert lv[u][ix[u]].pid == path[level - 1];
    assert lv[|path| - 1 - h][ix[|path| - 1 - h]].pid == path[h];
    DistinctAt(lv, |path| - 1 - h, ix[|path| - 1 - h]);
    KidAt(lv[u][ix[u]].lo, s[path[level - 1]], c);
    KidPlace(s, root, lv, u, ix[u], c);
  }
}
