/** Leaf merge: a leaf takes over the records of its right neighbour, and their
    parent forgets the neighbour. */
module MergeSteps {
  import opened Comparator
  import opened Pages
  import opened Levels
  import opened Frames
  import opened Fitting

  // ---------------------------------------------------------------- a page leaves a level

  lemma DistinctRemove(lv: seq<Level>, r: nat, at: nat)
    requires r < |lv| && at < |lv[r]| && Distinct(lv)
    ensures Distinct(lv[r := RemoveAt(lv[r], at)])
  {
    var lv': seq<Level> := lv[r := RemoveAt(lv[r], at)];
    forall q, i | 0 <= q < |lv'| && 0 <= i < |lv'[q]|
      ensures Alone(lv', q, i)
    {
      var oldI := if q == r && i >= at then i + 1 else i;
      assert Alone(lv, q, oldI);
      forall p, j | 0 <= p < |lv'| && 0 <= j < |lv'[p]| && lv'[p][j].pid == lv'[q][i].pid
        ensures p == q && j == i
      {
        var oldJ := if p == r && j >= at then j + 1 else j;
        assert lv'[p][j] == lv[p][oldJ];
      }
    }
  }

  lemma AscendingRemove(cmp: Cmp, es: Level, at: nat)
    requires Ascending(cmp, es) && at < |es|
    ensures Ascending(cmp, RemoveAt(es, at))
  {
  }

  lemma BoundsRemove(cmp: Cmp, lv: seq<Level>, r: nat, at: nat)
    requires Bounds(cmp, lv) && r < |lv| && 0 < at < |lv[r]|
    ensures Bounds(cmp, lv[r := RemoveAt(lv[r], at)])
  {
    AscendingRemove(cmp, lv[r], at);
  }

  lemma ZeroFirstRemove(lv: seq<Level>, r: nat, at: nat)
    requires r < |lv| && 0 < at < |lv[r]| && ZeroFirst(lv)
    ensures ZeroFirst(lv[r := RemoveAt(lv[r], at)])
  {
    var lv': seq<Level> := lv[r := RemoveAt(lv[r], at)];
    forall q, i | 0 <= q < |lv'| && 0 <= i < |lv'[q]| && lv'[q][i].pid == 0
      ensures q == 0 && i == 0
    {
      assert lv'[q][i] == lv[q][if q == r && i >= at then i + 1 else i];
    }
  }

  // ---------------------------------------------------------------- leaf merge

  /** The store after leaf `right` was merged into `left` and record `c` of their
      parent, which led to `right`, was removed. */
  ghost predicate LeafMerge(s: seq<Page>, s': seq<Page>, left: PageId, right: PageId, parent: PageId, c: nat) {
    && left < |s| && right < |s| && parent < |s| && c < |s[parent].recs|
    && |s'| == |s|
    && s'[left] == s[left].(recs := s[left].recs + s[right].recs, next := s[right].next)
    && s'[parent] == s[parent].(recs := RemoveAt(s[parent].recs, c))
    && (forall x :: 0 <= x < |s| && x != left && x != parent ==>
          s'[x] == if x == s[right].next && x != INVALID_PAGE_ID then s[x].(prev := left) else s[x])
  }

  /** Leaves `i` and `i + 1` are children `c` and `c + 1` of page `j` above. */
  ghost predicate Siblings(s: seq<Page>, lv: seq<Level>, i: nat, j: nat, c: nat) {
    && |lv| > 1 && j < |lv[1]| && lv[1][j].pid < |s| && c < |s[lv[1][j].pid].recs|
    && i == Offset(s, lv[1], j) + c && i + 1 < |lv[0]|
    && lv[0][i].pid < |s| && lv[0][i + 1].pid < |s|
  }

  ghost predicate Merged(s: seq<Page>, s': seq<Page>, lv: seq<Level>, i: nat, j: nat, c: nat) {
    Siblings(s, lv, i, j, c) && LeafMerge(s, s', lv[0][i].pid, lv[0][i + 1].pid, lv[1][j].pid, c)
  }

  ghost function MergedLevels(lv: seq<Level>, i: nat): seq<Level>
    requires |lv| > 0 && i + 1 < |lv[0]|
  {
    lv[0 := RemoveAt(lv[0], i + 1)]
  }

  lemma KidsRemove(lo: Bound, p: Page, c: nat)
    requires c < |p.recs|
    ensures Kids(lo, p.(recs := RemoveAt(p.recs, c))) == RemoveAt(Kids(lo, p), c + 1)
  {
  }

  lemma RemoveInside<T>(a: seq<T>, m: seq<T>, b: seq<T>, i: nat)
    requires i < |m|
    ensures a + RemoveAt(m, i) + b == RemoveAt(a + m + b, |a| + i)
  {
  }

  lemma MergeExpand(s: seq<Page>, es: Level, j: nat, c: nat, s': seq<Page>)
    requires j < |es| && es[j].pid < |s| && c < |s[es[j].pid].recs|
    requires es[j].pid < |s'| && s'[es[j].pid] == s[es[j].pid].(recs := RemoveAt(s[es[j].pid].recs, c))
    requires forall i :: 0 <= i < |es| && i != j ==> SameKids(PageAt(s, es[i].pid), PageAt(s', es[i].pid))
    ensures Offset(s, es, j) + c + 1 < |Expand(s, es)|
    ensures Expand(s', es) == RemoveAt(Expand(s, es), Offset(s, es, j) + c + 1)
  {
    var p := s[es[j].pid];
    KidsRemove(es[j].lo, p, c);
    RemoveInside(Expand(s, es[..j]), Kids(es[j].lo, p), Expand(s, es[j + 1..]), c + 1);
    ExpandAt(s, es, j, c + 1);
    hide Expand, Kids;
    ExpandReplace(s, s', es, j);
    ExpandSplit(s, es, j);
  }

  lemma MergeLinked(s: seq<Page>, root: PageId, lv: seq<Level>, i: nat, j: nat, c: nat, s': seq<Page>)
    requires Linked(s, root, lv, NoGap) && Placed(s, lv) && Distinct(lv) && Merged(s, s', lv, i, j, c)
    ensures Linked(s', root, MergedLevels(lv, i), NoGap)
  {
    var lv': seq<Level> := MergedLevels(lv, i);
    assert Alone(lv, 0, i) && Alone(lv, 1, j);
    assert Expand(s, lv[1]) == Seen(lv, 0, NoGap);
    hide Expand;
    forall q | 1 <= q < |lv'|
      ensures Expand(s', lv'[q]) == lv'[q - 1]
    {
      assert Expand(s, lv[q]) == Seen(lv, q - 1, NoGap);
      if q == 1 {
        MergeExpand(s, lv[1], j, c, s');
      } else {
        ExpandFrame(s, s', lv[q]);
      }
    }
  }

  lemma MergePlaced(s: seq<Page>, lv: seq<Level>, i: nat, j: nat, c: nat, s': seq<Page>)
    requires Placed(s, lv) && Distinct(lv) && Merged(s, s', lv, i, j, c) && Chain(s, lv[0])
    ensures Placed(s', MergedLevels(lv, i))
  {
    var lv': seq<Level> := MergedLevels(lv, i);
    assert LinkAt(s, lv[0], i + 1);
    assert Alone(lv, 0, i) && Alone(lv, 1, j);
    assert i + 2 < |lv[0]| ==> Alone(lv, 0, i + 2);
    forall q, k | 0 <= q < |lv'| && 0 <= k < |lv'[q]|
      ensures lv'[q][k].pid < |s'| && PageOk(s'[lv'[q][k].pid], q)
    {
      var oldK := if q == 0 && k > i then k + 1 else k;
      assert lv'[q][k] == lv[q][oldK];
      assert PageOk(s[lv[0][i + 1].pid], 0);
    }
  }

  /** The left leaf's span grows by the right leaf's. */
  lemma MergedLeafOk(cmp: Cmp, es: Level, i: nat, left: seq<Rec>, right: seq<Rec>)
    requires Order(cmp) && Ascending(cmp, es) && i + 1 < |es|
    requires LeafOk(cmp, left, es, i) && LeafOk(cmp, right, es, i + 1)
    ensures LeafOk(cmp, left + right, RemoveAt(es, i + 1), i)
  {
    var all := left + right;
    var es' := RemoveAt(es, i + 1);
    forall a, b | 0 <= a < b < |all|
      ensures Lt(cmp, all[a].key, all[b].key)
    {
      if a < |left| <= b {
        assert InSpan(cmp, left[a].key, es, i);
        assert InSpan(cmp, right[b - |left|].key, es, i + 1);
        BelowNotBelow(cmp, left[a].key, right[b - |left|].key, es[i + 1].lo);
      }
    }
    forall a | 0 <= a < |all|
      ensures InSpan(cmp, all[a].key, es', i)
    {
      assert BoundLt(cmp, es[i].lo, es[i + 1].lo);
      assert i + 2 < |es| ==> BoundLt(cmp, es[i + 1].lo, es[i + 2].lo);
    }
  }

  lemma BelowNotBelow(cmp: Cmp, k: Key, l: Key, b: Bound)
    requires Order(cmp) && Below(cmp, k, b) && !Below(cmp, l, b)
    ensures Lt(cmp, k, l)
  {
    assert l == b.key || Lt(cmp, b.key, l);
  }

  lemma MergeLeaves(cmp: Cmp, s: seq<Page>, lv: seq<Level>, i: nat, j: nat, c: nat, s': seq<Page>)
    requires Order(cmp) && |lv| > 0 && Ascending(cmp, lv[0]) && Leaves(cmp, s, lv[0])
    requires Placed(s, lv) && Distinct(lv) && Merged(s, s', lv, i, j, c)
    ensures Leaves(cmp, s', MergedLevels(lv, i)[0])
  {
    var es := lv[0];
    var es': Level := MergedLevels(lv, i)[0];
    forall k | 0 <= k < |es'|
      ensures LeafAt(cmp, s', es', k)
    {
      assert LeafAt(cmp, s, es, i) && LeafAt(cmp, s, es, i + 1);
      if k == i {
        MergedLeafOk(cmp, es, i, s[es[i].pid].recs, s[es[i + 1].pid].recs);
      } else {
        var oldK := if k > i then k + 1 else k;
        assert es'[k] == es[oldK] && LeafAt(cmp, s, es, oldK);
        assert Alone(lv, 0, i) && Alone(lv, 1, j);
        ShiftedLeafOk(cmp, es, i, k, s[es[oldK].pid].recs);
      }
    }
  }

  lemma ShiftedLeafOk(cmp: Cmp, es: Level, i: nat, k: nat, recs: seq<Rec>)
    requires i + 1 < |es| && k != i && k + 1 < |es|
    requires LeafOk(cmp, recs, es, if k > i then k + 1 else k)
    ensures LeafOk(cmp, recs, RemoveAt(es, i + 1), k)
  {
    var was := if k > i then k + 1 else k;
    forall t | 0 <= t < |recs|
      ensures InSpan(cmp, recs[t].key, RemoveAt(es, i + 1), k)
    {
      assert InSpan(cmp, recs[t].key, es, was);
    }
  }

  lemma MergeChain(s: seq<Page>, lv: seq<Level>, i: nat, j: nat, c: nat, s': seq<Page>)
    requires Placed(s, lv) && Distinct(lv) && Merged(s, s', lv, i, j, c)
    requires Chain(s, lv[0]) && ZeroFirst(lv)
    ensures Chain(s', MergedLevels(lv, i)[0])
  {
    var es := lv[0];
    var es': Level := MergedLevels(lv, i)[0];
    forall k | 0 <= k < |es'|
      ensures LinkAt(s', es', k)
    {
      var oldK := if k > i then k + 1 else k;
      assert LinkAt(s, es, i + 1) && LinkAt(s, es, oldK);
      assert es'[k] == es[oldK];
      assert Alone(lv, 0, i) && Alone(lv, 1, j);
      assert i + 2 < |es| ==> Alone(lv, 0, i + 2);
      assert i + 2 < |es| ==> es[i + 2].pid != 0;
      if oldK == i {
      } else if oldK == i + 2 {
      } else {
        assert PageAt(s', es[oldK].pid) == PageAt(s, es[oldK].pid);
      }
    }
  }

  lemma MergeParents(s: seq<Page>, root: PageId, lv: seq<Level>, i: nat, j: nat, c: nat, s': seq<Page>)
    requires Parents(s, root, lv, NoGap) && Placed(s, lv) && Distinct(lv) && Merged(s, s', lv, i, j, c)
    ensures Parents(s', root, MergedLevels(lv, i), NoGap)
  {
    var lv': seq<Level> := MergedLevels(lv, i);
    assert Alone(lv, 0, i) && Alone(lv, 1, j);
    assert forall x :: 0 <= x < |s| ==> s'[x].parent == s[x].parent;
    forall q, k | 1 <= q < |lv'| && 0 <= k < |lv'[q]|
      ensures ParentOf(s', lv'[q][k].pid)
    {
      assert lv'[q][k] == lv[q][k] && ParentOf(s, lv[q][k].pid);
    }
  }

  /** Merging two leaves with a common parent leaves a tree. */
  lemma MergeShape(cmp: Cmp, s: seq<Page>, root: PageId, lv: seq<Level>, i: nat, j: nat, c: nat, s': seq<Page>)
    requires Order(cmp) && Shape(cmp, s, root, lv, NoGap) && Merged(s, s', lv, i, j, c)
    ensures Shape(cmp, s', root, MergedLevels(lv, i), NoGap)
  {
    hide Leaves, Chain, Parents, Expand, LeafMerge;
    LevelFacts(cmp, s, root, lv, NoGap, 0);
    MergeLinked(s, root, lv, i, j, c, s');
    hide Linked;
    MergePlaced(s, lv, i, j, c, s');
    DistinctRemove(lv, 0, i + 1);
    BoundsRemove(cmp, lv, 0, i + 1);
    MergeLeaves(cmp, s, lv, i, j, c, s');
    MergeParents(s, root, lv, i, j, c, s');
    MergeChain(s, lv, i, j, c, s');
    ZeroFirstRemove(lv, 0, i + 1);
  }

  /** No record is lost or duplicated by a merge. */
  lemma MergeRecords(s: seq<Page>, lv: seq<Level>, i: nat, j: nat, c: nat, s': seq<Page>)
    requires Placed(s, lv) && Distinct(lv) && Merged(s, s', lv, i, j, c)
    ensures Records(s', MergedLevels(lv, i)[0]) == Records(s, lv[0])
  {
    hide Records;
    var es := lv[0];
    var es': Level := MergedLevels(lv, i)[0];
    MergeKeepsOthers(s, lv, i, j, c, s');
    hide Merged, Placed, Distinct;
    assert es[i + 1..][1..] == es[i + 2..] && es'[i + 1..] == es[i + 2..] && es'[..i] == es[..i];
    assert es[i + 1..][0] == es[i + 1];
    RecordsSplit(s, es, i);
    RecordsSplit(s, es[i + 1..], 0);
    RecordsSplit(s', es', i);
    RecordsFrame(s, s', es[..i]);
    RecordsFrame(s, s', es[i + 2..]);
    RecordsNil(s);
  }

  lemma MergeKeepsOthers(s: seq<Page>, lv: seq<Level>, i: nat, j: nat, c: nat, s': seq<Page>)
    requires Placed(s, lv) && Distinct(lv) && Merged(s, s', lv, i, j, c)
    ensures i + 1 < |lv[0]|
    ensures forall k :: 0 <= k < |lv[0]| && k != i ==> PageAt(s', lv[0][k].pid).recs == PageAt(s, lv[0][k].pid).recs
    ensures PageAt(s', lv[0][i].pid).recs == PageAt(s, lv[0][i].pid).recs + PageAt(s, lv[0][i + 1].pid).recs
  {
    assert Alone(lv, 0, i) && Alone(lv, 1, j);
  }

  lemma RecordsNil(s: seq<Page>)
    ensures Records(s, []) == []
  {
  }

  /** Small entries stay small. */
  lemma SmallMerge(s: seq<Page>, s': seq<Page>, left: PageId, right: PageId, parent: PageId, c: nat)
    requires SmallStore(s) && LeafMerge(s, s', left, right, parent, c) && left != parent
    ensures SmallStore(s')
  {
    assert AllSmall(s[left].recs) && AllSmall(s[right].recs) && AllSmall(s[parent].recs);
    forall x | 0 <= x < |s'|
      ensures AllSmall(s'[x].recs)
    {
      assert AllSmall(s[x].recs);
    }
  }
}
