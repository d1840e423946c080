/** Changes at the leaf level that keep the shape of the tree. */
module LeafSteps {
  import opened Comparator
  import opened Pages
  import opened Levels
  import opened Frames

  /** New records for one leaf, within its span, leave the shape alone. */
  lemma ReplaceLeafShape(cmp: Cmp, s: seq<Page>, root: PageId, lv: seq<Level>, i: nat, recs: seq<Rec>, s': seq<Page>)
    requires Shape(cmp, s, root, lv, NoGap)
    requires i < |lv[0]| && LeafOk(cmp, recs, lv[0], i) && LeafRecs(recs)
    requires s' == s[lv[0][i].pid := s[lv[0][i].pid].(recs := recs)]
    ensures Shape(cmp, s', root, lv, NoGap)
  {
    hide Leaves, Chain, Parents, Bounds;
    var pid := lv[0][i].pid;
    assert Alone(lv, 0, i);
    assert SameUpper(s, s', lv);
    assert Linked(s', root, lv, NoGap) by { LinkedFrame(s, s', root, lv, NoGap); }
    assert Parents(s', root, lv, NoGap) by { ParentsFrame(s, s', root, lv, NoGap); }
    assert Placed(s', lv) by { ReplaceLeafPlaced(s, lv, i, recs, s'); }
    assert Leaves(cmp, s', lv[0]) by { ReplaceLeafLeaves(cmp, s, lv[0], i, recs, s'); }
    ChainFrame(s, s', lv[0]);
  }

  lemma ReplaceLeafPlaced(s: seq<Page>, lv: seq<Level>, i: nat, recs: seq<Rec>, s': seq<Page>)
    requires |lv| > 0 && i < |lv[0]| && Placed(s, lv) && Alone(lv, 0, i) && LeafRecs(recs)
    requires s' == s[lv[0][i].pid := s[lv[0][i].pid].(recs := recs)]
    ensures Placed(s', lv)
  {
    forall q, j | 0 <= q < |lv| && 0 <= j < |lv[q]|
      ensures lv[q][j].pid < |s'| && PageOk(s'[lv[q][j].pid], q)
    {
      if q == 0 && j == i {
      } else {
        assert lv[q][j].pid != lv[0][i].pid;
      }
    }
  }

  lemma ReplaceLeafLeaves(cmp: Cmp, s: seq<Page>, es: Level, i: nat, recs: seq<Rec>, s': seq<Page>)
    requires i < |es| && es[i].pid < |s| && Leaves(cmp, s, es) && LeafOk(cmp, recs, es, i)
    requires forall j :: 0 <= j < |es| && j != i ==> es[j].pid != es[i].pid
    requires s' == s[es[i].pid := s[es[i].pid].(recs := recs)]
    ensures Leaves(cmp, s', es)
  {
    forall j | 0 <= j < |es|
      ensures LeafAt(cmp, s', es, j)
    {
      assert LeafAt(cmp, s, es, j);
    }
  }

  /** It changes the records of the tree in that leaf only. */
  lemma ReplaceLeafRecords(s: seq<Page>, es: Level, i: nat, recs: seq<Rec>, s': seq<Page>)
    requires i < |es| && es[i].pid < |s|
    requires forall j :: 0 <= j < |es| && j != i ==> es[j].pid != es[i].pid
    requires s' == s[es[i].pid := s[es[i].pid].(recs := recs)]
    ensures Records(s', es) == Records(s, es[..i]) + recs + Records(s, es[i + 1..])
  {
    RecordsSplit(s', es, i);
    RecordsFrame(s, s', es[..i]);
    RecordsFrame(s, s', es[i + 1..]);
  }
}
