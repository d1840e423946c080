/** A pending page is taken up by the level above: its parent gains a separator,
    splits in turn, or the tree grows a new root. */
module InternalSteps {
  import opened Comparator
  import opened Pages
  import opened Levels
  import opened Frames
  import opened SplitSteps

  /** The pending page of level `r` belongs right after child `c` of page `j` above. */
  ghost predicate PendingAt(s: seq<Page>, lv: seq<Level>, r: nat, at: nat, j: nat, c: nat) {
    && r + 1 < |lv|
    && 0 < at < |lv[r]| && lv[r][at].lo.From?
    && j < |lv[r + 1]| && lv[r + 1][j].pid < |s| && c <= |s[lv[r + 1][j].pid].recs|
    && at == Offset(s, lv[r + 1], j) + c + 1
  }

  /** The record that makes the pending page known. */
  ghost function PendingRec(lv: seq<Level>, r: nat, at: nat): Rec
    requires r < |lv| && at < |lv[r]| && lv[r][at].lo.From?
  {
    ChildRec(lv[r][at].lo.key, lv[r][at].pid)
  }

  ghost function Grown(s: seq<Page>, lv: seq<Level>, r: nat, at: nat, j: nat, c: nat): Page
    requires PendingAt(s, lv, r, at, j, c)
  {
    var p := s[lv[r + 1][j].pid];
    p.(recs := InsertAt(p.recs, c, PendingRec(lv, r, at)))
  }

  /** With the pending record in place, the page's children include the pending page. */
  lemma GrownKids(s: seq<Page>, root: PageId, lv: seq<Level>, r: nat, at: nat, j: nat, c: nat)
    requires PendingAt(s, lv, r, at, j, c) && Linked(s, root, lv, Gap(r, at))
    ensures
      Expand(s, lv[r + 1][..j]) + Kids(lv[r + 1][j].lo, Grown(s, lv, r, at, j, c)) + Expand(s, lv[r + 1][j + 1..])
      == lv[r]
  {
    var es := lv[r + 1];
    var p := s[es[j].pid];
    ExpandSplit(s, es, j);
    KidsInsert(es[j].lo, p, c, lv[r][at].lo.key, lv[r][at].pid);
    assert Expand(s, es) == Seen(lv, r, Gap(r, at));
    var a, b, kids := Expand(s, es[..j]), Expand(s, es[j + 1..]), Kids(es[j].lo, p);
    assert a + kids + b == RemoveAt(lv[r], at);
    InsertInside(a, kids, b, c + 1, lv[r][at]);
    ReinsertRemoved(lv[r], at);
  }

  lemma InsertInside<T>(a: seq<T>, m: seq<T>, b: seq<T>, i: nat, x: T)
    requires i <= |m|
    ensures a + InsertAt(m, i, x) + b == InsertAt(a + m + b, |a| + i, x)
  {
  }

  lemma ReinsertRemoved<T>(s: seq<T>, i: nat)
    requires i < |s|
    ensures InsertAt(RemoveAt(s, i), i, s[i]) == s
  {
  }

  // ---------------------------------------------------------------- room in the parent

  lemma InsertExpand(s: seq<Page>, root: PageId, lv: seq<Level>, r: nat, at: nat, j: nat, c: nat, s': seq<Page>)
    requires PendingAt(s, lv, r, at, j, c) && Linked(s, root, lv, Gap(r, at)) && Alone(lv, r + 1, j)
    requires s' == s[lv[r + 1][j].pid := Grown(s, lv, r, at, j, c)]
    ensures Expand(s', lv[r + 1]) == lv[r]
  {
    GrownKids(s, root, lv, r, at, j, c);
    hide Linked, Expand, Kids;
    ExpandReplace(s, s', lv[r + 1], j);
  }

  lemma InsertLinked(s: seq<Page>, root: PageId, lv: seq<Level>, r: nat, at: nat, j: nat, c: nat, s': seq<Page>)
    requires PendingAt(s, lv, r, at, j, c) && Linked(s, root, lv, Gap(r, at)) && Alone(lv, r + 1, j)
    requires s' == s[lv[r + 1][j].pid := Grown(s, lv, r, at, j, c)]
    ensures Linked(s', root, lv, NoGap)
  {
    hide Expand, Grown, Alone, PendingAt;
    InsertExpand(s, root, lv, r, at, j, c, s');
    PendingRange(s, lv, r, at, j, c);
    forall q | 1 <= q < |lv|
      ensures Expand(s', lv[q]) == lv[q - 1]
    {
      if q != r + 1 {
        assert Expand(s, lv[q]) == Seen(lv, q - 1, Gap(r, at)) == lv[q - 1];
        OtherLevel(s, lv, r + 1, j, s', q);
      }
    }
  }

  lemma PendingRange(s: seq<Page>, lv: seq<Level>, r: nat, at: nat, j: nat, c: nat)
    requires PendingAt(s, lv, r, at, j, c)
    ensures r + 1 < |lv| && j < |lv[r + 1]| && lv[r + 1][j].pid < |s|
  {
  }

  lemma OtherLevel(s: seq<Page>, lv: seq<Level>, u: nat, j: nat, s': seq<Page>, q: nat)
    requires u < |lv| && j < |lv[u]| && Alone(lv, u, j) && q < |lv| && q != u && lv[u][j].pid < |s|
    requires |s'| == |s| && s' == s[lv[u][j].pid := s'[lv[u][j].pid]]
    ensures Expand(s', lv[q]) == Expand(s, lv[q])
  {
    hide Expand;
    ExpandFrame(s, s', lv[q]);
  }

  lemma InsertPlaced(s: seq<Page>, lv: seq<Level>, r: nat, at: nat, j: nat, c: nat, s': seq<Page>)
    requires PendingAt(s, lv, r, at, j, c) && Placed(s, lv) && Alone(lv, r + 1, j)
    requires s' == s[lv[r + 1][j].pid := Grown(s, lv, r, at, j, c)]
    ensures Placed(s', lv)
  {
    forall q, i | 0 <= q < |lv| && 0 <= i < |lv[q]|
      ensures lv[q][i].pid < |s'| && PageOk(s'[lv[q][i].pid], q)
    {
      assert lv[q][i].pid < |s| && PageOk(s[lv[q][i].pid], q);
    }
  }

  /** The page before the pending one is a child of page `j`. */
  lemma NeighbourIsKid(s: seq<Page>, root: PageId, lv: seq<Level>, r: nat, at: nat, j: nat, c: nat)
    requires PendingAt(s, lv, r, at, j, c) && Linked(s, root, lv, Gap(r, at))
    ensures lv[r][at - 1] == Kids(lv[r + 1][j].lo, s[lv[r + 1][j].pid])[c]
  {
    assert Expand(s, lv[r + 1]) == Seen(lv, r, Gap(r, at));
    ExpandAt(s, lv[r + 1], j, c);
  }

  lemma InsertParents(s: seq<Page>, root: PageId, lv: seq<Level>, r: nat, at: nat, j: nat, c: nat, s': seq<Page>)
    requires PendingAt(s, lv, r, at, j, c) && Linked(s, root, lv, Gap(r, at)) && Alone(lv, r + 1, j)
    requires Parents(s, root, lv, Gap(r, at))
    requires s' == s[lv[r + 1][j].pid := Grown(s, lv, r, at, j, c)]
    ensures Parents(s', root, lv, NoGap)
  {
    NeighbourIsKid(s, root, lv, r, at, j, c);
    forall q, i | 1 <= q < |lv| && 0 <= i < |lv[q]|
      ensures ParentOf(s', lv[q][i].pid)
    {
      assert ParentOf(s, lv[q][i].pid);
    }
  }

  /** When the parent has room, one more record in it completes the tree. */
  lemma InsertShape(cmp: Cmp, s: seq<Page>, root: PageId, lv: seq<Level>, r: nat, at: nat, j: nat, c: nat,
                    s': seq<Page>)
    requires Shape(cmp, s, root, lv, Gap(r, at)) && PendingAt(s, lv, r, at, j, c)
    requires s' == s[lv[r + 1][j].pid := Grown(s, lv, r, at, j, c)]
    ensures Shape(cmp, s', root, lv, NoGap)
  {
    hide Leaves, Chain, Parents, Bounds, Linked;
    assert Alone(lv, r + 1, j);
    InsertLinked(s, root, lv, r, at, j, c, s');
    InsertPlaced(s, lv, r, at, j, c, s');
    InsertParents(s, root, lv, r, at, j, c, s');
    assert forall i :: 0 <= i < |lv[0]| ==> lv[0][i].pid != lv[r + 1][j].pid;
    ChainFrame(s, s', lv[0]);
    LeavesFrame(cmp, s, s', lv[0]);
  }

  // ---------------------------------------------------------------- the parent splits

  /** `x` is a child that moves to the new page when `recs` is cut at `mid`. */
  ghost predicate Moved(recs: seq<Rec>, mid: nat, x: PageId) {
    exists t :: mid <= t < |recs| && ChildOf(recs[t]) == x
  }

  /** The store after an internal page was cut at record `mid`: the record's child becomes
      the first child of the new last page, and all children from there on name the new page
      as their parent. The two pages end up with records `left` and `right`. */
  ghost predicate InternalParts(s: seq<Page>, s': seq<Page>, pid: PageId, mid: nat, left: seq<Rec>, right: seq<Rec>) {
    && pid < |s| && mid < |s[pid].recs|
    && |s'| == |s| + 1
    && s'[pid] == s[pid].(recs := left)
    && s'[|s|] == Page(InternalPage, s[pid].parent, INVALID_PAGE_ID, INVALID_PAGE_ID, ChildOf(s[pid].recs[mid]), right)
    && (forall x :: 0 <= x < |s| && x != pid ==>
          s'[x] == if Moved(s[pid].recs, mid, x) then s[x].(parent := |s|) else s[x])
  }

  /** A cut that keeps every record. */
  ghost predicate InternalSplit(s: seq<Page>, s': seq<Page>, pid: PageId, mid: nat) {
    && pid < |s| && mid < |s[pid].recs|
    && InternalParts(s, s', pid, mid, s[pid].recs[..mid], s[pid].recs[mid + 1..])
  }

  ghost function CutLevels(s: seq<Page>, lv: seq<Level>, u: nat, j: nat, mid: nat): seq<Level>
    requires u < |lv| && j < |lv[u]| && lv[u][j].pid < |s| && mid < |s[lv[u][j].pid].recs|
  {
    lv[u := InsertAt(lv[u], j + 1, Edge(From(s[lv[u][j].pid].recs[mid].key), |s|))]
  }

  /** What a cut needs: a complete tree, apart from the size of page `j` of level `u`. */
  ghost predicate Cuttable(cmp: Cmp, s: seq<Page>, root: PageId, lv: seq<Level>, u: nat, j: nat, mid: nat,
                           s': seq<Page>) {
    && Order(cmp) && Shape(cmp, s, root, lv, NoGap)
    && 1 <= u < |lv| && j < |lv[u]|
    && InternalSplit(s, s', lv[u][j].pid, mid)
  }

  /** Children of the page, by their place in the level below. */
  lemma KidPlace(s: seq<Page>, root: PageId, lv: seq<Level>, u: nat, j: nat, c: nat)
    requires Linked(s, root, lv, NoGap) && 1 <= u < |lv| && j < |lv[u]|
    requires c <= |PageAt(s, lv[u][j].pid).recs|
    ensures Offset(s, lv[u], j) + c < |lv[u - 1]|
    ensures lv[u - 1][Offset(s, lv[u], j) + c] == Kids(lv[u][j].lo, PageAt(s, lv[u][j].pid))[c]
  {
    assert Expand(s, lv[u]) == Seen(lv, u - 1, NoGap);
    ExpandAt(s, lv[u], j, c);
  }

  /** Blocks of children do not overlap. */
  lemma OffsetStep(s: seq<Page>, es: Level, j: nat)
    requires j < |es|
    ensures Offset(s, es, j + 1) == Offset(s, es, j) + |PageAt(s, es[j].pid).recs| + 1
  {
    assert es[..j + 1] == es[..j] + [es[j]];
    ExpandConcat(s, es[..j], [es[j]]);
    ExpandOne(s, es[j]);
  }

  lemma {:induction false} OffsetMono(s: seq<Page>, es: Level, i: nat, j: nat)
    requires i < j <= |es|
    ensures Offset(s, es, i) + |PageAt(s, es[i].pid).recs| + 1 <= Offset(s, es, j)
    decreases j
  {
    OffsetStep(s, es, j - 1);
    if i < j - 1 {
      OffsetMono(s, es, i, j - 1);
    }
  }

  /** A page has one parent, and is one child of it. */
  lemma KidUnique(s: seq<Page>, root: PageId, lv: seq<Level>, u: nat, j: nat, c: nat, q: nat, i: nat, d: nat)
    requires Linked(s, root, lv, NoGap) && Distinct(lv)
    requires 1 <= u < |lv| && j < |lv[u]| && c <= |PageAt(s, lv[u][j].pid).recs|
    requires 1 <= q < |lv| && i < |lv[q]| && d <= |PageAt(s, lv[q][i].pid).recs|
    requires Kids(lv[u][j].lo, PageAt(s, lv[u][j].pid))[c].pid == Kids(lv[q][i].lo, PageAt(s, lv[q][i].pid))[d].pid
    ensures u == q && j == i && c == d
  {
    hide Linked, Expand;
    KidPlace(s, root, lv, u, j, c);
    KidPlace(s, root, lv, q, i, d);
    assert Alone(lv, u - 1, Offset(s, lv[u], j) + c);
    if j < i {
      OffsetMono(s, lv[u], j, i);
    } else if i < j {
      OffsetMono(s, lv[u], i, j);
    }
  }

  lemma CutSameKids(s: seq<Page>, s': seq<Page>, pid: PageId, mid: nat, x: PageId)
    requires InternalSplit(s, s', pid, mid) && x < |s| && x != pid
    ensures SameKids(PageAt(s, x), PageAt(s', x))
    ensures PageAt(s', x).prev == PageAt(s, x).prev && PageAt(s', x).next == PageAt(s, x).next
    ensures PageAt(s', x).kind == PageAt(s, x).kind
  {
  }

  lemma CutExpand(s: seq<Page>, es: Level, j: nat, mid: nat, s': seq<Page>)
    requires j < |es| && InternalSplit(s, s', es[j].pid, mid)
    requires forall i :: 0 <= i < |es| ==> es[i].pid < |s|
    requires forall i :: 0 <= i < |es| && i != j ==> es[i].pid != es[j].pid
    ensures Expand(s', InsertAt(es, j + 1, Edge(From(s[es[j].pid].recs[mid].key), |s|))) == Expand(s, es)
  {
    var e := Edge(From(s[es[j].pid].recs[mid].key), |s|);
    var p := s[es[j].pid];
    KidsCut(es[j].lo, p, s'[es[j].pid], s'[|s|], mid);
    forall i | 0 <= i < |es| && i != j
      ensures SameKids(PageAt(s, es[i].pid), PageAt(s', es[i].pid))
    {
      CutSameKids(s, s', es[j].pid, mid, es[i].pid);
    }
    hide Expand, Kids, InternalSplit;
    ExpandTwo(s', es, j, e);
    ExpandSplit(s, es, j);
    ExpandFrame(s, s', es[..j]);
    ExpandFrame(s, s', es[j + 1..]);
  }

  lemma ExpandTwo(s: seq<Page>, es: Level, j: nat, e: Edge)
    requires j < |es|
    ensures Expand(s, InsertAt(es, j + 1, e))
         == Expand(s, es[..j]) + (Kids(es[j].lo, PageAt(s, es[j].pid)) + Kids(e.lo, PageAt(s, e.pid)))
            + Expand(s, es[j + 1..])
  {
    hide Expand, Kids;
    assert InsertAt(es, j + 1, e) == es[..j] + ([es[j]] + [e]) + es[j + 1..];
    ExpandConcat(s, es[..j] + ([es[j]] + [e]), es[j + 1..]);
    ExpandConcat(s, es[..j], [es[j]] + [e]);
    ExpandConcat(s, [es[j]], [e]);
    ExpandOne(s, es[j]);
    ExpandOne(s, e);
  }

  lemma CutLinked(cmp: Cmp, s: seq<Page>, root: PageId, lv: seq<Level>, u: nat, j: nat, mid: nat, s': seq<Page>)
    requires Cuttable(cmp, s, root, lv, u, j, mid, s')
    ensures Linked(s', root, CutLevels(s, lv, u, j, mid), Gap(u, j + 1))
  {
    hide Leaves, Chain, Parents, Bounds, Expand, Placed, Distinct, ZeroFirst, InternalSplit, CutLevels;
    SplitInRange(s, s', lv[u][j].pid, mid);
    var lv': seq<Level> := CutLevels(s, lv, u, j, mid);
    CutLevelsAre(s, lv, u, j, mid);
    LevelFacts(cmp, s, root, lv, NoGap, u);
    CutExpand(s, lv[u], j, mid, s');
    forall q | 1 <= q < |lv'|
      ensures Expand(s', lv'[q]) == Seen(lv', q - 1, Gap(u, j + 1))
    {
      assert Expand(s, lv[q]) == Seen(lv, q - 1, NoGap);
      if q != u {
        CutFrame(cmp, s, root, lv, u, j, mid, s', q);
      }
    }
  }

  lemma CutLevelsAre(s: seq<Page>, lv: seq<Level>, u: nat, j: nat, mid: nat)
    requires u < |lv| && j < |lv[u]| && lv[u][j].pid < |s| && mid < |s[lv[u][j].pid].recs|
    ensures var lv' := CutLevels(s, lv, u, j, mid);
      && |lv'| == |lv| && (forall q :: 0 <= q < |lv| && q != u ==> lv'[q] == lv[q])
      && lv'[u] == InsertAt(lv[u], j + 1, Edge(From(s[lv[u][j].pid].recs[mid].key), |s|))
      && Seen(lv', u, Gap(u, j + 1)) == lv[u]
  {
  }

  lemma SplitInRange(s: seq<Page>, s': seq<Page>, pid: PageId, mid: nat)
    requires InternalSplit(s, s', pid, mid)
    ensures pid < |s| && mid < |s[pid].recs| && |s'| == |s| + 1
  {
  }

  lemma CutFrame(cmp: Cmp, s: seq<Page>, root: PageId, lv: seq<Level>, u: nat, j: nat, mid: nat, s': seq<Page>, q: nat)
    requires Cuttable(cmp, s, root, lv, u, j, mid, s') && q < |lv| && q != u
    ensures Expand(s', lv[q]) == Expand(s, lv[q])
  {
    hide Leaves, Chain, Parents, Bounds, Expand, Linked, ZeroFirst, InternalSplit, SameKids;
    assert Alone(lv, u, j);
    forall i | 0 <= i < |lv[q]|
      ensures SameKids(PageAt(s, lv[q][i].pid), PageAt(s', lv[q][i].pid))
    {
      assert lv[q][i].pid < |s|;
      CutSameKids(s, s', lv[u][j].pid, mid, lv[q][i].pid);
    }
    ExpandFrame(s, s', lv[q]);
  }

  lemma CutPlaced(cmp: Cmp, s: seq<Page>, root: PageId, lv: seq<Level>, u: nat, j: nat, mid: nat, s': seq<Page>)
    requires Cuttable(cmp, s, root, lv, u, j, mid, s')
    ensures Placed(s', CutLevels(s, lv, u, j, mid))
  {
    hide Leaves, Chain, Parents, Bounds, Linked;
    var lv': seq<Level> := CutLevels(s, lv, u, j, mid);
    assert Alone(lv, u, j);
    forall q, i | 0 <= q < |lv'| && 0 <= i < |lv'[q]|
      ensures lv'[q][i].pid < |s'| && PageOk(s'[lv'[q][i].pid], q)
    {
      if q == u && (i == j || i == j + 1) {
        assert PageOk(s[lv[u][j].pid], u);
      } else {
        var oldI := if q == u && i > j then i - 1 else i;
        assert lv'[q][i] == lv[q][oldI];
        CutSameKids(s, s', lv[u][j].pid, mid, lv[q][oldI].pid);
      }
    }
  }

  /** The separator that goes up lies strictly inside the span of the page that is cut. */
  lemma CutSepInside(cmp: Cmp, s: seq<Page>, root: PageId, lv: seq<Level>, u: nat, j: nat, mid: nat)
    requires Shape(cmp, s, root, lv, NoGap) && 1 <= u < |lv| && j < |lv[u]|
    requires mid < |PageAt(s, lv[u][j].pid).recs|
    ensures BoundLt(cmp, lv[u][j].lo, From(PageAt(s, lv[u][j].pid).recs[mid].key))
    ensures j + 1 < |lv[u]| ==> BoundLt(cmp, From(PageAt(s, lv[u][j].pid).recs[mid].key), lv[u][j + 1].lo)
  {
    LevelFacts(cmp, s, root, lv, NoGap, u - 1);
    hide Leaves, Chain, Parents, Bounds, Expand;
    KidPlace(s, root, lv, u, j, 0);
    KidPlace(s, root, lv, u, j, mid + 1);
    if j + 1 < |lv[u]| {
      KidPlace(s, root, lv, u, j + 1, 0);
      OffsetStep(s, lv[u], j);
    }
  }

  // Children keep the right parent when a page is cut.

  /** A child of a page other than the one cut does not move. */
  lemma OtherKidStays(s: seq<Page>, root: PageId, lv: seq<Level>, u: nat, j: nat, mid: nat, q: nat, i: nat, d: nat)
    requires Linked(s, root, lv, NoGap) && Distinct(lv)
    requires 1 <= u < |lv| && j < |lv[u]| && lv[u][j].pid < |s| && mid < |s[lv[u][j].pid].recs|
    requires 1 <= q < |lv| && i < |lv[q]| && d <= |PageAt(s, lv[q][i].pid).recs|
    requires q == u && i == j ==> d <= mid
    ensures !Moved(s[lv[u][j].pid].recs, mid, Kids(lv[q][i].lo, PageAt(s, lv[q][i].pid))[d].pid)
  {
    var recs := s[lv[u][j].pid].recs;
    var x := Kids(lv[q][i].lo, PageAt(s, lv[q][i].pid))[d].pid;
    forall t | mid <= t < |recs| && ChildOf(recs[t]) == x
      ensures false
    {
      assert Kids(lv[u][j].lo, PageAt(s, lv[u][j].pid))[t + 1].pid == x;
      hide Linked, Expand, Kids;
      KidUnique(s, root, lv, u, j, t + 1, q, i, d);
    }
  }

  /** Being a named child, in terms of the list of children. */
  lemma ParentOfKids(s: seq<Page>, pid: PageId, lo: Bound)
    ensures ParentOf(s, pid) <==> forall d :: 0 <= d < |Kids(lo, PageAt(s, pid))| ==>
      Names(s, Kids(lo, PageAt(s, pid))[d].pid, pid)
  {
    var p := PageAt(s, pid);
    if forall d :: 0 <= d < |Kids(lo, p)| ==> Names(s, Kids(lo, p)[d].pid, pid) {
      assert Names(s, Kids(lo, p)[0].pid, pid);
      forall t | 0 <= t < |p.recs|
        ensures Names(s, ChildOf(p.recs[t]), pid)
      {
        assert Names(s, Kids(lo, p)[t + 1].pid, pid);
      }
    }
    if ParentOf(s, pid) {
      forall d | 0 <= d < |Kids(lo, p)|
        ensures Names(s, Kids(lo, p)[d].pid, pid)
      {
        if d > 0 {
          assert Names(s, ChildOf(p.recs[d - 1]), pid);
        }
      }
    }
  }

  /** A page that does not move keeps its parent. */
  lemma StayerNamed(s: seq<Page>, s': seq<Page>, pid: PageId, mid: nat, x: PageId, parent: PageId)
    requires InternalSplit(s, s', pid, mid) && Names(s, x, parent)
    requires !Moved(s[pid].recs, mid, x)
    ensures Names(s', x, parent)
  {
  }

  /** Away from the page that is cut, children keep their parent. */
  lemma CutParentOther(cmp: Cmp, s: seq<Page>, root: PageId, lv: seq<Level>, u: nat, j: nat, mid: nat, s': seq<Page>,
                       q: nat, i: nat)
    requires Cuttable(cmp, s, root, lv, u, j, mid, s')
    requires 1 <= q < |lv| && i < |lv[q]| && (q != u || i != j)
    ensures ParentOf(s', lv[q][i].pid)
  {
    hide Leaves, Chain, Bounds;
    var x, lo := lv[q][i].pid, lv[q][i].lo;
    assert Alone(lv, u, j);
    CutSameKids(s, s', lv[u][j].pid, mid, x);
    ParentOfKids(s, x, lo);
    forall d | 0 <= d < |Kids(lo, PageAt(s, x))|
      ensures Names(s', Kids(lo, PageAt(s', x))[d].pid, x)
    {
      hide InternalSplit, Linked, Parents, Expand, Moved;
      OtherKidStays(s, root, lv, u, j, mid, q, i, d);
      StayerNamed(s, s', lv[u][j].pid, mid, Kids(lo, PageAt(s, x))[d].pid, x);
    }
    ParentOfKids(s', x, lo);
  }

  /** The left part keeps its children. */
  lemma CutParentLeft(cmp: Cmp, s: seq<Page>, root: PageId, lv: seq<Level>, u: nat, j: nat, mid: nat, s': seq<Page>)
    requires Cuttable(cmp, s, root, lv, u, j, mid, s')
    ensures ParentOf(s', lv[u][j].pid)
  {
    hide Leaves, Chain, Bounds;
    var x, lo := lv[u][j].pid, lv[u][j].lo;
    ParentOfKids(s, x, lo);
    forall d | 0 <= d < |Kids(lo, PageAt(s', x))|
      ensures Names(s', Kids(lo, PageAt(s', x))[d].pid, x)
    {
      assert Kids(lo, PageAt(s', x))[d] == Kids(lo, PageAt(s, x))[d];
      hide InternalSplit, Linked, Parents, Expand, Moved;
      OtherKidStays(s, root, lv, u, j, mid, u, j, d);
      StayerNamed(s, s', x, mid, Kids(lo, PageAt(s, x))[d].pid, x);
    }
    ParentOfKids(s', x, lo);
  }

  lemma KidNotSelf(s: seq<Page>, root: PageId, lv: seq<Level>, u: nat, j: nat, c: nat)
    requires Linked(s, root, lv, NoGap) && Distinct(lv)
    requires 1 <= u < |lv| && j < |lv[u]| && c <= |PageAt(s, lv[u][j].pid).recs|
    ensures Kids(lv[u][j].lo, PageAt(s, lv[u][j].pid))[c].pid != lv[u][j].pid
  {
    hide Linked, Expand, Kids;
    KidPlace(s, root, lv, u, j, c);
    assert Alone(lv, u, j);
  }

  /** The right part adopts its children. */
  lemma CutParentRight(cmp: Cmp, s: seq<Page>, root: PageId, lv: seq<Level>, u: nat, j: nat, mid: nat, s': seq<Page>)
    requires Cuttable(cmp, s, root, lv, u, j, mid, s')
    ensures ParentOf(s', |s|)
  {
    hide Leaves, Chain, Bounds;
    var pid := lv[u][j].pid;
    var recs := s[pid].recs;
    assert ParentOf(s, pid);
    forall t | mid <= t < |recs|
      ensures Names(s', ChildOf(recs[t]), |s|)
    {
      assert Names(s, ChildOf(recs[t]), pid);
      assert Kids(lv[u][j].lo, PageAt(s, pid))[t + 1].pid == ChildOf(recs[t]);
      KidNotSelf(s, root, lv, u, j, t + 1);
      assert Moved(recs, mid, ChildOf(recs[t]));
    }
  }

  lemma CutParents(cmp: Cmp, s: seq<Page>, root: PageId, lv: seq<Level>, u: nat, j: nat, mid: nat, s': seq<Page>)
    requires Cuttable(cmp, s, root, lv, u, j, mid, s')
    ensures Parents(s', root, CutLevels(s, lv, u, j, mid), Gap(u, j + 1))
  {
    hide Leaves, Chain, Bounds, Expand, ParentOf;
    var lv': seq<Level> := CutLevels(s, lv, u, j, mid);
    forall q, i | 1 <= q < |lv'| && 0 <= i < |lv'[q]|
      ensures ParentOf(s', lv'[q][i].pid)
    {
      if q == u && i == j {
        CutParentLeft(cmp, s, root, lv, u, j, mid, s');
      } else if q == u && i == j + 1 {
        CutParentRight(cmp, s, root, lv, u, j, mid, s');
      } else {
        var oldI := if q == u && i > j then i - 1 else i;
        assert lv'[q][i] == lv[q][oldI];
        CutParentOther(cmp, s, root, lv, u, j, mid, s', q, oldI);
      }
    }
    RootStays(s, root, lv, u, j, mid, s');
  }

  /** The root is nobody's child. */
  lemma RootStays(s: seq<Page>, root: PageId, lv: seq<Level>, u: nat, j: nat, mid: nat, s': seq<Page>)
    requires Linked(s, root, lv, NoGap) && Distinct(lv) && Parents(s, root, lv, NoGap)
    requires 1 <= u < |lv| && j < |lv[u]| && InternalSplit(s, s', lv[u][j].pid, mid)
    ensures Names(s', root, INVALID_PAGE_ID)
  {
    var recs := s[lv[u][j].pid].recs;
    assert lv[|lv| - 1] == [Edge(NegInf, root)];
    assert Alone(lv, |lv| - 1, 0);
    forall t | mid <= t < |recs| && ChildOf(recs[t]) == root
      ensures false
    {
      assert Kids(lv[u][j].lo, s[lv[u][j].pid])[t + 1].pid == root;
      KidPlace(s, root, lv, u, j, t + 1);
    }
    assert !Moved(recs, mid, root);
  }

  /** Cutting a page in two leaves a tree with the new page pending one level up. */
  lemma CutShape(cmp: Cmp, s: seq<Page>, root: PageId, lv: seq<Level>, u: nat, j: nat, mid: nat, s': seq<Page>)
    requires Cuttable(cmp, s, root, lv, u, j, mid, s')
    ensures Shape(cmp, s', root, CutLevels(s, lv, u, j, mid), Gap(u, j + 1))
  {
    hide Leaves, Chain, Parents, Expand;
    var lv': seq<Level> := CutLevels(s, lv, u, j, mid);
    var pid, e := lv[u][j].pid, lv'[u][j + 1];
    CutLinked(cmp, s, root, lv, u, j, mid, s');
    CutPlaced(cmp, s, root, lv, u, j, mid, s');
    CutParents(cmp, s, root, lv, u, j, mid, s');
    hide Linked;
    CutSepInside(cmp, s, root, lv, u, j, mid);
    DistinctInsert(s, lv, u, j + 1, e);
    BoundsInsert(cmp, lv, u, j + 1, e.lo.key, e.pid);
    hide Bounds;
    ZeroFirstInsert(lv, u, j + 1, e);
    assert Alone(lv, u, j);
    forall i | 0 <= i < |lv[0]|
      ensures PageAt(s', lv[0][i].pid) == PageAt(s, lv[0][i].pid).(parent := PageAt(s', lv[0][i].pid).parent)
    {
      CutSameKids(s, s', pid, mid, lv[0][i].pid);
    }
    ChainFrame(s, s', lv[0]);
    LeavesFrame(cmp, s, s', lv[0]);
  }
}
