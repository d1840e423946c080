/** The way up after a split (src/btree.c:611-766): at each level the pending page
    is taken up by the page that the path went through. */
module Climb {
  import opened Comparator
  import opened Pages
  import opened Levels
  import opened Frames
  import opened Search
  import opened Descent
  import opened Fitting
  import opened SplitSteps
  import opened InternalSteps
  import opened RootSteps

  /** The state of the propagation when level `r` holds the pending page `pid`: the
      path, which is still valid from level `r` upwards, passes just left of it. */
  ghost predicate Climbing(cmp: Cmp, s: seq<Page>, root: PageId, lv: seq<Level>, path: seq<PageId>, k: Key,
                           ix: seq<nat>, r: nat, sep: Key, pid: PageId)
  {
    && Order(cmp)
    && r < |lv| == |ix| == |path|
    && Shape(cmp, s, root, lv, Gap(r, ix[r] + 1))
    && ix[r] + 1 < |lv[r]| && lv[r][ix[r] + 1] == Edge(From(sep), pid)
    && OnPath(cmp, lv, path, k, ix, r)
    && pid == |s| - 1
  }

  ghost predicate OnPath(cmp: Cmp, lv: seq<Level>, path: seq<PageId>, k: Key, ix: seq<nat>, r: nat)
    requires r < |lv| == |ix| == |path|
  {
    forall q :: r <= q < |lv| ==> PassesAt(cmp, lv, path, k, ix, r, q)
  }

  ghost predicate PassesAt(cmp: Cmp, lv: seq<Level>, path: seq<PageId>, k: Key, ix: seq<nat>, r: nat, q: nat)
    requires r <= q < |lv| == |ix| == |path|
  {
    && ix[q] < |lv[q]|
    && InSpan(cmp, k, Seen(lv, q, Gap(r, ix[r] + 1)), ix[q])
    && lv[q][ix[q]].pid == path[|lv| - 1 - q]
  }

  /** A separator strictly between child `c` and its right neighbour goes after record `c`. */
  lemma UpperFromNeighbours(cmp: Cmp, s: seq<Page>, es: Level, j: nat, c: nat, sep: Key)
    requires Order(cmp) && j < |es| && c <= |PageAt(s, es[j].pid).recs| && Ascending(cmp, Expand(s, es))
    requires Offset(s, es, j) + c < |Expand(s, es)|
    requires BoundLt(cmp, Expand(s, es)[Offset(s, es, j) + c].lo, From(sep))
    requires Offset(s, es, j) + c + 1 < |Expand(s, es)| ==>
      BoundLt(cmp, From(sep), Expand(s, es)[Offset(s, es, j) + c + 1].lo)
    ensures IsUpper(cmp, PageAt(s, es[j].pid).recs, sep, c)
  {
    var recs := PageAt(s, es[j].pid).recs;
    var ex := Expand(s, es);
    var o := Offset(s, es, j);
    hide Expand, Kids;
    forall t | 0 <= t < |recs|
      ensures t < c ==> !Lt(cmp, sep, recs[t].key)
      ensures t >= c ==> Lt(cmp, sep, recs[t].key)
    {
      KidBound(s, es, j, t);
      if t < c {
        assert t + 1 < c ==> BoundLt(cmp, ex[o + t + 1].lo, ex[o + c].lo);
        assert Lt(cmp, recs[t].key, sep);
      } else {
        assert t > c ==> BoundLt(cmp, ex[o + c + 1].lo, ex[o + t + 1].lo);
      }
    }
  }

  lemma SeenIsAscending(cmp: Cmp, lv: seq<Level>, q: nat, gap: Gap)
    requires q < |lv| && Ascending(cmp, lv[q])
    ensures Ascending(cmp, Seen(lv, q, gap))
  {
  }

  /** The pending page belongs right after the child through which the path went. */
  lemma PendingPlace(cmp: Cmp, s: seq<Page>, root: PageId, lv: seq<Level>, path: seq<PageId>, k: Key,
                     ix: seq<nat>, r: nat, sep: Key, pid: PageId)
    requires Climbing(cmp, s, root, lv, path, k, ix, r, sep, pid) && r + 1 < |lv|
    ensures path[|lv| - 2 - r] < |s| && ix[r + 1] < |lv[r + 1]|
    ensures lv[r + 1][ix[r + 1]].pid == path[|lv| - 2 - r]
    ensures Sorted(cmp, s[path[|lv| - 2 - r]].recs)
    ensures PendingAt(s, lv, r, ix[r] + 1, ix[r + 1], UpperPos(cmp, s[path[|lv| - 2 - r]].recs, sep))
  {
    var gap := Gap(r, ix[r] + 1);
    var j := ix[r + 1];
    assert PassesAt(cmp, lv, path, k, ix, r, r) && PassesAt(cmp, lv, path, k, ix, r, r + 1);
    LevelFacts(cmp, s, root, lv, gap, r);
    LevelFacts(cmp, s, root, lv, gap, r + 1);
    assert Expand(s, lv[r + 1]) == Seen(lv, r, gap);
    hide Leaves, Chain, Parents, Bounds, Distinct, Expand, Kids, Loaded, AscentFits, OnPath;
    PageSorted(cmp, s, root, lv, gap, r + 1, j);
    hide Shape, Linked, Placed;
    PendingIndex(cmp, s, lv, k, ix, r, sep);
  }

  lemma PendingIndex(cmp: Cmp, s: seq<Page>, lv: seq<Level>, k: Key, ix: seq<nat>, r: nat, sep: Key)
    requires Order(cmp) && r + 1 < |lv| == |ix|
    requires Ascending(cmp, lv[r]) && ix[r + 1] < |lv[r + 1]| && lv[r + 1][ix[r + 1]].pid < |s|
    requires ix[r] + 1 < |lv[r]| && lv[r][ix[r] + 1].lo == From(sep)
    requires Expand(s, lv[r + 1]) == Seen(lv, r, Gap(r, ix[r] + 1))
    requires Sorted(cmp, PageAt(s, lv[r + 1][ix[r + 1]].pid).recs)
    requires InSpan(cmp, k, lv[r + 1], ix[r + 1]) && InSpan(cmp, k, Seen(lv, r, Gap(r, ix[r] + 1)), ix[r])
    ensures PendingAt(s, lv, r, ix[r] + 1, ix[r + 1], UpperPos(cmp, PageAt(s, lv[r + 1][ix[r + 1]].pid).recs, sep))
  {
    var gap, j := Gap(r, ix[r] + 1), ix[r + 1];
    var recs := PageAt(s, lv[r + 1][j].pid).recs;
    var c := UpperPos(cmp, recs, k);
    SeenIsAscending(cmp, lv, r, gap);
    UpperPosIsUpper(cmp, recs, k);
    hide Expand;
    ChildIndex(cmp, s, lv[r + 1], k, j, c, ix[r]);
    assert BoundLt(cmp, lv[r][ix[r]].lo, lv[r][ix[r] + 1].lo);
    assert ix[r] + 2 < |lv[r]| ==> BoundLt(cmp, lv[r][ix[r] + 1].lo, lv[r][ix[r] + 2].lo);
    UpperFromNeighbours(cmp, s, lv[r + 1], j, c, sep);
    UpperPosIsUpper(cmp, recs, sep);
    UpperUnique(cmp, recs, sep, c, UpperPos(cmp, recs, sep));
  }

  /** The page on the path one level up, with the pending page taken up. */
  ghost function TakenUp(cmp: Cmp, p: Page, sep: Key, pid: PageId): Page {
    p.(recs := InsertAt(p.recs, UpperPos(cmp, p.recs, sep), ChildRec(sep, pid)))
  }

  lemma GrownIsTakenUp(cmp: Cmp, s: seq<Page>, root: PageId, lv: seq<Level>, path: seq<PageId>, k: Key,
                       ix: seq<nat>, r: nat, sep: Key, pid: PageId)
    requires Climbing(cmp, s, root, lv, path, k, ix, r, sep, pid) && r + 1 < |lv|
    ensures path[|lv| - 2 - r] < |s| && ix[r + 1] < |lv[r + 1]| && lv[r + 1][ix[r + 1]].pid == path[|lv| - 2 - r]
    ensures var p := s[path[|lv| - 2 - r]];
            var c := UpperPos(cmp, p.recs, sep);
            PendingAt(s, lv, r, ix[r] + 1, ix[r + 1], c)
              && Grown(s, lv, r, ix[r] + 1, ix[r + 1], c) == TakenUp(cmp, p, sep, pid)
  {
    PendingPlace(cmp, s, root, lv, path, k, ix, r, sep, pid);
  }

  /** Taking the pending page up completes the tree, whether or not the page has room. */
  lemma TakeUpShape(cmp: Cmp, s: seq<Page>, root: PageId, lv: seq<Level>, path: seq<PageId>, k: Key,
                    ix: seq<nat>, r: nat, sep: Key, pid: PageId, s': seq<Page>)
    requires Climbing(cmp, s, root, lv, path, k, ix, r, sep, pid) && r + 1 < |lv|
    requires path[|lv| - 2 - r] < |s|
    requires s' == s[path[|lv| - 2 - r] := TakenUp(cmp, s[path[|lv| - 2 - r]], sep, pid)]
    ensures Shape(cmp, s', root, lv, NoGap)
  {
    GrownIsTakenUp(cmp, s, root, lv, path, k, ix, r, sep, pid);
    var c := UpperPos(cmp, s[path[|lv| - 2 - r]].recs, sep);
    hide Shape, Loaded, AscentFits, OnPath, PendingAt;
    InsertShape(cmp, s, root, lv, r, ix[r] + 1, ix[r + 1], c, s');
  }

  /** The parent has room: the climb ends here. */
  lemma ClimbInsert(cmp: Cmp, s: seq<Page>, root: PageId, lv: seq<Level>, path: seq<PageId>, k: Key,
                    ix: seq<nat>, r: nat, sep: Key, pid: PageId, s': seq<Page>)
    requires Climbing(cmp, s, root, lv, path, k, ix, r, sep, pid) && r + 1 < |lv|
    requires path[|lv| - 2 - r] < |s|
    requires s' == s[path[|lv| - 2 - r] := TakenUp(cmp, s[path[|lv| - 2 - r]], sep, pid)]
    requires Fits(s'[path[|lv| - 2 - r]].recs)
    ensures Shape(cmp, s', root, lv, NoGap) && (Loaded(s, lv) ==> Loaded(s', lv))
    ensures Records(s', lv[0]) == Records(s, lv[0])
  {
    hide Shape, Loaded, OnPath, AscentFits, PendingAt, Records;
    TakeUpShape(cmp, s, root, lv, path, k, ix, r, sep, pid, s');
    GrownIsTakenUp(cmp, s, root, lv, path, k, ix, r, sep, pid);
    ShapeParts(cmp, s, root, lv, Gap(r, ix[r] + 1));
    assert Alone(lv, r + 1, ix[r + 1]);
    if Loaded(s, lv) {
      LoadedUpdate(s, lv, r + 1, ix[r + 1], s');
    }
    RecordsFrame(s, s', lv[0]);
  }

  lemma LoadedUpdate(s: seq<Page>, lv: seq<Level>, q: nat, i: nat, s': seq<Page>)
    requires Loaded(s, lv) && q < |lv| && i < |lv[q]| && lv[q][i].pid < |s| == |s'|
    requires forall x :: 0 <= x < |s| && x != lv[q][i].pid ==> s'[x].recs == s[x].recs
    requires s'[lv[q][i].pid].recs != [] && Fits(s'[lv[q][i].pid].recs)
    ensures Loaded(s', lv)
  {
  }

  /** The parent splits in turn without a loss: the climb goes on one level up. */
  lemma ClimbCut(cmp: Cmp, s: seq<Page>, root: PageId, lv: seq<Level>, path: seq<PageId>, k: Key,
                 ix: seq<nat>, r: nat, sep: Key, pid: PageId, sv: seq<Page>, s': seq<Page>)
    requires Climbing(cmp, s, root, lv, path, k, ix, r, sep, pid) && r + 1 < |lv|
    requires path[|lv| - 2 - r] < |s|
    requires sv == s[path[|lv| - 2 - r] := TakenUp(cmp, s[path[|lv| - 2 - r]], sep, pid)]
    requires InternalSplit(sv, s', path[|lv| - 2 - r], |sv[path[|lv| - 2 - r]].recs| / 2)
    ensures var all := sv[path[|lv| - 2 - r]].recs;
            && ix[r + 1] < |lv[r + 1]|
            && Climbing(cmp, s', root, lv[r + 1 := InsertAt(lv[r + 1], ix[r + 1] + 1,
              Edge(From(all[|all| / 2].key), |s|))],
                        path, k, ix, r + 1, all[|all| / 2].key, |s|)
            && AscentFits(cmp, s', path, |path| - 3 - r, all[|all| / 2].key, |s|) ==
              AscentFits(cmp, s, path, |path| - 3 - r, all[|all| / 2].key, |s|)
            && AscentRefills(cmp, s', path, |path| - 3 - r, all[|all| / 2].key, |s|) ==
              AscentRefills(cmp, s, path, |path| - 3 - r, all[|all| / 2].key, |s|)
            && (Loaded(s, lv) && InternalHalvesFit(all) ==>
                  Loaded(s', lv[r + 1 := InsertAt(lv[r + 1], ix[r + 1] + 1, Edge(From(all[|all| / 2].key), |s|))]))
    ensures Records(s', lv[0]) == Records(s, lv[0])
  {
    hide Shape, Placed, Distinct, InternalSplit, Loaded, OnPath, AscentFits, AscentRefills, InternalHalvesFit, Records,
      PendingAt, Order, Linked, InsertFits, UpperPos, Sorted;
    var ppid := path[|lv| - 2 - r];
    var all := sv[ppid].recs;
    var mid := |all| / 2;
    var j := ix[r + 1];
    TakeUpShape(cmp, s, root, lv, path, k, ix, r, sep, pid, sv);
    GrownIsTakenUp(cmp, s, root, lv, path, k, ix, r, sep, pid);
    ShapeParts(cmp, s, root, lv, Gap(r, ix[r] + 1));
    SplitInRange(sv, s', ppid, mid);
    var lv' := CutLevels(sv, lv, r + 1, j, mid);
    CutShape(cmp, sv, root, lv, r + 1, j, mid, s');
    if Loaded(s, lv) && InternalHalvesFit(all) {
      CutLoaded(cmp, s, sv, root, lv, r + 1, j, mid, s');
    }
    CutOnPath(cmp, lv, path, k, ix, r, lv', Edge(From(all[mid].key), |s|));
    CutAscent(cmp, s, sv, root, lv, path, k, ix, r, s', all[mid].key);
    CutRecords(cmp, s, sv, root, lv, r + 1, j, mid, s');
  }

  lemma ShapeParts(cmp: Cmp, s: seq<Page>, root: PageId, lv: seq<Level>, gap: Gap)
    requires Shape(cmp, s, root, lv, gap)
    ensures Placed(s, lv) && Distinct(lv) && Linked(s, root, lv, gap)
  {
  }

  lemma CutLoaded(cmp: Cmp, s: seq<Page>, sv: seq<Page>, root: PageId, lv: seq<Level>, u: nat, j: nat, mid: nat,
                  s': seq<Page>)
    requires Cuttable(cmp, sv, root, lv, u, j, mid, s') && Loaded(s, lv)
    requires lv[u][j].pid < |s| && sv == s[lv[u][j].pid := sv[lv[u][j].pid]]
    requires InternalHalvesFit(sv[lv[u][j].pid].recs) && mid == |sv[lv[u][j].pid].recs| / 2
    ensures Loaded(s', CutLevels(sv, lv, u, j, mid))
  {
    hide Linked, Parents, Chain, Leaves, Bounds;
    var lv': seq<Level> := CutLevels(sv, lv, u, j, mid);
    assert Alone(lv, u, j);
    forall q, i | 0 <= q < |lv'| && 0 <= i < |lv'[q]|
      ensures PageAt(s', lv'[q][i].pid).recs != [] && Fits(PageAt(s', lv'[q][i].pid).recs)
    {
      if q == u && (i == j || i == j + 1) {
      } else {
        var oldI := if q == u && i > j then i - 1 else i;
        assert lv'[q][i] == lv[q][oldI];
        CutSameKids(sv, s', lv[u][j].pid, mid, lv[q][oldI].pid);
      }
    }
  }

  lemma CutOnPath(cmp: Cmp, lv: seq<Level>, path: seq<PageId>, k: Key, ix: seq<nat>, r: nat, lv': seq<Level>, e: Edge)
    requires r + 1 < |lv| == |ix| == |path| && ix[r + 1] < |lv[r + 1]|
    requires OnPath(cmp, lv, path, k, ix, r)
    requires lv' == lv[r + 1 := InsertAt(lv[r + 1], ix[r + 1] + 1, e)]
    ensures OnPath(cmp, lv', path, k, ix, r + 1)
  {
    hide InSpan;
    var r' := r + 1;
    forall q | r' <= q < |lv'|
      ensures PassesAt(cmp, lv', path, k, ix, r', q)
    {
      assert PassesAt(cmp, lv, path, k, ix, r, q);
      if q == r + 1 {
        assert Seen(lv', q, Gap(r + 1, ix[r + 1] + 1)) == lv[q];
      }
    }
  }

  lemma CutAscent(cmp: Cmp, s: seq<Page>, sv: seq<Page>, root: PageId, lv: seq<Level>, path: seq<PageId>, k: Key,
                  ix: seq<nat>, r: nat, s': seq<Page>, sep: Key)
    requires r + 1 < |lv| == |ix| == |path| && OnPath(cmp, lv, path, k, ix, r)
    requires Placed(s, lv) && Distinct(lv) && ix[r + 1] < |lv[r + 1]|
    requires path[|lv| - 2 - r] == lv[r + 1][ix[r + 1]].pid && |sv| == |s|
    requires sv == s[path[|lv| - 2 - r] := sv[path[|lv| - 2 - r]]]
    requires InternalSplit(sv, s', path[|lv| - 2 - r], |sv[path[|lv| - 2 - r]].recs| / 2)
    ensures AscentFits(cmp, s', path, |path| - 3 - r, sep, |s|) == AscentFits(cmp, s, path, |path| - 3 - r, sep, |s|)
    ensures AscentRefills(cmp, s', path, |path| - 3 - r, sep, |s|) ==
      AscentRefills(cmp, s, path, |path| - 3 - r, sep, |s|)
  {
    hide AscentFits, AscentRefills, InternalSplit;
    var ppid := path[|lv| - 2 - r];
    assert Alone(lv, r + 1, ix[r + 1]);
    forall l | 0 <= l <= |path| - 3 - r
      ensures PageAt(s', path[l]).recs == PageAt(s, path[l]).recs
    {
      assert PassesAt(cmp, lv, path, k, ix, r, |lv| - 1 - l);
      assert lv[|lv| - 1 - l][ix[|lv| - 1 - l]].pid == path[l];
      CutSameKids(sv, s', ppid, |sv[ppid].recs| / 2, path[l]);
    }
    AscentFrame(cmp, s, s', path, |path| - 3 - r, sep, |s|);
    RefillsFrame(cmp, s, s', path, |path| - 3 - r, sep, |s|);
  }

  lemma CutRecords(cmp: Cmp, s: seq<Page>, sv: seq<Page>, root: PageId, lv: seq<Level>, u: nat, j: nat, mid: nat,
                   s': seq<Page>)
    requires Cuttable(cmp, sv, root, lv, u, j, mid, s')
    requires lv[u][j].pid < |s| && sv == s[lv[u][j].pid := sv[lv[u][j].pid]]
    ensures Records(s', lv[0]) == Records(s, lv[0])
  {
    hide Linked, Parents, Chain, Leaves, Bounds;
    assert Alone(lv, u, j);
    forall i | 0 <= i < |lv[0]|
      ensures PageAt(s', lv[0][i].pid).recs == PageAt(s, lv[0][i].pid).recs
    {
      CutSameKids(sv, s', lv[u][j].pid, mid, lv[0][i].pid);
    }
    hide Records;
    RecordsFrame(s, s', lv[0]);
  }

  /** The climb has passed the root: a new root takes up the old one and the pending page. */
  lemma ClimbGrow(cmp: Cmp, s: seq<Page>, root: PageId, lv: seq<Level>, path: seq<PageId>, k: Key,
                  ix: seq<nat>, r: nat, sep: Key, pid: PageId, s': seq<Page>)
    requires Climbing(cmp, s, root, lv, path, k, ix, r, sep, pid) && r + 1 == |lv|
    requires RootGrowth(s, s', root, Edge(From(sep), pid))
    ensures Shape(cmp, s', |s|, lv + [TopLevel(s)], NoGap)
    ensures Loaded(s, lv) && Fits([ChildRec(sep, pid)]) ==> Loaded(s', lv + [TopLevel(s)])
    ensures Records(s', lv[0]) == Records(s, lv[0])
  {
    var lv': seq<Level> := lv + [TopLevel(s)];
    assert |Seen(lv, r, Gap(r, ix[r] + 1))| == 1;
    assert ix[r] == 0 && |lv[r]| == 2;
    hide Parents, Chain, Leaves, Bounds, Expand, OnPath;
    GrowShape(cmp, s, root, lv, s');
    hide Linked, Distinct, Records;
    if Loaded(s, lv) && Fits([ChildRec(sep, pid)]) {
      GrowLoaded(s, root, lv, sep, pid, s');
    }
    RecordsFrame(s, s', lv[0]);
  }

  lemma GrowLoaded(s: seq<Page>, root: PageId, lv: seq<Level>, sep: Key, pid: PageId, s': seq<Page>)
    requires |lv| > 0 && Placed(s, lv) && Loaded(s, lv) && Fits([ChildRec(sep, pid)])
    requires RootGrowth(s, s', root, Edge(From(sep), pid))
    ensures Loaded(s', lv + [TopLevel(s)])
  {
    var lv': seq<Level> := lv + [TopLevel(s)];
    forall q, i | 0 <= q < |lv'| && 0 <= i < |lv'[q]|
      ensures PageAt(s', lv'[q][i].pid).recs != [] && Fits(PageAt(s', lv'[q][i].pid).recs)
    {
      if q < |lv| {
        assert lv'[q][i] == lv[q][i];
      }
    }
  }

  /** The page one level up, when there is one. */
  lemma ClimbParent(cmp: Cmp, s: seq<Page>, root: PageId, lv: seq<Level>, path: seq<PageId>, k: Key,
                    ix: seq<nat>, r: nat, sep: Key, pid: PageId)
    requires Climbing(cmp, s, root, lv, path, k, ix, r, sep, pid) && r + 1 < |lv|
    ensures var ppid := path[|lv| - 2 - r];
            && Order(cmp) && ppid < |s| && Sorted(cmp, s[ppid].recs)
            && s[ppid].kind == InternalPage && s[ppid].prev == s[ppid].next == INVALID_PAGE_ID
            && (forall t :: 0 <= t < |TakenUp(cmp, s[ppid], sep, pid).recs| ==>
                  ChildOf(TakenUp(cmp, s[ppid], sep, pid).recs[t]) < |s|
                    && ChildOf(TakenUp(cmp, s[ppid], sep, pid).recs[t]) != ppid)
            && (InsertFits(s[ppid].recs, ChildRec(sep, pid)) ==> Fits(TakenUp(cmp, s[ppid], sep, pid).recs))
  {
    hide Shape, Loaded, OnPath, AscentFits, PendingAt, InternalHalvesFit, InsertFits, Fits, TakenUp;
    var ppid := path[|lv| - 2 - r];
    var j := ix[r + 1];
    PendingPlace(cmp, s, root, lv, path, k, ix, r, sep, pid);
    var sv := s[ppid := TakenUp(cmp, s[ppid], sep, pid)];
    TakeUpShape(cmp, s, root, lv, path, k, ix, r, sep, pid, sv);
    ShapeParts(cmp, s, root, lv, Gap(r, ix[r] + 1));
    ShapeParts(cmp, sv, root, lv, NoGap);
    forall t | 0 <= t < |sv[ppid].recs|
      ensures ChildOf(sv[ppid].recs[t]) < |s| && ChildOf(sv[ppid].recs[t]) != ppid
    {
      KidBounds(sv, root, lv, r + 1, j, t);
    }
    assert PageOk(s[ppid], r + 1);
    InsertFitsIffFits(s[ppid].recs, UpperPos(cmp, s[ppid].recs, sep), ChildRec(sep, pid));
    TakenUpRecs(cmp, s[ppid], sep, pid);
  }

  lemma TakenUpRecs(cmp: Cmp, p: Page, sep: Key, pid: PageId)
    ensures TakenUp(cmp, p, sep, pid).recs == InsertAt(p.recs, UpperPos(cmp, p.recs, sep), ChildRec(sep, pid))
  {
  }

  /** Children of an internal page are other pages of the store. */
  lemma KidBounds(s: seq<Page>, root: PageId, lv: seq<Level>, u: nat, j: nat, t: nat)
    requires Linked(s, root, lv, NoGap) && Placed(s, lv) && Distinct(lv)
    requires 1 <= u < |lv| && j < |lv[u]| && t < |PageAt(s, lv[u][j].pid).recs|
    ensures ChildOf(PageAt(s, lv[u][j].pid).recs[t]) < |s|
    ensures ChildOf(PageAt(s, lv[u][j].pid).recs[t]) != lv[u][j].pid
  {
    var kids := Kids(lv[u][j].lo, PageAt(s, lv[u][j].pid));
    assert kids[t + 1].pid == ChildOf(PageAt(s, lv[u][j].pid).recs[t]);
    hide Linked, Expand, Kids;
    KidPlace(s, root, lv, u, j, t + 1);
    KidNotSelf(s, root, lv, u, j, t + 1);
  }

  lemma ClimbTop(cmp: Cmp, s: seq<Page>, root: PageId, lv: seq<Level>, path: seq<PageId>, k: Key,
                 ix: seq<nat>, r: nat, sep: Key, pid: PageId)
    requires Climbing(cmp, s, root, lv, path, k, ix, r, sep, pid) && r + 1 == |lv|
    ensures root < |s| && pid < |s|
  {
    hide OnPath, Loaded, Linked, Leaves, Chain, Bounds, Distinct, Placed;
  }

  // Small entries stay small.

  lemma SmallTakeUp(cmp: Cmp, s: seq<Page>, ppid: PageId, sep: Key, pid: PageId)
    requires SmallStore(s) && |sep| <= MAX_PAYLOAD && ppid < |s|
    ensures SmallStore(s[ppid := TakenUp(cmp, s[ppid], sep, pid)])
  {
    assert AllSmall(s[ppid].recs);
  }

  lemma SmallCut(s: seq<Page>, s': seq<Page>, pid: PageId, mid: nat)
    requires SmallStore(s) && InternalSplit(s, s', pid, mid) && s[pid].recs[mid].ChildRec?
    ensures SmallStore(s') && |s[pid].recs[mid].key| <= MAX_PAYLOAD
  {
    assert AllSmall(s[pid].recs);
    forall x | 0 <= x < |s'|
      ensures AllSmall(s'[x].recs)
    {
      if x < |s| {
        assert AllSmall(s[x].recs);
      }
    }
  }

  lemma SmallGrow(s: seq<Page>, s': seq<Page>, root: PageId, e: Edge)
    requires SmallStore(s) && RootGrowth(s, s', root, e) && |e.lo.key| <= MAX_PAYLOAD
    ensures SmallStore(s')
  {
    forall x | 0 <= x < |s'|
      ensures AllSmall(s'[x].recs)
    {
      if x < |s| {
        assert AllSmall(s[x].recs);
      }
    }
  }

  lemma MedianIsChild(cmp: Cmp, s: seq<Page>, root: PageId, lv: seq<Level>, path: seq<PageId>, k: Key,
                      ix: seq<nat>, r: nat, sep: Key, pid: PageId)
    requires Climbing(cmp, s, root, lv, path, k, ix, r, sep, pid) && r + 1 < |lv|
    ensures path[|lv| - 2 - r] < |s|
    ensures ChildRecs(TakenUp(cmp, s[path[|lv| - 2 - r]], sep, pid).recs)
  {
    hide Loaded, OnPath, AscentFits, PendingAt, Linked, Leaves, Chain, Bounds, Distinct, Parents;
    PendingPlace(cmp, s, root, lv, path, k, ix, r, sep, pid);
    assert PageOk(s[path[|lv| - 2 - r]], r + 1);
  }

  /** The climb starts with the right half of a split leaf. */
  lemma ClimbStart(cmp: Cmp, s: seq<Page>, root: PageId, lv: seq<Level>, path: seq<PageId>, k: Key,
                   ix: seq<nat>, left: seq<Rec>, right: seq<Rec>, s': seq<Page>)
    requires Order(cmp) && Placed(s, lv) && Distinct(lv) && 0 < |lv| && TreeSteps(cmp, lv, path, k, ix, 0)
      && right != []
    requires LeafSplit(s, s', lv[0][ix[0]].pid, left, right)
    requires Shape(cmp, s', root, lv[0 := SplitLevel(lv[0], ix[0], right[0].key, |s|)], Gap(0, ix[0] + 1))
    ensures Climbing(cmp, s', root, lv[0 := SplitLevel(lv[0], ix[0], right[0].key, |s|)], path, k, ix, 0,
      right[0].key, |s|)
    ensures AscentFits(cmp, s', path, |path| - 2, right[0].key, |s|) ==
      AscentFits(cmp, s, path, |path| - 2, right[0].key, |s|)
    ensures AscentRefills(cmp, s', path, |path| - 2, right[0].key, |s|) ==
      AscentRefills(cmp, s, path, |path| - 2, right[0].key, |s|)
  {
    hide Shape, Loaded, AscentFits, AscentRefills, Distinct, Placed, LeafSplit, OnPath, InSpan, Order, TreeSteps;
    assert |lv| == |ix| == |path| && ix[0] < |lv[0]| by { StepsAt(cmp, lv, path, k, ix); }
    var lv': seq<Level> := lv[0 := SplitLevel(lv[0], ix[0], right[0].key, |s|)];
    StartOnPath(cmp, lv, path, k, ix, lv'[0][ix[0] + 1]);
    StartFrame(cmp, s, lv, path, k, ix, left, right, s');
    AscentFrame(cmp, s, s', path, |path| - 2, right[0].key, |s|);
    RefillsFrame(cmp, s, s', path, |path| - 2, right[0].key, |s|);
  }

  lemma StepsAt(cmp: Cmp, lv: seq<Level>, path: seq<PageId>, k: Key, ix: seq<nat>)
    requires 0 < |lv| && TreeSteps(cmp, lv, path, k, ix, 0)
    ensures |lv| == |ix| == |path| && ix[0] < |lv[0]|
  {
  }

  lemma StartOnPath(cmp: Cmp, lv: seq<Level>, path: seq<PageId>, k: Key, ix: seq<nat>, e: Edge)
    requires 0 < |lv| && TreeSteps(cmp, lv, path, k, ix, 0)
    ensures OnPath(cmp, lv[0 := InsertAt(lv[0], ix[0] + 1, e)], path, k, ix, 0)
  {
    hide InSpan;
    var lv': seq<Level> := lv[0 := InsertAt(lv[0], ix[0] + 1, e)];
    forall q | 0 <= q < |lv'|
      ensures PassesAt(cmp, lv', path, k, ix, 0, q)
    {
      if q == 0 {
        assert Seen(lv', 0, Gap(0, ix[0] + 1)) == lv[0];
      }
    }
  }

  lemma StartFrame(cmp: Cmp, s: seq<Page>, lv: seq<Level>, path: seq<PageId>, k: Key, ix: seq<nat>, left: seq<Rec>,
                   right: seq<Rec>, s': seq<Page>)
    requires Placed(s, lv) && Distinct(lv) && 0 < |lv| && TreeSteps(cmp, lv, path, k, ix, 0)
    requires LeafSplit(s, s', lv[0][ix[0]].pid, left, right)
    ensures |s'| == |s| + 1
    ensures forall l :: 0 <= l <= |path| - 2 ==> PageAt(s', path[l]).recs == PageAt(s, path[l]).recs
  {
    assert Alone(lv, 0, ix[0]);
    hide Distinct, InSpan;
    forall l | 0 <= l <= |path| - 2
      ensures PageAt(s', path[l]).recs == PageAt(s, path[l]).recs
    {
      assert lv[|lv| - 1 - l][ix[|lv| - 1 - l]].pid == path[l];
    }
  }

  lemma SmallSplit(s: seq<Page>, s': seq<Page>, pid: PageId, left: seq<Rec>, right: seq<Rec>)
    requires SmallStore(s) && LeafSplit(s, s', pid, left, right) && AllSmall(left) && AllSmall(right)
    ensures SmallStore(s')
  {
    forall x | 0 <= x < |s'|
      ensures AllSmall(s'[x].recs)
    {
      if x < |s| {
        assert AllSmall(s[x].recs);
      }
    }
  }
}
