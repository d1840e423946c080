/** The rest of a put after a torn split: it keeps carrying separators up the path, and
    nothing it does touches the torn pages or what lies below them. */
module Drift {
  import opened Comparator
  import opened Pages
  import opened Levels
  import opened Contents
  import opened Search
  import opened Descent
  import opened Fitting
  import opened SplitSteps
  import opened InternalSteps
  import opened RootSteps
  import opened Height
  import opened Climb
  import opened TornSplits

  /** `x` is a page below level `u`. */
  ghost predicate Frozen(lv: seq<Level>, u: nat, x: PageId) {
    exists q, i {:trigger lv[q][i]} :: 0 <= q < u && q < |lv| && 0 <= i < |lv[q]| && lv[q][i].pid == x
  }

  /** A page further up: none of its children is a page below level `u`. */
  ghost predicate UpOk(cmp: Cmp, s: seq<Page>, lv: seq<Level>, u: nat, pid: PageId) {
    && pid + 1 < |s|
    && s[pid].kind == InternalPage && s[pid].prev == s[pid].next == INVALID_PAGE_ID && Sorted(cmp, s[pid].recs)
    && (forall t :: 0 <= t < |s[pid].recs| ==> ChildFree(s, lv, u, pid, ChildOf(s[pid].recs[t])))
  }

  ghost predicate ChildFree(s: seq<Page>, lv: seq<Level>, u: nat, pid: PageId, x: PageId) {
    x < |s| && x != pid && !Frozen(lv, u, x)
  }

  /** The state of the propagation after a torn split left store `s`: the pages of the path from
      entry `level` up have not been touched since. */
  ghost predicate Drifting(cmp: Cmp, s: seq<Page>, z: seq<Page>, lv: seq<Level>, u: nat, up: seq<PageId>,
                           path: seq<PageId>, level: int, pid: PageId, root: PageId)
  {
    && Order(cmp) && Later(s, z, lv, u, up)
    && -1 <= level < |path|
    && (forall l :: 0 <= l <= level ==> Untouched(cmp, s, z, lv, u, up, path[l]))
    && (forall l, m :: 0 <= l < m <= level ==> path[l] != path[m])
    && |s| <= pid + 1 <= |z| && root < |s|
    && !Frozen(lv, u, root) && forall x: PageId :: x + 1 >= |s| ==> !Frozen(lv, u, x)
  }

  ghost predicate Untouched(cmp: Cmp, s: seq<Page>, z: seq<Page>, lv: seq<Level>, u: nat, up: seq<PageId>,
                            pid: PageId) {
    pid in up && UpOk(cmp, s, lv, u, pid) && pid < |z| && z[pid].recs == s[pid].recs
  }

  /** What the next round needs to know about its page. */
  lemma DriftParent(cmp: Cmp, s: seq<Page>, z: seq<Page>, lv: seq<Level>, u: nat, up: seq<PageId>,
                    path: seq<PageId>, level: int, sep: Key, pid: PageId, root: PageId)
    requires Drifting(cmp, s, z, lv, u, up, path, level, pid, root) && level >= 0
    ensures var p := path[level];
      && Order(cmp) && p < |z| && z[p].kind == InternalPage && z[p].prev == z[p].next == INVALID_PAGE_ID
      && Sorted(cmp, z[p].recs)
      && (forall t :: 0 <= t < |TakenUp(cmp, z[p], sep, pid).recs| ==>
            ChildOf(TakenUp(cmp, z[p], sep, pid).recs[t]) < |z| && ChildOf(TakenUp(cmp, z[p], sep, pid).recs[t]) != p
            && !Frozen(lv, u, ChildOf(TakenUp(cmp, z[p], sep, pid).recs[t])))
  {
    hide Frozen, Sorted, Order;
    var p := path[level];
    assert Untouched(cmp, s, z, lv, u, up, p);
    assert SameLinks(s[p], z[p]);
    var recs := z[p].recs;
    var c := UpperPos(cmp, recs, sep);
    var all := TakenUp(cmp, z[p], sep, pid).recs;
    forall t | 0 <= t < |all|
      ensures ChildOf(all[t]) < |z| && ChildOf(all[t]) != p && !Frozen(lv, u, ChildOf(all[t]))
    {
      assert all[t] == if t < c then recs[t] else if t == c then ChildRec(sep, pid) else recs[t - 1];
      if t != c {
        assert ChildFree(s, lv, u, p, ChildOf(s[p].recs[if t < c then t else t - 1]));
      }
    }
  }

  lemma DriftInsert(cmp: Cmp, s: seq<Page>, z: seq<Page>, lv: seq<Level>, u: nat, up: seq<PageId>,
                    path: seq<PageId>, level: int, pid: PageId, root: PageId, p: Page, z': seq<Page>)
    requires Drifting(cmp, s, z, lv, u, up, path, level, pid, root) && level >= 0 && path[level] < |z|
    requires z' == z[path[level] := p] && p == z[path[level]].(recs := p.recs)
    ensures Later(s, z', lv, u, up)
  {
    assert Untouched(cmp, s, z, lv, u, up, path[level]);
    forall x | 0 <= x < |s|
      ensures SameLinks(s[x], z'[x])
    {
      assert SameLinks(s[x], z[x]);
    }
  }

  lemma DriftCut(cmp: Cmp, s: seq<Page>, z: seq<Page>, lv: seq<Level>, u: nat, up: seq<PageId>,
                 path: seq<PageId>, level: int, sep: Key, pid: PageId, root: PageId, zv: seq<Page>, z': seq<Page>,
                 mid: nat, left: seq<Rec>, right: seq<Rec>)
    requires Drifting(cmp, s, z, lv, u, up, path, level, pid, root) && level >= 0 && path[level] < |z|
    requires zv == z[path[level] := TakenUp(cmp, z[path[level]], sep, pid)]
    requires InternalParts(zv, z', path[level], mid, left, right)
    ensures Drifting(cmp, s, z', lv, u, up, path, level - 1, |z|, root)
  {
    hide Frozen, Sorted, Order, UpOk;
    DriftParent(cmp, s, z, lv, u, up, path, level, sep, pid, root);
    var p := path[level];
    assert Untouched(cmp, s, z, lv, u, up, p);
    forall x | 0 <= x < |s|
      ensures SameLinks(s[x], z'[x]) && (x !in up ==> z'[x].recs == s[x].recs)
    {
      assert SameLinks(s[x], z[x]);
    }
    forall q, i {:trigger lv[q][i]} | 0 <= q < u && q < |lv| && 0 <= i < |lv[q]|
      ensures lv[q][i].pid < |s| && z'[lv[q][i].pid].parent == s[lv[q][i].pid].parent
    {
      IsFrozen(lv, u, q, i);
      var x := lv[q][i].pid;
      assert x != p ==> !Moved(zv[p].recs, mid, x);
    }
    forall l | 0 <= l <= level - 1
      ensures Untouched(cmp, s, z', lv, u, up, path[l])
    {
      assert Untouched(cmp, s, z, lv, u, up, path[l]);
    }
  }

  lemma IsFrozen(lv: seq<Level>, u: nat, q: nat, i: nat)
    requires q < u && q < |lv| && i < |lv[q]|
    ensures Frozen(lv, u, lv[q][i].pid)
  {
  }

  lemma DriftGrow(cmp: Cmp, s: seq<Page>, z: seq<Page>, lv: seq<Level>, u: nat, up: seq<PageId>,
                  path: seq<PageId>, level: int, pid: PageId, root: PageId, z': seq<Page>, recs: seq<Rec>)
    requires Drifting(cmp, s, z, lv, u, up, path, level, pid, root)
    requires RootParts(z, z', root, pid, recs)
    ensures Later(s, z', lv, u, up) && RootOf(z', |z|, root)
  {
    hide Frozen, Order;
    forall x | 0 <= x < |s|
      ensures SameLinks(s[x], z'[x]) && (x !in up ==> z'[x].recs == s[x].recs)
    {
      assert SameLinks(s[x], z[x]);
    }
    forall q, i {:trigger lv[q][i]} | 0 <= q < u && q < |lv| && 0 <= i < |lv[q]|
      ensures lv[q][i].pid < |s| && z'[lv[q][i].pid].parent == s[lv[q][i].pid].parent
    {
      IsFrozen(lv, u, q, i);
    }
  }

  // ---------------------------------------------------------------- the start

  /** A page of a level above `u`, whose records the torn split left alone. */
  lemma UpOkAt(cmp: Cmp, sv: seq<Page>, root: PageId, lv: seq<Level>, u: nat, q: nat, i: nat, s: seq<Page>)
    requires Shape(cmp, sv, root, lv, NoGap) && u < q < |lv| && i < |lv[q]|
    requires lv[q][i].pid < |sv| && |s| == |sv| + 1
    requires SameLinks(sv[lv[q][i].pid], s[lv[q][i].pid]) && s[lv[q][i].pid].recs == sv[lv[q][i].pid].recs
    ensures UpOk(cmp, s, lv, u, lv[q][i].pid)
  {
    hide Leaves, Chain, Bounds, Parents, Linked, ZeroFirst, Distinct, Sorted;
    var pid := lv[q][i].pid;
    assert PageOk(sv[pid], q);
    PageSorted(cmp, sv, root, lv, NoGap, q, i);
    forall t | 0 <= t < |s[pid].recs|
      ensures ChildFree(s, lv, u, pid, ChildOf(s[pid].recs[t]))
    {
      ChildPlace(cmp, sv, root, lv, q, i, t + 1);
      NotBelow(lv, u, q - 1, Offset(sv, lv[q], i) + (t + 1));
    }
  }

  lemma NotBelow(lv: seq<Level>, u: nat, q: nat, i: nat)
    requires u <= q < |lv| && i < |lv[q]| && Alone(lv, q, i)
    ensures !Frozen(lv, u, lv[q][i].pid)
  {
  }

  lemma FrozenOld(cmp: Cmp, s: seq<Page>, root: PageId, lv: seq<Level>, u: nat)
    requires Shape(cmp, s, root, lv, NoGap)
    ensures forall x: PageId :: x >= |s| ==> !Frozen(lv, u, x)
  {
    PlacedAll(cmp, s, root, lv);
  }

  /** The pages of the path above level `u` are ready to take up pages. */
  lemma DriftStart(cmp: Cmp, sv: seq<Page>, root: PageId, lv: seq<Level>, u: nat, path: seq<PageId>, ix: seq<nat>,
                   s: seq<Page>)
    requires Order(cmp) && Shape(cmp, sv, root, lv, NoGap) && u < |lv| == |path| == |ix|
    requires forall q :: u <= q < |lv| ==> OnPlace(lv, path, ix, q)
    requires |s| == |sv| + 1
    requires forall l :: 0 <= l <= |lv| - 2 - u ==> SameUp(sv, s, path[l])
    ensures var level := |lv| - 2 - u;
      && Drifting(cmp, s, s, lv, u, path[..level + 1], path, level, |sv|, root)
      && |sv| !in path[..level + 1] && path[level + 1] !in path[..level + 1]
      && forall i :: 0 <= i < |lv[0]| && u == 0 ==> lv[0][i].pid !in path[..level + 1]
  {
    hide Shape, Frozen, UpOk, Order, Later, OnPlace, SameUp, Untouched;
    var level := |lv| - 2 - u;
    var up := path[..level + 1];
    forall l | 0 <= l <= level
      ensures Untouched(cmp, s, s, lv, u, up, path[l])
    {
      StartPage(cmp, sv, root, lv, u, path, ix, s, l);
    }
    FrozenOld(cmp, sv, root, lv, u);
    PathDistinct(cmp, sv, root, lv, u, path, ix);
    RootFree(cmp, sv, root, lv, u);
    LaterSelf(cmp, sv, root, lv, u, s, up);
  }

  lemma StartPage(cmp: Cmp, sv: seq<Page>, root: PageId, lv: seq<Level>, u: nat, path: seq<PageId>, ix: seq<nat>,
                  s: seq<Page>, l: nat)
    requires Shape(cmp, sv, root, lv, NoGap) && u < |lv| == |path| == |ix| && l <= |lv| - 2 - u
    requires OnPlace(lv, path, ix, |lv| - 1 - l) && |s| == |sv| + 1 && SameUp(sv, s, path[l])
    ensures Untouched(cmp, s, s, lv, u, path[..|lv| - 1 - u], path[l])
  {
    hide Shape, UpOk;
    var q := |lv| - 1 - l;
    UpOkAt(cmp, sv, root, lv, u, q, ix[q], s);
    assert path[..|lv| - 1 - u][l] == path[l];
    UpOkRange(cmp, s, lv, u, path[l]);
  }

  ghost predicate OnPlace(lv: seq<Level>, path: seq<PageId>, ix: seq<nat>, q: nat)
    requires |lv| == |path| == |ix| && q < |lv|
  {
    ix[q] < |lv[q]| && lv[q][ix[q]].pid == path[|lv| - 1 - q]
  }

  ghost predicate SameUp(sv: seq<Page>, s: seq<Page>, x: PageId) {
    x < |sv| && x < |s| && SameLinks(sv[x], s[x]) && s[x].recs == sv[x].recs
  }

  lemma UpOkRange(cmp: Cmp, s: seq<Page>, lv: seq<Level>, u: nat, pid: PageId)
    requires UpOk(cmp, s, lv, u, pid)
    ensures pid + 1 < |s|
  {
  }

  lemma PlacedAll(cmp: Cmp, s: seq<Page>, root: PageId, lv: seq<Level>)
    requires Shape(cmp, s, root, lv, NoGap)
    ensures Placed(s, lv) && Distinct(lv) && |lv| > 0
    ensures forall q, i {:trigger lv[q][i]} :: 0 <= q < |lv| && 0 <= i < |lv[q]| ==> lv[q][i].pid < |s|
  {
    hide Leaves, Chain, Bounds, Parents, ZeroFirst;
  }

  lemma PathDistinct(cmp: Cmp, s: seq<Page>, root: PageId, lv: seq<Level>, u: nat, path: seq<PageId>, ix: seq<nat>)
    requires Shape(cmp, s, root, lv, NoGap) && u < |lv| == |path| == |ix|
    requires forall q :: u <= q < |lv| ==> OnPlace(lv, path, ix, q)
    ensures var level := |lv| - 2 - u;
      && (forall l, m :: 0 <= l < m <= level + 1 ==> path[l] != path[m])
      && path[level + 1] !in path[..level + 1]
      && (forall l :: 0 <= l <= level ==> path[l] < |s|)
      && |s| !in path[..level + 1]
      && forall i :: 0 <= i < |lv[0]| && u == 0 ==> lv[0][i].pid !in path[..level + 1]
  {
    PlacedAll(cmp, s, root, lv);
    hide Shape, Placed;
    var level := |lv| - 2 - u;
    forall l, m | 0 <= l < m <= level + 1
      ensures path[l] != path[m]
    {
      assert OnPlace(lv, path, ix, |lv| - 1 - l) && OnPlace(lv, path, ix, |lv| - 1 - m);
      assert Alone(lv, |lv| - 1 - l, ix[|lv| - 1 - l]);
    }
    forall l | 0 <= l <= level
      ensures path[l] < |s| && forall i :: 0 <= i < |lv[0]| && u == 0 ==> lv[0][i].pid != path[l]
    {
      assert OnPlace(lv, path, ix, |lv| - 1 - l);
      assert Alone(lv, |lv| - 1 - l, ix[|lv| - 1 - l]);
    }
  }

  lemma RootFree(cmp: Cmp, s: seq<Page>, root: PageId, lv: seq<Level>, u: nat)
    requires Shape(cmp, s, root, lv, NoGap) && u < |lv|
    ensures root < |s| && !Frozen(lv, u, root)
  {
    PlacedAll(cmp, s, root, lv);
    var top := |lv| - 1;
    assert lv[top] == [Edge(NegInf, root)];
    hide Shape, Placed;
    assert lv[top][0].pid == root;
    assert Alone(lv, top, 0);
    NotBelow(lv, u, top, 0);
  }

  lemma LaterSelf(cmp: Cmp, sv: seq<Page>, root: PageId, lv: seq<Level>, u: nat, s: seq<Page>, up: seq<PageId>)
    requires Shape(cmp, sv, root, lv, NoGap) && |s| == |sv| + 1
    ensures Later(s, s, lv, u, up)
  {
    PlacedAll(cmp, sv, root, lv);
  }

  /** A new root that could not take its only record, or has no room for it, is no root of a tree. */
  lemma RootForces(cmp: Cmp, z: seq<Page>, newRoot: PageId, lvz: seq<Level>, r: Rec)
    requires TreeOk(cmp, z, newRoot, lvz) && PageAt(z, newRoot).kind == InternalPage
    requires Shortened(PageAt(z, newRoot).recs, [r])
    ensures Fits([r])
  {
    hide Leaves, Chain, Bounds, Parents, ZeroFirst, Distinct, Order, Fits;
    var top := |lvz| - 1;
    assert lvz[top] == [Edge(NegInf, newRoot)];
    assert lvz[top][0].pid == newRoot;
    assert PageOk(z[newRoot], top);
    assert |PageAt(z, lvz[top][0].pid).recs| > 0;
  }

  // ---------------------------------------------------------------- from a climb to a drift

  /** The page on the path was cut, and its halves did not fit. */
  ghost predicate CutTorn(cmp: Cmp, sv: seq<Page>, root: PageId, lv: seq<Level>, u: nat, j: nat, s: seq<Page>,
                          left: seq<Rec>, right: seq<Rec>, up: seq<PageId>) {
    && CutInternal(cmp, sv, root, lv, u, j, s, left, right)
    && !InternalHalvesFit(sv[lv[u][j].pid].recs) && lv[u][j].pid !in up && |sv| !in up
  }

  lemma TornStart(cmp: Cmp, s: seq<Page>, root: PageId, lv: seq<Level>, path: seq<PageId>, k: Key, ix: seq<nat>, r: nat,
                  sep: Key, pid: PageId, sv: seq<Page>, s': seq<Page>)
    requires Climbing(cmp, s, root, lv, path, k, ix, r, sep, pid) && r + 1 < |lv|
    requires path[|lv| - 2 - r] < |s|
    requires sv == s[path[|lv| - 2 - r] := TakenUp(cmp, s[path[|lv| - 2 - r]], sep, pid)]
    requires var all := sv[path[|lv| - 2 - r]].recs;
      && !InternalHalvesFit(all) && |all| / 2 < |all|
      && InternalParts(sv, s', path[|lv| - 2 - r], |all| / 2, Kept(all[..|all| / 2]), Kept(all[|all| / 2 + 1..]))
    ensures var all := sv[path[|lv| - 2 - r]].recs; var level := |lv| - 2 - r;
      && |sv| == |s| && ix[r + 1] < |lv[r + 1]|
      && CutTorn(cmp, sv, root, lv, r + 1, ix[r + 1], s', Kept(all[..|all| / 2]), Kept(all[|all| / 2 + 1..]),
        path[..level])
      && Drifting(cmp, s', s', lv, r + 1, path[..level], path, level - 1, |s|, root)
  {
    hide Shape, Loaded, OnPath, TakenUp, Kept, Drifting, InternalHalvesFit;
    var level := |lv| - 2 - r;
    var ppid := path[level];
    var all := sv[ppid].recs;
    TakeUpShape(cmp, s, root, lv, path, k, ix, r, sep, pid, sv);
    OnPlaces(cmp, s, root, lv, path, k, ix, r, sep, pid);
    KeptFacts(all[..|all| / 2]);
    KeptFacts(all[|all| / 2 + 1..]);
    assert OnPlace(lv, path, ix, r + 1);
    PathDistinct(cmp, sv, root, lv, r + 1, path, ix);
    forall l | 0 <= l <= |lv| - 2 - (r + 1)
      ensures SameUp(sv, s', path[l])
    {
    }
    DriftStart(cmp, sv, root, lv, r + 1, path, ix, s');
  }

  lemma OnPlaces(cmp: Cmp, s: seq<Page>, root: PageId, lv: seq<Level>, path: seq<PageId>, k: Key, ix: seq<nat>,
                 r: nat, sep: Key, pid: PageId)
    requires Climbing(cmp, s, root, lv, path, k, ix, r, sep, pid)
    ensures forall q :: r <= q < |lv| ==> OnPlace(lv, path, ix, q)
  {
    hide Shape, Loaded;
    forall q | r <= q < |lv|
      ensures OnPlace(lv, path, ix, q)
    {
      assert PassesAt(cmp, lv, path, k, ix, r, q);
    }
  }

  /** After a torn leaf split. */
  lemma TornLeafStart(cmp: Cmp, s: seq<Page>, root: PageId, lv: seq<Level>, path: seq<PageId>, k: Key, ix: seq<nat>,
                      s': seq<Page>, left: seq<Rec>, right: seq<Rec>)
    requires Order(cmp) && Shape(cmp, s, root, lv, NoGap) && 0 < |lv| && TreeSteps(cmp, lv, path, k, ix, 0)
    requires LeafSplit(s, s', lv[0][ix[0]].pid, left, right)
    ensures 0 < |path|
    ensures var up := path[..|path| - 1];
      && Drifting(cmp, s', s', lv, 0, up, path, |path| - 2, |s|, root)
      && |s| !in up && forall j :: 0 <= j < |lv[0]| ==> lv[0][j].pid !in up
  {
    hide Drifting, InSpan, Order;
    StepPlaces(cmp, lv, path, k, ix);
    PlacedAll(cmp, s, root, lv);
    LevelFacts(cmp, s, root, lv, NoGap, 0);
    assert OnPlace(lv, path, ix, 0);
    NextLeaf(s, lv[0], ix[0]);
    hide Shape, TreeSteps, Placed, Chain;
    PathDistinct(cmp, s, root, lv, 0, path, ix);
    forall l | 0 <= l <= |lv| - 2 - 0
      ensures SameUp(s, s', path[l])
    {
      UpperApart(s, s', lv, path, ix, left, right, l);
    }
    DriftStart(cmp, s, root, lv, 0, path, ix, s');
  }

  lemma StepPlaces(cmp: Cmp, lv: seq<Level>, path: seq<PageId>, k: Key, ix: seq<nat>)
    requires TreeSteps(cmp, lv, path, k, ix, 0)
    ensures |lv| == |path| == |ix|
    ensures forall q :: 0 <= q < |lv| ==> OnPlace(lv, path, ix, q)
  {
    hide InSpan;
  }

  lemma UpperApart(s: seq<Page>, s': seq<Page>, lv: seq<Level>, path: seq<PageId>, ix: seq<nat>, left: seq<Rec>,
                   right: seq<Rec>, l: nat)
    requires 0 < |lv| == |path| == |ix| && l + 2 <= |lv| && Distinct(lv)
    requires OnPlace(lv, path, ix, |lv| - 1 - l) && path[l] < |s| && ix[0] < |lv[0]|
    requires LeafSplit(s, s', lv[0][ix[0]].pid, left, right)
    requires s[lv[0][ix[0]].pid].next == if ix[0] + 1 < |lv[0]| then lv[0][ix[0] + 1].pid else INVALID_PAGE_ID
    ensures SameUp(s, s', path[l])
  {
    var q := |lv| - 1 - l;
    assert Alone(lv, q, ix[q]);
    assert lv[0][ix[0]].pid != path[l];
    assert ix[0] + 1 < |lv[0]| ==> lv[0][ix[0] + 1].pid != path[l];
  }

  // ---------------------------------------------------------------- how it ends

  /** After a torn internal split there is no tree at the end. */
  lemma CutNoTree(cmp: Cmp, sv: seq<Page>, root: PageId, lv: seq<Level>, u: nat, j: nat, s: seq<Page>, left: seq<Rec>,
                  right: seq<Rec>, z: seq<Page>, up: seq<PageId>, newRoot: PageId)
    requires CutTorn(cmp, sv, root, lv, u, j, s, left, right, up) && Later(s, z, lv, u, up) && RootOf(z, newRoot, root)
    ensures forall lvz :: !TreeOk(cmp, z, newRoot, lvz)
  {
    hide CutInternal, Later, RootOf, TreeOk, InternalHalvesFit;
    forall lvz
      ensures !TreeOk(cmp, z, newRoot, lvz)
    {
      if TreeOk(cmp, z, newRoot, lvz) {
        CutForces(cmp, sv, root, lv, u, j, s, left, right, z, up, newRoot, lvz);
        assert false;
      }
    }
  }

  lemma RootNoTree(cmp: Cmp, s: seq<Page>, z: seq<Page>, root: PageId, pid: PageId, r: Rec)
    requires RootParts(s, z, root, pid, Kept([r])) && !Fits([r])
    ensures forall lvz :: !TreeOk(cmp, z, |s|, lvz)
  {
    hide TreeOk, Kept, Fits;
    KeptFacts([r]);
    forall lvz
      ensures !TreeOk(cmp, z, |s|, lvz)
    {
      if TreeOk(cmp, z, |s|, lvz) {
        RootForces(cmp, z, |s|, lvz, r);
        assert false;
      }
    }
  }

  /** After a torn leaf split the result is no tree with the right entries. */
  lemma LeafNotIntact(cmp: Cmp, s0: seq<Page>, root: PageId, lv: seq<Level>, i: nat, all: seq<Rec>, s: seq<Page>,
                      left: seq<Rec>, right: seq<Rec>, z: seq<Page>, up: seq<PageId>, newRoot: PageId)
    requires |lv| > 0 && i < |lv[0]| && LeafCut(cmp, s0, root, lv, i, all, s, left, right) && Later(s, z, lv, 0, up)
    requires |s0| !in up && forall j :: 0 <= j < |lv[0]| ==> lv[0][j].pid !in up
    requires RootOf(z, newRoot, root) && !LeafHalvesFit(all)
    ensures !Intact(cmp, z, newRoot, ToMap(Wanted(s0, lv[0], i, all)))
  {
    hide LeafCut, Later, RootOf, TreeOk, LeafHalvesFit, ToMap, Records, Wanted;
    var m := ToMap(Wanted(s0, lv[0], i, all));
    if Intact(cmp, z, newRoot, m) {
      var lvz :| TreeOk(cmp, z, newRoot, lvz) && 0 < |lvz| && ToMap(Records(z, lvz[0])) == m;
      LeafCutForces(cmp, s0, root, lv, i, all, s, left, right, z, up, newRoot, lvz);
      assert false;
    }
  }
}
