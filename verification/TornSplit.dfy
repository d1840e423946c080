/** Splits that halve the records by number although the halves do not fit their pages
    (src/btree.c:540-584, 703-754): page_alloc_slot's refusals go unnoticed, and whatever the
    rest of the put does, the result is no tree with the key added. */
module TornSplits {
  import opened Comparator
  import opened Pages
  import opened Levels
  import opened Frames
  import opened Contents
  import opened Search
  import opened Fitting
  import opened SplitSteps
  import opened InternalSteps
  import opened Height
  import opened LeafPut

  /** The store is a well-formed tree with exactly these entries. */
  ghost predicate Intact(cmp: Cmp, s: seq<Page>, root: PageId, m: map<Key, Value>) {
    exists lv :: TreeOk(cmp, s, root, lv) && 0 < |lv| && ToMap(Records(s, lv[0])) == m
  }

  // ---------------------------------------------------------------- parents in a tree

  ghost predicate InLevel(lv: seq<Level>, q: nat, pid: PageId) {
    q < |lv| && exists i: nat :: i < |lv[q]| && lv[q][i].pid == pid
  }

  /** A page's parent field leads to a page of the level above that has it as a child. */
  lemma ParentIn(cmp: Cmp, s: seq<Page>, root: PageId, lv: seq<Level>, q: nat, pid: PageId) returns (c: nat)
    requires TreeOk(cmp, s, root, lv) && InLevel(lv, q, pid) && PageAt(s, pid).parent != INVALID_PAGE_ID
    ensures InLevel(lv, q + 1, PageAt(s, pid).parent)
    ensures var p := PageAt(s, PageAt(s, pid).parent); c <= |p.recs| && ChildAt(p, c) == pid
  {
    hide Leaves, Chain, ZeroFirst, Distinct, Room, Filled, Order, Bounds;
    var i: nat :| i < |lv[q]| && lv[q][i].pid == pid;
    assert lv[|lv| - 1] == [Edge(NegInf, root)];
    if q == |lv| - 1 {
      assert false;
    } else {
      assert Expand(s, lv[q + 1]) == Seen(lv, q, NoGap);
      var j, k := ExpandLocate(s, lv[q + 1], i);
      assert ParentOf(s, lv[q + 1][j].pid);
      hide Expand, Placed, Linked;
      ChildNames(s, lv[q + 1][j], k, pid);
      c := k;
    }
  }

  lemma ChildNames(s: seq<Page>, e: Edge, c: nat, pid: PageId)
    requires ParentOf(s, e.pid) && c <= |PageAt(s, e.pid).recs| && Kids(e.lo, PageAt(s, e.pid))[c].pid == pid
    ensures PageAt(s, pid).parent == e.pid && ChildAt(PageAt(s, e.pid), c) == pid
  {
  }

  /** Some page of the level below names the page as its parent. */
  ghost predicate HasNamer(s: seq<Page>, below: Level, pid: PageId) {
    pid != INVALID_PAGE_ID && exists i: nat :: NamerAt(s, below, i, pid)
  }

  ghost predicate NamerAt(s: seq<Page>, es: Level, i: nat, pid: PageId) {
    i < |es| && PageAt(s, es[i].pid).parent == pid
  }

  ghost predicate Named(s: seq<Page>, lv: seq<Level>, r: nat) {
    forall q, j {:trigger lv[q][j]} :: 1 <= q <= r && q < |lv| && 0 <= j < |lv[q]| ==>
      HasNamer(s, lv[q - 1], lv[q][j].pid)
  }

  ghost predicate LevelIn(lv: seq<Level>, q: nat, other: seq<Level>)
    requires q < |lv|
  {
    forall i: nat {:trigger lv[q][i]} :: i < |lv[q]| ==> InLevel(other, q, lv[q][i].pid)
  }

  /** Pages that lead up to each other by their parent fields are in a tree if their leaves are. */
  lemma {:induction false} Rise(cmp: Cmp, s: seq<Page>, root: PageId, lvz: seq<Level>, lv: seq<Level>, r: nat, q: nat)
    requires TreeOk(cmp, s, root, lvz) && q <= r < |lv| && Named(s, lv, r) && LevelIn(lv, 0, lvz)
    ensures LevelIn(lv, q, lvz)
  {
    hide TreeOk;
    if q > 0 {
      Rise(cmp, s, root, lvz, lv, r, q - 1);
      forall j: nat {:trigger lv[q][j]} | j < |lv[q]|
        ensures InLevel(lvz, q, lv[q][j].pid)
      {
        assert HasNamer(s, lv[q - 1], lv[q][j].pid);
        var i: nat :| NamerAt(s, lv[q - 1], i, lv[q][j].pid);
        assert InLevel(lvz, q - 1, lv[q - 1][i].pid);
        var c := ParentIn(cmp, s, root, lvz, q - 1, lv[q - 1][i].pid);
      }
    }
  }

  function ChildrenOf(p: Page): (r: seq<PageId>)
    ensures |r| == |p.recs| + 1
  {
    seq(|p.recs| + 1, c requires 0 <= c <= |p.recs| => ChildAt(p, c))
  }

  ghost function Members(xs: seq<PageId>): set<PageId> {
    if xs == [] then {} else Members(xs[..|xs| - 1]) + {xs[|xs| - 1]}
  }

  lemma {:induction false} MembersFacts(xs: seq<PageId>)
    ensures |Members(xs)| <= |xs|
    ensures forall x :: x in Members(xs) <==> x in xs
  {
    if xs != [] {
      var n := |xs| - 1;
      MembersFacts(xs[..n]);
      assert xs == xs[..n] + [xs[n]];
    }
  }

  ghost predicate AllName(s: seq<Page>, kids: seq<PageId>, pid: PageId) {
    forall t :: 0 <= t < |kids| ==> PageAt(s, kids[t]).parent == pid
  }

  ghost predicate Different(xs: seq<PageId>) {
    forall i, j :: 0 <= i < |xs| && 0 <= j < |xs| && i != j ==> xs[i] != xs[j]
  }

  /** A page that pages of the tree name as their parent is in the tree, holds something that
      fits, and has at least as many records as it takes to keep all of them. */
  lemma KidsForced(cmp: Cmp, s: seq<Page>, root: PageId, lv: seq<Level>, q: nat, pid: PageId, kids: seq<PageId>)
    requires TreeOk(cmp, s, root, lv) && pid != INVALID_PAGE_ID && kids != [] && Different(kids)
      && AllName(s, kids, pid)
    requires forall t :: 0 <= t < |kids| ==> InLevel(lv, q, kids[t])
    ensures |kids| <= |PageAt(s, pid).recs| + 1
    ensures PageAt(s, pid).recs != [] && Fits(PageAt(s, pid).recs)
  {
    hide TreeOk, InLevel, Fits;
    var p := PageAt(s, pid);
    var pool := ChildrenOf(p);
    forall t | 0 <= t < |kids|
      ensures kids[t] in pool && InLevel(lv, q + 1, pid)
    {
      var c := ParentIn(cmp, s, root, lv, q, kids[t]);
      assert pool[c] == kids[t];
    }
    MembersFacts(pool);
    DistinctInSet(kids, Members(pool));
    assert InLevel(lv, q + 1, pid) by { assert kids[0] in pool; }
    UpperLoaded(cmp, s, root, lv, q + 1, pid);
  }

  lemma UpperLoaded(cmp: Cmp, s: seq<Page>, root: PageId, lv: seq<Level>, q: nat, pid: PageId)
    requires TreeOk(cmp, s, root, lv) && q > 0 && InLevel(lv, q, pid)
    ensures PageAt(s, pid).recs != [] && Fits(PageAt(s, pid).recs)
  {
    hide Shape, Order, Fits;
    var i: nat :| i < |lv[q]| && lv[q][i].pid == pid;
    assert |PageAt(s, lv[q][i].pid).recs| > 0;
  }

  // ---------------------------------------------------------------- the leaf chain

  /** Leaves chained from the tree's first leaf are the tree's leaves. */
  lemma SameChain(cmp: Cmp, s: seq<Page>, root: PageId, lv: seq<Level>, es: Level)
    requires TreeOk(cmp, s, root, lv) && |lv| > 0 && |lv[0]| > 0 && Chain(s, es) && es != []
    requires es[0].pid == lv[0][0].pid && forall i :: 0 < i < |es| ==> es[i].pid != INVALID_PAGE_ID
    ensures |es| == |lv[0]| && forall i :: 0 <= i < |es| ==> es[i].pid == lv[0][i].pid
  {
    LevelFacts(cmp, s, root, lv, NoGap, 0);
    assert Chain(s, lv[0]);
    hide TreeOk;
    ChainsAgree(s, es, lv[0]);
  }

  lemma ChainsAgree(s: seq<Page>, es: Level, fs: Level)
    requires Chain(s, es) && Chain(s, fs) && es != [] && fs != [] && es[0].pid == fs[0].pid
    requires forall i :: 0 < i < |es| ==> es[i].pid != INVALID_PAGE_ID
    requires forall i :: 0 < i < |fs| ==> fs[i].pid != INVALID_PAGE_ID
    ensures |es| == |fs| && forall i :: 0 <= i < |es| ==> es[i].pid == fs[i].pid
  {
    forall i: nat
      ensures (i < |es| <==> i < |fs|) && (i < |es| ==> es[i].pid == fs[i].pid)
    {
      ChainStep(s, es, fs, i);
    }
    ChainStep(s, es, fs, |es|);
    ChainStep(s, es, fs, |fs|);
    ChainStep(s, es, fs, |es| - 1);
    ChainStep(s, es, fs, |fs| - 1);
  }

  lemma {:induction false} ChainStep(s: seq<Page>, es: Level, fs: Level, i: nat)
    requires Chain(s, es) && Chain(s, fs) && es != [] && fs != [] && es[0].pid == fs[0].pid
    requires forall i :: 0 < i < |es| ==> es[i].pid != INVALID_PAGE_ID
    requires forall i :: 0 < i < |fs| ==> fs[i].pid != INVALID_PAGE_ID
    ensures (i < |es| <==> i < |fs|) && (i < |es| ==> es[i].pid == fs[i].pid)
  {
    if i > 0 {
      ChainStep(s, es, fs, i - 1);
      if i - 1 < |es| {
        assert LinkAt(s, es, i - 1) && LinkAt(s, fs, i - 1);
      }
    }
  }

  // ---------------------------------------------------------------- the leftmost leaf

  /** First children, from the top of the levels down to a leaf. */
  ghost predicate Spine(s: seq<Page>, lv: seq<Level>) {
    |lv| > 0 && forall q :: 0 <= q < |lv| ==> SpineAt(s, lv, q)
  }

  ghost predicate SpineAt(s: seq<Page>, lv: seq<Level>, q: nat)
    requires q < |lv|
  {
    && |lv[q]| > 0
    && (PageAt(s, lv[q][0].pid).kind == LeafPage <==> q == 0)
    && (q > 0 ==> |lv[q - 1]| > 0 && PageAt(s, lv[q][0].pid).firstChild == lv[q - 1][0].pid)
  }

  lemma TreeSpine(cmp: Cmp, s: seq<Page>, root: PageId, lv: seq<Level>)
    requires Shape(cmp, s, root, lv, NoGap)
    ensures Spine(s, lv)
  {
    forall q | 0 <= q < |lv|
      ensures SpineAt(s, lv, q)
    {
      LevelFacts(cmp, s, root, lv, NoGap, q);
      assert PageOk(s[lv[q][0].pid], q);
      if q > 0 {
        assert Expand(s, lv[q]) == Seen(lv, q - 1, NoGap);
        LevelFacts(cmp, s, root, lv, NoGap, q - 1);
        FirstOfLevel(s, lv[q]);
      }
    }
  }

  lemma FirstOfLevel(s: seq<Page>, es: Level)
    requires es != []
    ensures |Expand(s, es)| > 0 && Expand(s, es)[0].pid == PageAt(s, es[0].pid).firstChild
  {
    ExpandAt(s, es, 0, 0);
    assert Offset(s, es, 0) == 0 by { assert KidLists(s, es[..0]) == []; }
  }

  lemma {:induction false} SameSpine(s: seq<Page>, lv: seq<Level>, lv': seq<Level>, q: nat, p: nat)
    requires Spine(s, lv) && Spine(s, lv') && q < |lv| && p < |lv'| && |lv[q]| > 0 && |lv'[p]| > 0
    requires lv[q][0].pid == lv'[p][0].pid
    ensures |lv[0]| > 0 && |lv'[0]| > 0 && lv[0][0].pid == lv'[0][0].pid
  {
    assert SpineAt(s, lv, q) && SpineAt(s, lv', p);
    if q > 0 {
      SameSpine(s, lv, lv', q - 1, p - 1);
    }
  }

  /** The root is still `root`, or a page put above it. */
  ghost predicate RootOf(s: seq<Page>, newRoot: PageId, root: PageId) {
    newRoot == root || (PageAt(s, newRoot).kind == InternalPage && PageAt(s, newRoot).firstChild == root)
  }

  lemma SameFirstLeaf(cmp: Cmp, s: seq<Page>, newRoot: PageId, lvz: seq<Level>, lv: seq<Level>, root: PageId)
    requires TreeOk(cmp, s, newRoot, lvz) && Spine(s, lv) && RootOf(s, newRoot, root)
    requires |lv[|lv| - 1]| > 0 && lv[|lv| - 1][0].pid == root
    ensures |lvz| > 0 && |lvz[0]| > 0 && |lv[0]| > 0 && lvz[0][0].pid == lv[0][0].pid
  {
    TreeSpine(cmp, s, newRoot, lvz);
    assert lvz[|lvz| - 1] == [Edge(NegInf, newRoot)];
    hide TreeOk;
    var top := |lvz| - 1;
    assert SpineAt(s, lvz, top) && SpineAt(s, lv, |lv| - 1);
    if newRoot == root {
      SameSpine(s, lvz, lv, top, |lv| - 1);
    } else {
      assert top > 0;
      SameSpine(s, lvz, lv, top - 1, |lv| - 1);
    }
  }

  // ---------------------------------------------------------------- what the rest of a put leaves alone

  predicate SameLinks(p: Page, q: Page) {
    p.kind == q.kind && p.prev == q.prev && p.next == q.next && p.firstChild == q.firstChild
  }

  ghost predicate AllLinks(s: seq<Page>, z: seq<Page>) {
    |s| <= |z| && forall x :: 0 <= x < |s| ==> SameLinks(s[x], z[x])
  }

  /** From `s` on, only pages `up` changed their records, and no page below level `u` its parent. */
  ghost predicate Later(s: seq<Page>, z: seq<Page>, lv: seq<Level>, u: nat, up: seq<PageId>) {
    && AllLinks(s, z)
    && (forall x {:trigger z[x]} :: 0 <= x < |s| && x !in up ==> z[x].recs == s[x].recs)
    && (forall q, i {:trigger lv[q][i]} :: 0 <= q < u && q < |lv| && 0 <= i < |lv[q]| ==>
          lv[q][i].pid < |s| && z[lv[q][i].pid].parent == s[lv[q][i].pid].parent)
  }

  lemma ChainLinks(s: seq<Page>, z: seq<Page>, es: Level)
    requires Chain(s, es) && AllLinks(s, z) && forall i :: 0 <= i < |es| ==> es[i].pid < |s|
    ensures Chain(z, es)
  {
    forall i | 0 <= i < |es|
      ensures SameLinks(PageAt(s, es[i].pid), PageAt(z, es[i].pid))
    {
      assert es[i].pid < |s|;
    }
    ChainFrame(s, z, es);
  }

  lemma SpineLinks(s: seq<Page>, z: seq<Page>, lv: seq<Level>)
    requires Spine(s, lv) && forall q {:trigger lv[q]} :: 0 <= q < |lv| && |lv[q]| > 0 ==> SameDown(s, z, lv[q][0].pid)
    ensures Spine(z, lv)
  {
    forall q | 0 <= q < |lv|
      ensures SpineAt(z, lv, q)
    {
      assert SpineAt(s, lv, q);
      assert SameDown(s, z, lv[q][0].pid);
    }
  }

  /** The page is of the same kind and, unless it is a leaf, has the same first child. */
  ghost predicate SameDown(s: seq<Page>, z: seq<Page>, x: PageId) {
    var p, q := PageAt(s, x), PageAt(z, x);
    p.kind == q.kind && (p.kind == InternalPage ==> p.firstChild == q.firstChild)
  }

  lemma LinksDown(s: seq<Page>, z: seq<Page>, lv: seq<Level>)
    requires AllLinks(s, z) && Placed(s, lv)
    ensures forall q {:trigger lv[q]} :: 0 <= q < |lv| && |lv[q]| > 0 ==> SameDown(s, z, lv[q][0].pid)
  {
    forall q {:trigger lv[q]} | 0 <= q < |lv| && |lv[q]| > 0
      ensures SameDown(s, z, lv[q][0].pid)
    {
      assert lv[q][0].pid < |s|;
    }
  }

  // ---------------------------------------------------------------- a torn internal page

  /** Page `j` of level `u`, with one record too many, was cut in the middle, whether or not
      its halves fit: `sv` is a tree but for the page's size, `s` the store after the cut. */
  ghost predicate CutInternal(cmp: Cmp, sv: seq<Page>, root: PageId, lv: seq<Level>, u: nat, j: nat, s: seq<Page>,
                              left: seq<Rec>, right: seq<Rec>) {
    && Shape(cmp, sv, root, lv, NoGap) && 1 <= u < |lv| && j < |lv[u]| && lv[u][j].pid < |sv|
    && var all := sv[lv[u][j].pid].recs;
    && |all| / 2 < |all|
    && InternalParts(sv, s, lv[u][j].pid, |all| / 2, left, right)
    && Shortened(left, all[..|all| / 2]) && Shortened(right, all[|all| / 2 + 1..])
  }

  /** Child `c` of the page, as a place in the level below. */
  lemma ChildPlace(cmp: Cmp, s: seq<Page>, root: PageId, lv: seq<Level>, u: nat, j: nat, c: nat)
    requires Shape(cmp, s, root, lv, NoGap) && 1 <= u < |lv| && j < |lv[u]| && c <= |PageAt(s, lv[u][j].pid).recs|
    ensures var o := Offset(s, lv[u], j) + c;
      && o < |lv[u - 1]| && lv[u - 1][o].pid == ChildAt(PageAt(s, lv[u][j].pid), c)
      && lv[u - 1][o].pid < |s| && PageAt(s, lv[u - 1][o].pid).parent == lv[u][j].pid
      && Alone(lv, u - 1, o) && lv[u - 1][o].pid != lv[u][j].pid
  {
    hide Leaves, Chain, Bounds, ZeroFirst;
    KidPlace(s, root, lv, u, j, c);
    assert ParentOf(s, lv[u][j].pid);
    var o := Offset(s, lv[u], j) + c;
    assert lv[u - 1][o].pid < |s|;
    assert Alone(lv, u - 1, o);
    assert lv[u - 1][o].pid != lv[u][j].pid;
    hide Linked, Placed, Distinct, Expand, Alone;
    ChildNames(s, lv[u][j], c, lv[u - 1][o].pid);
  }

  /** The pages that the cut moved are children of the page, from the middle on. */
  lemma MovedPlace(cmp: Cmp, s: seq<Page>, root: PageId, lv: seq<Level>, u: nat, j: nat, mid: nat)
    requires Shape(cmp, s, root, lv, NoGap) && 1 <= u < |lv| && j < |lv[u]|
    ensures forall q, i {:trigger lv[q][i]} ::
      (0 <= q < u && 0 <= i < |lv[q]| && Moved(PageAt(s, lv[u][j].pid).recs, mid, lv[q][i].pid)) ==>
      q == u - 1 && i > Offset(s, lv[u], j) + mid
  {
    hide Shape, Offset;
    var p := PageAt(s, lv[u][j].pid);
    forall q, i {:trigger lv[q][i]} | 0 <= q < u && 0 <= i < |lv[q]| && Moved(p.recs, mid, lv[q][i].pid)
      ensures q == u - 1 && i > Offset(s, lv[u], j) + mid
    {
      var t :| mid <= t < |p.recs| && ChildOf(p.recs[t]) == lv[q][i].pid;
      ChildPlace(cmp, s, root, lv, u, j, t + 1);
      assert ChildAt(p, t + 1) == lv[q][i].pid;
      assert lv[u - 1][Offset(s, lv[u], j) + (t + 1)].pid == lv[q][i].pid;
    }
  }

  /** Parent fields below the cut, as they were and as they stay. */
  lemma ParentsBelow(cmp: Cmp, sv: seq<Page>, root: PageId, lv: seq<Level>, u: nat, j: nat, s: seq<Page>,
                     left: seq<Rec>, right: seq<Rec>, z: seq<Page>, up: seq<PageId>, q: nat, i: nat)
    requires CutInternal(cmp, sv, root, lv, u, j, s, left, right) && Later(s, z, lv, u, up)
    requires q < u && i < |lv[q]|
    ensures var mid, o := |sv[lv[u][j].pid].recs| / 2, Offset(sv, lv[u], j);
      && lv[q][i].pid < |sv|
      && (q < u - 1 || i <= o + mid ==> PageAt(z, lv[q][i].pid).parent == sv[lv[q][i].pid].parent)
      && (q == u - 1 && o + mid < i <= o + |sv[lv[u][j].pid].recs| ==> PageAt(z, lv[q][i].pid).parent == |sv|)
  {
    hide CutInternal, Later, Moved, Offset;
    CutFacts(cmp, sv, root, lv, u, j, s, left, right);
    var all, mid, o := sv[lv[u][j].pid].recs, |sv[lv[u][j].pid].recs| / 2, Offset(sv, lv[u], j);
    PlacedApart(cmp, sv, root, lv, q, i, u, j);
    MovedPlace(cmp, sv, root, lv, u, j, mid);
    CutParent(cmp, sv, root, lv, u, j, s, left, right, lv[q][i].pid);
    LaterParent(s, z, lv, u, up, q, i);
    if q == u - 1 && o + mid < i <= o + |all| {
      var t := i - o - 1;
      ChildPlace(cmp, sv, root, lv, u, j, t + 1);
      MovedChild(all, mid, t);
    }
  }

  lemma MovedChild(recs: seq<Rec>, mid: nat, t: nat)
    requires mid <= t < |recs|
    ensures Moved(recs, mid, ChildOf(recs[t]))
  {
  }

  lemma CutParent(cmp: Cmp, sv: seq<Page>, root: PageId, lv: seq<Level>, u: nat, j: nat, s: seq<Page>, left: seq<Rec>,
                  right: seq<Rec>, x: PageId)
    requires CutInternal(cmp, sv, root, lv, u, j, s, left, right) && x < |sv| && x != lv[u][j].pid
    ensures |s| > |sv| && s[x].parent ==
      if Moved(sv[lv[u][j].pid].recs, |sv[lv[u][j].pid].recs| / 2, x) then |sv| else sv[x].parent
  {
    hide Shape, Moved;
  }

  lemma LaterParent(s: seq<Page>, z: seq<Page>, lv: seq<Level>, u: nat, up: seq<PageId>, q: nat, i: nat)
    requires Later(s, z, lv, u, up) && q < u && q < |lv| && i < |lv[q]|
    ensures lv[q][i].pid < |s| <= |z| && z[lv[q][i].pid].parent == s[lv[q][i].pid].parent
  {
  }

  lemma PlacedApart(cmp: Cmp, s: seq<Page>, root: PageId, lv: seq<Level>, q: nat, i: nat, u: nat, j: nat)
    requires Shape(cmp, s, root, lv, NoGap) && q < u < |lv| && i < |lv[q]| && j < |lv[u]|
    ensures lv[q][i].pid < |s| && lv[q][i].pid != lv[u][j].pid && lv[u][j].pid != INVALID_PAGE_ID
  {
    hide Leaves, Chain, Bounds, Linked, Parents;
    assert Alone(lv, q, i);
  }

  lemma NamedBelow(cmp: Cmp, sv: seq<Page>, root: PageId, lv: seq<Level>, u: nat, j: nat, s: seq<Page>,
                   left: seq<Rec>, right: seq<Rec>, z: seq<Page>, up: seq<PageId>)
    requires CutInternal(cmp, sv, root, lv, u, j, s, left, right) && Later(s, z, lv, u, up)
    ensures Named(z, lv, u - 1)
  {
    hide CutInternal, Later, Offset, HasNamer;
    CutFacts(cmp, sv, root, lv, u, j, s, left, right);
    hide Shape;
    forall q, h {:trigger lv[q][h]} | 1 <= q <= u - 1 && q < |lv| && 0 <= h < |lv[q]|
      ensures HasNamer(z, lv[q - 1], lv[q][h].pid)
    {
      NamedPage(cmp, sv, root, lv, u, j, s, left, right, z, up, q, h);
    }
  }

  lemma NamedPage(cmp: Cmp, sv: seq<Page>, root: PageId, lv: seq<Level>, u: nat, j: nat, s: seq<Page>, left: seq<Rec>,
                  right: seq<Rec>, z: seq<Page>, up: seq<PageId>, q: nat, h: nat)
    requires CutInternal(cmp, sv, root, lv, u, j, s, left, right) && Later(s, z, lv, u, up)
    requires 1 <= q < u && q < |lv| && h < |lv[q]|
    ensures HasNamer(z, lv[q - 1], lv[q][h].pid)
  {
    hide CutInternal, Later, Offset, HasNamer;
    CutFacts(cmp, sv, root, lv, u, j, s, left, right);
    ChildPlace(cmp, sv, root, lv, q, h, 0);
    var o := Offset(sv, lv[q], h) + 0;
    ParentsBelow(cmp, sv, root, lv, u, j, s, left, right, z, up, q - 1, o);
    PlacedApart(cmp, sv, root, lv, q - 1, o, q, h);
    IsNamer(z, lv[q - 1], o, lv[q][h].pid);
  }

  lemma IsNamer(s: seq<Page>, below: Level, i: nat, pid: PageId)
    requires i < |below| && PageAt(s, below[i].pid).parent == pid != INVALID_PAGE_ID
    ensures HasNamer(s, below, pid)
  {
    assert NamerAt(s, below, i, pid);
  }

  lemma CutFacts(cmp: Cmp, sv: seq<Page>, root: PageId, lv: seq<Level>, u: nat, j: nat, s: seq<Page>, left: seq<Rec>,
                 right: seq<Rec>)
    requires CutInternal(cmp, sv, root, lv, u, j, s, left, right)
    ensures Shape(cmp, sv, root, lv, NoGap) && 1 <= u < |lv| && j < |lv[u]| && lv[u][j].pid < |sv|
    ensures var all := sv[lv[u][j].pid].recs;
      && |all| / 2 < |all| && |s| == |sv| + 1
      && s[lv[u][j].pid].recs == left && s[|sv|].recs == right
      && Shortened(left, all[..|all| / 2]) && Shortened(right, all[|all| / 2 + 1..])
    ensures AllLinks(sv, s)
  {
    hide Shape;
  }

  /** Children `a` to `b` of a page. */
  function ChildRun(p: Page, a: nat, b: nat): (r: seq<PageId>)
    requires a <= b <= |p.recs| + 1
    ensures |r| == b - a
  {
    seq<PageId>(b - a, t requires 0 <= t < b - a => ChildAt(p, a + t))
  }

  /** Either part of the torn page is in any tree the put may end with, with all its children. */
  lemma PartForced(cmp: Cmp, sv: seq<Page>, root: PageId, lv: seq<Level>, u: nat, j: nat, s: seq<Page>,
                   left: seq<Rec>, right: seq<Rec>, z: seq<Page>, up: seq<PageId>, newRoot: PageId, lvz: seq<Level>,
                   a: nat, b: nat, pid: PageId)
    requires CutInternal(cmp, sv, root, lv, u, j, s, left, right) && Later(s, z, lv, u, up)
    requires TreeOk(cmp, z, newRoot, lvz) && LevelIn(lv, u - 1, lvz)
    requires var all := sv[lv[u][j].pid].recs; var mid := |all| / 2;
      (a == 0 && b == mid + 1 && pid == lv[u][j].pid) || (a == mid + 1 && b == |all| + 1 && pid == |sv|)
    ensures b - a <= |PageAt(z, pid).recs| + 1 && PageAt(z, pid).recs != [] && Fits(PageAt(z, pid).recs)
  {
    hide CutInternal, Later, Offset, TreeOk, Shape, Alone, InLevel;
    CutFacts(cmp, sv, root, lv, u, j, s, left, right);
    var p := sv[lv[u][j].pid];
    var kids := ChildRun(p, a, b);
    var o := Offset(sv, lv[u], j) + a;
    forall t | 0 <= t < |kids|
      ensures SitsAt(lv, u - 1, o, kids, t)
      ensures InLevel(lvz, u - 1, kids[t]) && PageAt(z, kids[t]).parent == pid
    {
      ChildPlace(cmp, sv, root, lv, u, j, a + t);
      ParentsBelow(cmp, sv, root, lv, u, j, s, left, right, z, up, u - 1, o + t);
      assert InLevel(lvz, u - 1, lv[u - 1][o + t].pid);
    }
    DifferentPlaces(lv, u - 1, o, kids);
    ChildPlace(cmp, sv, root, lv, u, j, 0);
    PlacedApart(cmp, sv, root, lv, u - 1, Offset(sv, lv[u], j) + 0, u, j);
    KidsForced(cmp, z, newRoot, lvz, u - 1, pid, kids);
  }

  lemma DifferentPlaces(lv: seq<Level>, q: nat, o: nat, kids: seq<PageId>)
    requires q < |lv| && forall t :: 0 <= t < |kids| ==> SitsAt(lv, q, o, kids, t)
    ensures Different(kids)
  {
    forall i, j | 0 <= i < |kids| && 0 <= j < |kids| && i != j
      ensures kids[i] != kids[j]
    {
      assert SitsAt(lv, q, o, kids, i) && SitsAt(lv, q, o, kids, j);
    }
  }

  ghost predicate SitsAt(lv: seq<Level>, q: nat, o: nat, kids: seq<PageId>, t: nat)
    requires q < |lv| && t < |kids|
  {
    o + t < |lv[q]| && kids[t] == lv[q][o + t].pid && Alone(lv, q, o + t)
  }

  /** Whatever else the put does, it can only end with a tree if the halves fitted. */
  lemma CutForces(cmp: Cmp, sv: seq<Page>, root: PageId, lv: seq<Level>, u: nat, j: nat, s: seq<Page>, left: seq<Rec>,
                  right: seq<Rec>, z: seq<Page>, up: seq<PageId>, newRoot: PageId, lvz: seq<Level>)
    requires CutInternal(cmp, sv, root, lv, u, j, s, left, right) && Later(s, z, lv, u, up)
    requires lv[u][j].pid !in up && |sv| !in up && RootOf(z, newRoot, root)
    requires TreeOk(cmp, z, newRoot, lvz)
    ensures InternalHalvesFit(sv[lv[u][j].pid].recs)
  {
    hide CutInternal, TreeOk, RootOf, Spine, Shape, Fits, AllLinks, LevelIn, Named;
    CutFacts(cmp, sv, root, lv, u, j, s, left, right);
    LinksTrans(sv, s, z, lv, u, up);
    LeavesStay(cmp, sv, root, lv, z, newRoot, lvz);
    NamedBelow(cmp, sv, root, lv, u, j, s, left, right, z, up);
    Rise(cmp, z, newRoot, lvz, lv, u - 1, u - 1);
    var pid := lv[u][j].pid;
    var all := sv[pid].recs;
    var mid := |all| / 2;
    PartForced(cmp, sv, root, lv, u, j, s, left, right, z, up, newRoot, lvz, 0, mid + 1, pid);
    PartForced(cmp, sv, root, lv, u, j, s, left, right, z, up, newRoot, lvz, mid + 1, |all| + 1, |sv|);
    assert z[pid].recs == left && z[|sv|].recs == right;
  }

  lemma LinksTrans(sv: seq<Page>, s: seq<Page>, z: seq<Page>, lv: seq<Level>, u: nat, up: seq<PageId>)
    requires AllLinks(sv, s) && Later(s, z, lv, u, up)
    ensures AllLinks(sv, z) && |s| <= |z|
  {
    forall x | 0 <= x < |sv|
      ensures SameLinks(sv[x], z[x])
    {
      assert SameLinks(sv[x], s[x]) && SameLinks(s[x], z[x]);
    }
  }

  /** The leaves of the earlier tree are those of the later one. */
  lemma LeavesStay(cmp: Cmp, sv: seq<Page>, root: PageId, lv: seq<Level>, z: seq<Page>, newRoot: PageId,
                   lvz: seq<Level>)
    requires Shape(cmp, sv, root, lv, NoGap) && AllLinks(sv, z) && RootOf(z, newRoot, root)
      && TreeOk(cmp, z, newRoot, lvz)
    ensures |lv| > 0 && LevelIn(lv, 0, lvz)
  {
    TreeSpine(cmp, sv, root, lv);
    LevelFacts(cmp, sv, root, lv, NoGap, 0);
    assert lv[|lv| - 1] == [Edge(NegInf, root)];
    assert Chain(sv, lv[0]) && Placed(sv, lv);
    LinksDown(sv, z, lv);
    hide Shape, TreeOk, RootOf, Spine;
    SpineLinks(sv, z, lv);
    ChainLinks(sv, z, lv[0]);
    SameFirstLeaf(cmp, z, newRoot, lvz, lv, root);
    SameChain(cmp, z, newRoot, lvz, lv[0]);
    forall i: nat {:trigger lv[0][i]} | i < |lv[0]|
      ensures InLevel(lvz, 0, lv[0][i].pid)
    {
      assert lvz[0][i].pid == lv[0][i].pid;
    }
  }

  // ---------------------------------------------------------------- a torn leaf

  /** Leaf `i`, with one record too many, was cut in the middle, whether or not its halves fit. */
  ghost predicate LeafCut(cmp: Cmp, s0: seq<Page>, root: PageId, lv: seq<Level>, i: nat, all: seq<Rec>, s: seq<Page>,
                          left: seq<Rec>, right: seq<Rec>) {
    && Order(cmp) && Shape(cmp, s0, root, lv, NoGap) && |lv| > 0 && i < |lv[0]|
    && |all| / 2 < |all| && LeafOk(cmp, all, lv[0], i)
    && LeafSplit(s0, s, lv[0][i].pid, left, right)
    && Shortened(left, all[..|all| / 2]) && Shortened(right, all[|all| / 2..])
  }

  /** All records in order, had the leaf been large enough. */
  ghost function Wanted(s0: seq<Page>, es: Level, i: nat, all: seq<Rec>): seq<Rec>
    requires i < |es|
  {
    Records(s0, es[..i]) + all + Records(s0, es[i + 1..])
  }

  lemma WantedSorted(cmp: Cmp, s0: seq<Page>, es: Level, i: nat, all: seq<Rec>)
    requires Order(cmp) && Ascending(cmp, es) && Leaves(cmp, s0, es) && i < |es| && LeafOk(cmp, all, es, i)
    requires forall j :: 0 <= j < |es| ==> es[j].pid < |s0|
    requires forall j, k :: 0 <= j < |es| && 0 <= k < |es| && j != k ==> es[j].pid != es[k].pid
    ensures Sorted(cmp, Wanted(s0, es, i, all))
  {
    var s1 := s0[es[i].pid := s0[es[i].pid].(recs := all)];
    forall j | 0 <= j < |es|
      ensures LeafAt(cmp, s1, es, j)
    {
      assert LeafAt(cmp, s0, es, j);
    }
    hide Records, LeafOk, LeafAt;
    RecordsSorted(cmp, s1, es);
    RecordsSplit(s1, es, i);
    RecordsFrame(s0, s1, es[..i]);
    RecordsFrame(s0, s1, es[i + 1..]);
  }

  /** Sorted records have as many keys as there are records. */
  lemma {:induction false} SortedSize(cmp: Cmp, recs: seq<Rec>)
    requires Order(cmp) && Sorted(cmp, recs)
    ensures |ToMap(recs)| == |recs|
  {
    if recs != [] {
      var n := |recs| - 1;
      SortedSize(cmp, recs[..n]);
      ToMapKeys(recs[..n], recs[n].key);
      forall t | 0 <= t < n
        ensures recs[t].key != recs[n].key
      {
        assert Lt(cmp, recs[t].key, recs[n].key);
      }
      ToMapGrows(recs[..n], recs[n]);
      assert recs == recs[..n] + [recs[n]];
    }
  }

  lemma ToMapGrows(recs: seq<Rec>, r: Rec)
    requires r.key !in ToMap(recs)
    ensures |ToMap(recs + [r])| == |ToMap(recs)| + 1
  {
    ToMapConcat(recs, [r]);
    ToMapOne(r);
    hide ToMap;
    var m := ToMap(recs);
    assert m + map[r.key := ValOf(r)] == m[r.key := ValOf(r)];
    assert m[r.key := ValOf(r)].Keys == m.Keys + {r.key};
  }

  lemma SplitDown(s0: seq<Page>, s: seq<Page>, lv: seq<Level>, pid: PageId, left: seq<Rec>, right: seq<Rec>)
    requires LeafSplit(s0, s, pid, left, right) && Placed(s0, lv) && s0[pid].kind == LeafPage
    ensures forall q {:trigger lv[q]} :: 0 <= q < |lv| && |lv[q]| > 0 ==> SameDown(s0, s, lv[q][0].pid)
  {
    forall q {:trigger lv[q]} | 0 <= q < |lv| && |lv[q]| > 0
      ensures SameDown(s0, s, lv[q][0].pid)
    {
      assert lv[q][0].pid < |s0|;
    }
  }

  lemma SamePids(s: seq<Page>, z: seq<Page>, es: Level, fs: Level)
    requires |es| == |fs| && forall i :: 0 <= i < |es| ==>
      es[i].pid == fs[i].pid && PageAt(z, fs[i].pid).recs == PageAt(s, es[i].pid).recs
    ensures Records(z, fs) == Records(s, es)
  {
    assert RecLists(z, fs) == RecLists(s, es);
  }

  /** The leaves after the cut are those of any tree the put may end with. */
  lemma CutLeavesStay(cmp: Cmp, s0: seq<Page>, root: PageId, lv: seq<Level>, i: nat, all: seq<Rec>, s: seq<Page>,
                      left: seq<Rec>, right: seq<Rec>, z: seq<Page>, newRoot: PageId, lvz: seq<Level>)
    requires LeafCut(cmp, s0, root, lv, i, all, s, left, right) && AllLinks(s, z)
    requires RootOf(z, newRoot, root) && TreeOk(cmp, z, newRoot, lvz)
    ensures |lvz| > 0
    ensures var es := SplitLevel(lv[0], i, all[|all| / 2].key, |s0|);
      |es| == |lvz[0]| && forall j :: 0 <= j < |es| ==> es[j].pid == lvz[0][j].pid && es[j].pid < |s|
  {
    var es := SplitLevel(lv[0], i, all[|all| / 2].key, |s0|);
    TreeSpine(cmp, s0, root, lv);
    LevelFacts(cmp, s0, root, lv, NoGap, 0);
    assert lv[|lv| - 1] == [Edge(NegInf, root)];
    assert PageOk(s0[lv[0][i].pid], 0);
    SplitDown(s0, s, lv, lv[0][i].pid, left, right);
    CutPlacedLeaves(s0, s, lv, left, right, i);
    assert Chain(s0, lv[0]) && |s| == |s0| + 1;
    hide TreeOk, RootOf, Spine, Shape, AllLinks;
    LeafSplitChain(s0, lv[0], i, all[|all| / 2].key, left, right, s);
    hide LeafSplit;
    SpineLinks(s0, s, lv);
    SpineLinks(s, z, lv) by { LinksDownAt(s, z, lv); }
    ChainLinks(s, z, es);
    SameFirstLeaf(cmp, z, newRoot, lvz, lv, root);
    SameChain(cmp, z, newRoot, lvz, es);
  }

  lemma CutPlacedLeaves(s0: seq<Page>, s: seq<Page>, lv: seq<Level>, left: seq<Rec>, right: seq<Rec>, i: nat)
    requires |lv| > 0 && i < |lv[0]| && Placed(s0, lv) && LeafSplit(s0, s, lv[0][i].pid, left, right)
    ensures forall q {:trigger lv[q]} :: 0 <= q < |lv| && |lv[q]| > 0 ==> lv[q][0].pid < |s|
  {
    forall q {:trigger lv[q]} | 0 <= q < |lv| && |lv[q]| > 0
      ensures lv[q][0].pid < |s|
    {
      assert lv[q][0].pid < |s0|;
    }
  }

  lemma LinksDownAt(s: seq<Page>, z: seq<Page>, lv: seq<Level>)
    requires AllLinks(s, z) && forall q {:trigger lv[q]} :: 0 <= q < |lv| && |lv[q]| > 0 ==> lv[q][0].pid < |s|
    ensures forall q {:trigger lv[q]} :: 0 <= q < |lv| && |lv[q]| > 0 ==> SameDown(s, z, lv[q][0].pid)
  {
  }

  /** Whatever else the put does, it can only end with a tree of the right entries if the
      halves of the leaf fitted. */
  lemma LeafCutForces(cmp: Cmp, s0: seq<Page>, root: PageId, lv: seq<Level>, i: nat, all: seq<Rec>, s: seq<Page>,
                      left: seq<Rec>, right: seq<Rec>, z: seq<Page>, up: seq<PageId>, newRoot: PageId, lvz: seq<Level>)
    requires LeafCut(cmp, s0, root, lv, i, all, s, left, right) && Later(s, z, lv, 0, up)
    requires |s0| !in up && forall j :: 0 <= j < |lv[0]| ==> lv[0][j].pid !in up
    requires RootOf(z, newRoot, root) && TreeOk(cmp, z, newRoot, lvz) && |lvz| > 0
    requires ToMap(Records(z, lvz[0])) == ToMap(Wanted(s0, lv[0], i, all))
    ensures LeafHalvesFit(all)
  {
    hide RootOf, TreeOk, ToMap, Records, Wanted, Order, Ascending;
    var mid := |all| / 2;
    var es := SplitLevel(lv[0], i, all[mid].key, |s0|);
    CutLeavesStay(cmp, s0, root, lv, i, all, s, left, right, z, newRoot, lvz);
    LevelFacts(cmp, s0, root, lv, NoGap, 0);
    CutRecordsLater(cmp, s0, root, lv, i, all, s, left, right, z, up);
    hide Later;
    LeafSplitRecords(s0, lv[0], i, all[mid].key, left, right, s);
    hide LeafSplit;
    WantedSorted(cmp, s0, lv[0], i, all);
    SortedSize(cmp, Wanted(s0, lv[0], i, all));
    SamePids(s, z, es, lvz[0]);
    TreeRecords(cmp, z, newRoot, lvz);
    SortedSize(cmp, Records(z, lvz[0]));
    WantedLength(s0, lv[0], i, all, left + right);
    assert es[i].pid == lvz[0][i].pid && es[i + 1].pid == lvz[0][i + 1].pid;
    LeafRoom(cmp, z, newRoot, lvz, i);
    LeafRoom(cmp, z, newRoot, lvz, i + 1);
  }

  lemma WantedLength(s0: seq<Page>, es: Level, i: nat, all: seq<Rec>, kept: seq<Rec>)
    requires i < |es|
    ensures |Wanted(s0, es, i, all)| - |Records(s0, es[..i]) + kept + Records(s0, es[i + 1..])| == |all| - |kept|
  {
  }

  lemma LeafRoom(cmp: Cmp, s: seq<Page>, root: PageId, lv: seq<Level>, i: nat)
    requires TreeOk(cmp, s, root, lv) && |lv| > 0 && i < |lv[0]|
    ensures Fits(PageAt(s, lv[0][i].pid).recs)
  {
    hide Shape, Filled, Order, Fits;
  }

  lemma TreeRecords(cmp: Cmp, s: seq<Page>, root: PageId, lv: seq<Level>)
    requires TreeOk(cmp, s, root, lv) && |lv| > 0
    ensures Order(cmp) && Sorted(cmp, Records(s, lv[0]))
  {
    hide Records, Sorted;
    LevelFacts(cmp, s, root, lv, NoGap, 0);
    RecordsSorted(cmp, s, lv[0]);
  }

  /** The records of the leaves are as the cut left them. */
  lemma CutRecordsLater(cmp: Cmp, s0: seq<Page>, root: PageId, lv: seq<Level>, i: nat, all: seq<Rec>, s: seq<Page>,
                        left: seq<Rec>, right: seq<Rec>, z: seq<Page>, up: seq<PageId>)
    requires LeafCut(cmp, s0, root, lv, i, all, s, left, right) && Later(s, z, lv, 0, up)
    requires |s0| !in up && forall j :: 0 <= j < |lv[0]| ==> lv[0][j].pid !in up
    ensures var es := SplitLevel(lv[0], i, all[|all| / 2].key, |s0|);
      && |es| == |lv[0]| + 1
      && (forall j :: 0 <= j < |es| ==> PageAt(z, es[j].pid).recs == PageAt(s, es[j].pid).recs)
      && PageAt(z, es[i].pid).recs == left && PageAt(z, es[i + 1].pid).recs == right
  {
    LevelFacts(cmp, s0, root, lv, NoGap, 0);
    hide Shape;
    var es: Level := SplitLevel(lv[0], i, all[|all| / 2].key, |s0|);
    forall j | 0 <= j < |es|
      ensures es[j].pid < |s| && es[j].pid !in up
    {
      if j != i + 1 {
        assert es[j] == lv[0][if j <= i then j else j - 1];
      }
    }
  }
}
