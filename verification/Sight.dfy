/** What searches find after a put: everything, if no page dropped a record, and otherwise some
    stored key no more, although the pages may look like a tree nowhere else. */
module Sight {
  import opened Comparator
  import opened Pages
  import opened Levels
  import opened Frames
  import opened Contents
  import opened Search
  import opened Descent
  import opened Fitting
  import opened SplitSteps
  import opened InternalSteps
  import opened RootSteps
  import opened Height
  import opened LeafPut
  import opened TornSplits
  import opened Climb
  import opened LostChild

  // ---------------------------------------------------------------- a subtree cut off

  /** The children of page `j` of a level, as places in the level below. */
  lemma KidHere(cmp: Cmp, s: seq<Page>, root: PageId, lv: seq<Level>, gap: Gap, u: nat, j: nat, c: nat)
    requires Shape(cmp, s, root, lv, gap) && 1 <= u < |lv| && (gap.Gap? ==> gap.level >= u)
    requires j < |lv[u]| && c <= |PageAt(s, lv[u][j].pid).recs|
    ensures Offset(s, lv[u], j) + c < |lv[u - 1]|
    ensures lv[u - 1][Offset(s, lv[u], j) + c].pid == ChildAt(PageAt(s, lv[u][j].pid), c)
  {
    hide Leaves, Chain, Bounds, Parents, ZeroFirst, Distinct, Placed;
    assert Expand(s, lv[u]) == Seen(lv, u - 1, gap);
    hide Linked, Expand;
    ExpandAt(s, lv[u], j, c);
    KidAt(lv[u][j].lo, PageAt(s, lv[u][j].pid), c);
  }

  /** Below a gap or not, children are pages of the level below. */
  lemma KidSomewhere(cmp: Cmp, s: seq<Page>, root: PageId, lv: seq<Level>, gap: Gap, u: nat, j: nat, c: nat)
    returns (o: nat)
    requires Shape(cmp, s, root, lv, gap) && 1 <= u < |lv| && j < |lv[u]| && c <= |PageAt(s, lv[u][j].pid).recs|
    ensures o < |lv[u - 1]| && lv[u - 1][o].pid == ChildAt(PageAt(s, lv[u][j].pid), c)
  {
    hide Leaves, Chain, Bounds, Parents, ZeroFirst, Distinct, Placed;
    assert Expand(s, lv[u]) == Seen(lv, u - 1, gap);
    hide Linked, Expand;
    ExpandAt(s, lv[u], j, c);
    KidAt(lv[u][j].lo, PageAt(s, lv[u][j].pid), c);
    o := Offset(s, lv[u], j) + c;
    if gap.Gap? && gap.level == u - 1 && gap.at < |lv[u - 1]| && o >= gap.at {
      o := o + 1;
    }
  }

  /** Where the pages of a spine lie: one per level, from place `a` of level `q` to leaf `z`. */
  ghost predicate SpineIs(lv: seq<Level>, q: nat, a: nat, z: nat, spine: set<PageId>) {
    forall p, i {:trigger lv[p][i]} :: 0 <= p < |lv| && 0 <= i < |lv[p]| && lv[p][i].pid in spine ==>
      p <= q && (p == q ==> i == a) && (p == 0 ==> i == z)
  }

  /** No page beside the spine, up to level `q`, leads into it. */
  ghost predicate SpineShut(s: seq<Page>, lv: seq<Level>, q: nat, spine: set<PageId>) {
    forall p, i {:trigger lv[p][i]} :: 1 <= p <= q && p < |lv| && 0 <= i < |lv[p]| && lv[p][i].pid !in spine ==>
      NoKidIn(PageAt(s, lv[p][i].pid), spine)
  }

  ghost predicate NoKidIn(p: Page, spine: set<PageId>) {
    forall c :: 0 <= c <= |p.recs| ==> ChildAt(p, c) !in spine
  }

  /** First children from place `a` of level `q` down to a leaf. */
  lemma {:induction false} SpineDown(cmp: Cmp, s: seq<Page>, root: PageId, lv: seq<Level>, gap: Gap, q: nat, a: nat)
    returns (spine: set<PageId>, z: nat)
    requires Shape(cmp, s, root, lv, gap) && q < |lv| && a < |lv[q]| && (gap.Gap? ==> gap.level >= q)
    ensures z < |lv[0]| && lv[q][a].pid in spine && lv[0][z].pid in spine
    ensures SpineIs(lv, q, a, z, spine) && SpineShut(s, lv, q, spine)
  {
    hide Shape, SpineIs, SpineShut;
    if q == 0 {
      spine, z := {lv[0][a].pid}, a;
      OneIs(cmp, s, root, lv, gap, a);
      assert SpineShut(s, lv, 0, spine) by { NothingShut(s, lv, spine); }
    } else {
      KidHere(cmp, s, root, lv, gap, q, a, 0);
      var o := Offset(s, lv[q], a) + 0;
      var below;
      below, z := SpineDown(cmp, s, root, lv, gap, q - 1, o);
      spine := below + {lv[q][a].pid};
      SpineGrows(cmp, s, root, lv, gap, q, a, o, z, below);
    }
  }

  lemma NothingShut(s: seq<Page>, lv: seq<Level>, spine: set<PageId>)
    ensures SpineShut(s, lv, 0, spine)
  {
  }

  lemma OneIs(cmp: Cmp, s: seq<Page>, root: PageId, lv: seq<Level>, gap: Gap, a: nat)
    requires Shape(cmp, s, root, lv, gap) && |lv| > 0 && a < |lv[0]|
    ensures SpineIs(lv, 0, a, a, {lv[0][a].pid})
  {
    hide Leaves, Chain, Bounds, Parents, ZeroFirst, Linked, Placed;
    assert Alone(lv, 0, a);
  }

  lemma SpineGrows(cmp: Cmp, s: seq<Page>, root: PageId, lv: seq<Level>, gap: Gap, q: nat, a: nat, o: nat, z: nat,
                   below: set<PageId>)
    requires Shape(cmp, s, root, lv, gap) && 1 <= q < |lv| && a < |lv[q]| && (gap.Gap? ==> gap.level >= q)
    requires o == Offset(s, lv[q], a) + 0 && SpineIs(lv, q - 1, o, z, below) && SpineShut(s, lv, q - 1, below)
    ensures SpineIs(lv, q, a, z, below + {lv[q][a].pid}) && SpineShut(s, lv, q, below + {lv[q][a].pid})
  {
    var spine := below + {lv[q][a].pid};
    AloneAt(cmp, s, root, lv, gap, q, a);
    hide Shape, Offset;
    forall p, i {:trigger lv[p][i]} | 1 <= p <= q && p < |lv| && 0 <= i < |lv[p]| && lv[p][i].pid !in spine
      ensures NoKidIn(PageAt(s, lv[p][i].pid), spine)
    {
      forall c | 0 <= c <= |PageAt(s, lv[p][i].pid).recs|
        ensures ChildAt(PageAt(s, lv[p][i].pid), c) !in spine
      {
        KidHere(cmp, s, root, lv, gap, p, i, c);
        var kid := lv[p - 1][Offset(s, lv[p], i) + c];
        assert kid.pid != lv[q][a].pid;
        if p == q {
          OtherOffset(s, lv[q], a, 0, i, c);
          assert kid.pid !in below;
        }
      }
    }
  }

  lemma AloneAt(cmp: Cmp, s: seq<Page>, root: PageId, lv: seq<Level>, gap: Gap, q: nat, a: nat)
    requires Shape(cmp, s, root, lv, gap) && q < |lv| && a < |lv[q]|
    ensures Alone(lv, q, a)
  {
  }

  /** Children of different pages have different places. */
  lemma OtherOffset(s: seq<Page>, es: Level, a: nat, d: nat, i: nat, c: nat)
    requires a < |es| && i < |es| && i != a
    requires d <= |PageAt(s, es[a].pid).recs| && c <= |PageAt(s, es[i].pid).recs|
    ensures Offset(s, es, i) + c != Offset(s, es, a) + d
  {
    if i < a {
      OffsetMono(s, es, i, a);
    } else {
      OffsetMono(s, es, a, i);
    }
  }

  // ---------------------------------------------------------------- a record dropped from an internal page

  ghost function AllPages(lv: seq<Level>): set<PageId> {
    set q, i | 0 <= q < |lv| && 0 <= i < |lv[q]| :: lv[q][i].pid
  }

  /** The same pages, some with fewer records. */
  ghost predicate Thinned(t: seq<Page>, s: seq<Page>) {
    |s| == |t| && forall x :: 0 <= x < |t| ==> ThinnedPage(t[x], s[x])
  }

  ghost predicate ThinnedPage(p: Page, q: Page) {
    q == p.(recs := q.recs) && forall i :: 0 <= i < |q.recs| ==> q.recs[i] in p.recs
  }

  ghost predicate LeavesStocked(s: seq<Page>, lv: seq<Level>) {
    |lv| > 0 && forall i :: 0 <= i < |lv[0]| ==> LeafStocked(s, lv[0], i)
  }

  ghost predicate LeafStocked(s: seq<Page>, es: Level, i: nat)
    requires i < |es|
  {
    PageAt(s, es[i].pid).recs != []
  }

  /** Page `j` of level `u` should have the children of `t` but lost the one of record `e`. */
  ghost predicate Dropped(t: seq<Page>, s: seq<Page>, pid: PageId, e: nat) {
    pid < |t| && pid < |s| && e < |t[pid].recs| && t[pid].recs[e] !in s[pid].recs
  }

  /** A dropped separator hides a whole subtree: some key in it is not found from any page outside. */
  lemma InnerDropSeals(cmp: Cmp, t: seq<Page>, root: PageId, lv: seq<Level>, gap: Gap, u: nat, j: nat, e: nat,
                       s: seq<Page>)
    returns (reach: set<PageId>, lost: Key)
    requires Order(cmp) && Shape(cmp, t, root, lv, gap) && 1 <= u < |lv| && j < |lv[u]| && (gap.Gap? ==> gap.level >= u)
    requires Thinned(t, s) && Dropped(t, s, lv[u][j].pid, e) && LeavesStocked(t, lv)
    ensures Sealed(s, root, reach, lost) && lost in ToMap(Records(t, lv[0]))
    ensures forall q, i {:trigger lv[q][i]} :: u <= q < |lv| && 0 <= i < |lv[q]| ==> lv[q][i].pid in reach
  {
    hide Shape, Order, Thinned, Dropped, ToMap, Records, SpineIs, SpineShut, Sealed, LeavesStocked;
    assert e < |PageAt(t, lv[u][j].pid).recs| by { DroppedRange(t, s, lv[u][j].pid, e); }
    KidHere(cmp, t, root, lv, gap, u, j, e + 1);
    var a := Offset(t, lv[u], j) + (e + 1);
    var spine, z := SpineDown(cmp, t, root, lv, gap, u - 1, a);
    reach := AllPages(lv) - spine;
    lost := PageAt(t, lv[0][z].pid).recs[0].key by { HoldsAt(t, lv, z); }
    HoldsAt(t, lv, z);
    StoredLost(cmp, t, root, lv, gap, z);
    UpperReached(lv, u, a, z, spine);
    RootReached(cmp, t, root, lv, gap, u, a, z, spine);
    forall p | p in reach
      ensures SealedPage(s, p, reach, lost)
    {
      var q, i :| 0 <= q < |lv| && 0 <= i < |lv[q]| && lv[q][i].pid == p;
      DropPage(cmp, t, root, lv, gap, u, j, e, s, a, z, spine, q, i);
    }
    SealedIntro(s, root, reach, lost);
  }

  lemma DroppedRange(t: seq<Page>, s: seq<Page>, pid: PageId, e: nat)
    requires Dropped(t, s, pid, e)
    ensures pid < |t| && e < |PageAt(t, pid).recs|
  {
  }

  lemma HoldsAt(s: seq<Page>, lv: seq<Level>, z: nat)
    requires LeavesStocked(s, lv) && z < |lv[0]|
    ensures |PageAt(s, lv[0][z].pid).recs| > 0
  {
    assert LeafStocked(s, lv[0], z);
  }

  lemma SealedIntro(s: seq<Page>, root: PageId, reach: set<PageId>, lost: Key)
    requires root in reach && forall p :: p in reach ==> SealedPage(s, p, reach, lost)
    ensures Sealed(s, root, reach, lost)
  {
  }

  lemma StoredLost(cmp: Cmp, s: seq<Page>, root: PageId, lv: seq<Level>, gap: Gap, z: nat)
    requires Order(cmp) && Shape(cmp, s, root, lv, gap) && |lv| > 0 && z < |lv[0]| && |PageAt(s, lv[0][z].pid).recs| > 0
    ensures PageAt(s, lv[0][z].pid).recs[0].key in ToMap(Records(s, lv[0]))
  {
    hide Shape, Order, ToMap;
    RecordsSplit(s, lv[0], z);
    var recs := Records(s, lv[0]);
    hide Records;
    assert recs[|Records(s, lv[0][..z])|] == PageAt(s, lv[0][z].pid).recs[0];
    ToMapKeys(recs, PageAt(s, lv[0][z].pid).recs[0].key);
  }

  lemma UpperReached(lv: seq<Level>, u: nat, a: nat, z: nat, spine: set<PageId>)
    requires 1 <= u && SpineIs(lv, u - 1, a, z, spine)
    ensures forall q, i {:trigger lv[q][i]} :: u <= q < |lv| && 0 <= i < |lv[q]| ==>
      lv[q][i].pid in AllPages(lv) - spine
  {
  }

  lemma RootReached(cmp: Cmp, s: seq<Page>, root: PageId, lv: seq<Level>, gap: Gap, u: nat, a: nat, z: nat,
                    spine: set<PageId>)
    requires Shape(cmp, s, root, lv, gap) && 1 <= u < |lv| && SpineIs(lv, u - 1, a, z, spine)
    ensures root in AllPages(lv) - spine
  {
    hide Leaves, Chain, Bounds, Parents, ZeroFirst, Distinct, Placed, AllPages;
    var top := |lv| - 1;
    assert Seen(lv, top, gap) == [Edge(NegInf, root)];
    assert Seen(lv, top, gap)[0].pid == root;
    var i := if gap.Gap? && gap.level == top && gap.at == 0 && |lv[top]| > 0 then 1 else 0;
    assert lv[top][i].pid == root;
    UpperReached(lv, u, a, z, spine);
  }

  /** A page outside the spine leads to pages outside the spine only. */
  lemma DropPage(cmp: Cmp, t: seq<Page>, root: PageId, lv: seq<Level>, gap: Gap, u: nat, j: nat, e: nat, s: seq<Page>,
                 a: nat, z: nat, spine: set<PageId>, q: nat, i: nat)
    requires Order(cmp) && Shape(cmp, t, root, lv, gap) && 1 <= u < |lv| && j < |lv[u]| && (gap.Gap? ==> gap.level >= u)
    requires Thinned(t, s) && Dropped(t, s, lv[u][j].pid, e)
    requires a == Offset(t, lv[u], j) + (e + 1) && z < |lv[0]| && |PageAt(t, lv[0][z].pid).recs| > 0
    requires lv[0][z].pid in spine && SpineIs(lv, u - 1, a, z, spine) && SpineShut(t, lv, u - 1, spine)
    requires q < |lv| && i < |lv[q]| && lv[q][i].pid !in spine
    ensures SealedPage(s, lv[q][i].pid, AllPages(lv) - spine, PageAt(t, lv[0][z].pid).recs[0].key)
  {
    var p := lv[q][i].pid;
    KindHere(cmp, t, root, lv, gap, q, i);
    assert ThinnedPage(t[p], s[p]);
    hide Shape, Order, Thinned, ToMap, SpineIs, SpineShut;
    if q == 0 {
      NotLost(cmp, t, root, lv, gap, z, i);
      assert PageAt(t, lv[0][i].pid) == t[p];
      ThinnedKeys(PageAt(t, lv[0][i].pid).recs, s[p].recs, PageAt(t, lv[0][z].pid).recs[0].key);
    } else {
      forall c | 0 <= c <= |s[p].recs|
        ensures ChildAt(s[p], c) in AllPages(lv) - spine
      {
        DropKid(cmp, t, root, lv, gap, u, j, e, s, a, z, spine, q, i, c);
      }
    }
  }

  lemma KindHere(cmp: Cmp, s: seq<Page>, root: PageId, lv: seq<Level>, gap: Gap, q: nat, i: nat)
    requires Shape(cmp, s, root, lv, gap) && q < |lv| && i < |lv[q]|
    ensures lv[q][i].pid < |s| && PageOk(s[lv[q][i].pid], q)
  {
  }

  /** No other leaf holds the lost key. */
  lemma NotLost(cmp: Cmp, s: seq<Page>, root: PageId, lv: seq<Level>, gap: Gap, z: nat, i: nat)
    requires Order(cmp) && Shape(cmp, s, root, lv, gap) && |lv| > 0 && z < |lv[0]| && i < |lv[0]| && i != z
    requires |PageAt(s, lv[0][z].pid).recs| > 0
    ensures forall t :: 0 <= t < |PageAt(s, lv[0][i].pid).recs| ==>
      PageAt(s, lv[0][i].pid).recs[t].key != PageAt(s, lv[0][z].pid).recs[0].key
  {
    LeafFacts(cmp, s, root, lv, gap, z);
    LeafFacts(cmp, s, root, lv, gap, i);
    LevelFacts(cmp, s, root, lv, gap, 0);
    hide Shape, Sorted, Ascending, Order;
    var lost := PageAt(s, lv[0][z].pid).recs[0].key;
    forall t | 0 <= t < |PageAt(s, lv[0][i].pid).recs|
      ensures PageAt(s, lv[0][i].pid).recs[t].key != lost
    {
      if PageAt(s, lv[0][i].pid).recs[t].key == lost {
        SpanUnique(cmp, lost, lv[0], i, z);
      }
    }
  }

  lemma ThinnedKeys(before: seq<Rec>, recs: seq<Rec>, k: Key)
    requires forall i :: 0 <= i < |recs| ==> recs[i] in before
    requires forall i :: 0 <= i < |before| ==> before[i].key != k
    ensures k !in ToMap(recs)
  {
    hide ToMap;
    ToMapKeys(recs, k);
  }

  lemma DropKid(cmp: Cmp, t: seq<Page>, root: PageId, lv: seq<Level>, gap: Gap, u: nat, j: nat, e: nat, s: seq<Page>,
                a: nat, z: nat, spine: set<PageId>, q: nat, i: nat, c: nat)
    requires Shape(cmp, t, root, lv, gap) && 1 <= u < |lv| && j < |lv[u]| && (gap.Gap? ==> gap.level >= u)
    requires 1 <= q < |lv| && i < |lv[q]| && lv[q][i].pid !in spine && lv[q][i].pid < |t| == |s|
    requires ThinnedPage(t[lv[q][i].pid], s[lv[q][i].pid]) && Dropped(t, s, lv[u][j].pid, e)
    requires a == Offset(t, lv[u], j) + (e + 1)
    requires SpineIs(lv, u - 1, a, z, spine) && SpineShut(t, lv, u - 1, spine)
    requires c <= |s[lv[q][i].pid].recs|
    ensures ChildAt(s[lv[q][i].pid], c) in AllPages(lv) - spine
  {
    hide Shape, AllPages, SpineIs, SpineShut, Dropped;
    var p := lv[q][i].pid;
    var d := ThinnedChild(t[p], s[p], c);
    var o := KidSomewhere(cmp, t, root, lv, gap, q, i, d);
    InAllPages(lv, q - 1, o);
    if q < u {
      ShutAt(t, lv, u - 1, spine, q, i, d);
    } else if q == u {
      KidHere(cmp, t, root, lv, gap, u, i, d);
      NotDropped(t, s, lv, u, j, e, spine, a, z, i, c, d);
    } else {
      UpperFree(lv, u, a, z, spine, q - 1, o);
    }
  }

  lemma InAllPages(lv: seq<Level>, q: nat, i: nat)
    requires q < |lv| && i < |lv[q]|
    ensures lv[q][i].pid in AllPages(lv)
  {
  }

  lemma UpperFree(lv: seq<Level>, u: nat, a: nat, z: nat, spine: set<PageId>, q: nat, i: nat)
    requires 1 <= u <= q < |lv| && i < |lv[q]| && SpineIs(lv, u - 1, a, z, spine)
    ensures lv[q][i].pid !in spine
  {
  }

  lemma ShutAt(s: seq<Page>, lv: seq<Level>, q: nat, spine: set<PageId>, p: nat, i: nat, c: nat)
    requires SpineShut(s, lv, q, spine) && 1 <= p <= q && p < |lv| && i < |lv[p]| && lv[p][i].pid !in spine
    requires c <= |PageAt(s, lv[p][i].pid).recs|
    ensures ChildAt(PageAt(s, lv[p][i].pid), c) !in spine
  {
  }

  /** A child of a page with fewer records was its child before, by the same record. */
  lemma ThinnedChild(p: Page, q: Page, c: nat) returns (d: nat)
    requires ThinnedPage(p, q) && c <= |q.recs|
    ensures d <= |p.recs| && ChildAt(p, d) == ChildAt(q, c)
    ensures c == 0 ==> d == 0
    ensures c > 0 ==> d > 0 && p.recs[d - 1] == q.recs[c - 1]
  {
    if c == 0 {
      d := 0;
    } else {
      var i :| 0 <= i < |p.recs| && p.recs[i] == q.recs[c - 1];
      d := i + 1;
    }
  }

  /** On the level of the page that lost a record, no child that is left is the lost one. */
  lemma NotDropped(t: seq<Page>, s: seq<Page>, lv: seq<Level>, u: nat, j: nat, e: nat, spine: set<PageId>, a: nat,
                   z: nat, i: nat, c: nat, d: nat)
    requires 1 <= u < |lv| && j < |lv[u]| && i < |lv[u]| && lv[u][i].pid < |t| == |s|
    requires Dropped(t, s, lv[u][j].pid, e) && a == Offset(t, lv[u], j) + (e + 1) && SpineIs(lv, u - 1, a, z, spine)
    requires c <= |s[lv[u][i].pid].recs| && d <= |t[lv[u][i].pid].recs|
    requires c == 0 ==> d == 0
    requires c > 0 ==> d > 0 && t[lv[u][i].pid].recs[d - 1] == s[lv[u][i].pid].recs[c - 1]
    requires Offset(t, lv[u], i) + d < |lv[u - 1]|
    ensures lv[u - 1][Offset(t, lv[u], i) + d].pid !in spine
  {
    if i != j {
      OtherOffset(t, lv[u], j, e + 1, i, d);
    }
  }

  // ---------------------------------------------------------------- a record dropped from a leaf

  ghost predicate PartOf(part: seq<Rec>, whole: seq<Rec>) {
    forall i :: 0 <= i < |part| ==> part[i] in whole
  }

  /** A record that neither half of a leaf kept is found nowhere. */
  lemma LeafDropSeals(cmp: Cmp, s0: seq<Page>, root: PageId, lv: seq<Level>, i: nat, all: seq<Rec>, t: nat,
                      s: seq<Page>, left: seq<Rec>, right: seq<Rec>)
    requires Order(cmp) && Shape(cmp, s0, root, lv, NoGap) && |lv| > 0 && i < |lv[0]| && LeafOk(cmp, all, lv[0], i)
    requires LeafSplit(s0, s, lv[0][i].pid, left, right) && PartOf(left, all) && PartOf(right, all)
    requires t < |all| && all[t] !in left && all[t] !in right
    ensures Sealed(s, root, AllPages(lv) + {|s0|}, all[t].key)
  {
    var reach, lost := AllPages(lv) + {|s0|}, all[t].key;
    PartLacks(cmp, all, t, left);
    PartLacks(cmp, all, t, right);
    assert SealedPage(s, |s0|, reach, lost);
    RootListed(cmp, s0, root, lv);
    hide Shape, Order, AllPages, LeafSplit, LeafOk, ToMap;
    forall p | p in reach && p != |s0|
      ensures SealedPage(s, p, reach, lost)
    {
      var q, j := PageListed(lv, p);
      LeafDropPage(cmp, s0, root, lv, i, all, t, s, left, right, q, j);
      SealedWider(s, p, AllPages(lv), {|s0|}, lost);
    }
    SealedIntro(s, root, reach, lost);
  }

  lemma PartLacks(cmp: Cmp, all: seq<Rec>, t: nat, part: seq<Rec>)
    requires Order(cmp) && Sorted(cmp, all) && t < |all| && PartOf(part, all) && all[t] !in part
    ensures all[t].key !in ToMap(part)
  {
    hide Sorted, Order, ToMap;
    forall i | 0 <= i < |part|
      ensures part[i].key != all[t].key
    {
      var j :| 0 <= j < |all| && all[j] == part[i];
      KeysDiffer(cmp, all, j, t);
    }
    ToMapKeys(part, all[t].key);
  }

  lemma RootListed(cmp: Cmp, s: seq<Page>, root: PageId, lv: seq<Level>)
    requires Shape(cmp, s, root, lv, NoGap)
    ensures root in AllPages(lv)
  {
    assert lv[|lv| - 1][0].pid == root;
  }

  lemma PageListed(lv: seq<Level>, p: PageId) returns (q: nat, j: nat)
    requires p in AllPages(lv)
    ensures q < |lv| && j < |lv[q]| && lv[q][j].pid == p
  {
    q, j :| 0 <= q < |lv| && 0 <= j < |lv[q]| && lv[q][j].pid == p;
  }

  lemma SealedWider(s: seq<Page>, p: PageId, reach: set<PageId>, more: set<PageId>, lost: Key)
    requires SealedPage(s, p, reach, lost)
    ensures SealedPage(s, p, reach + more, lost)
  {
  }

  lemma LeafDropPage(cmp: Cmp, s0: seq<Page>, root: PageId, lv: seq<Level>, i: nat, all: seq<Rec>, t: nat,
                     s: seq<Page>, left: seq<Rec>, right: seq<Rec>, q: nat, j: nat)
    requires Order(cmp) && Shape(cmp, s0, root, lv, NoGap) && |lv| > 0 && i < |lv[0]| && LeafOk(cmp, all, lv[0], i)
    requires LeafSplit(s0, s, lv[0][i].pid, left, right) && t < |all| && all[t].key !in ToMap(left)
    requires q < |lv| && j < |lv[q]|
    ensures SealedPage(s, lv[q][j].pid, AllPages(lv), all[t].key)
  {
    var p := lv[q][j].pid;
    KindHere(cmp, s0, root, lv, NoGap, q, j);
    AloneAt(cmp, s0, root, lv, NoGap, 0, i);
    assert p != lv[0][i].pid ==> s[p] == s0[p].(parent := s[p].parent, prev := s[p].prev);
    hide Shape, Order, AllPages, LeafSplit, ToMap, Alone;
    if q == 0 {
      if j != i {
        LeafLacks(cmp, s0, root, lv, i, all[t].key, j);
      }
    } else {
      assert p != lv[0][i].pid by { LeafApart(lv, i, q, j); }
      forall c | 0 <= c <= |s[p].recs|
        ensures ChildAt(s[p], c) in AllPages(lv)
      {
        var o := KidSomewhere(cmp, s0, root, lv, NoGap, q, j, c);
        InAllPages(lv, q - 1, o);
        assert ChildAt(s[p], c) == ChildAt(s0[p], c);
      }
    }
  }

  lemma LeafApart(lv: seq<Level>, i: nat, q: nat, j: nat)
    requires 0 < q < |lv| && i < |lv[0]| && j < |lv[q]| && Alone(lv, 0, i)
    ensures lv[q][j].pid != lv[0][i].pid
  {
  }

  lemma LeafLacks(cmp: Cmp, s: seq<Page>, root: PageId, lv: seq<Level>, i: nat, k: Key, j: nat)
    requires Order(cmp) && Shape(cmp, s, root, lv, NoGap) && |lv| > 0 && i < |lv[0]| && j < |lv[0]| && i != j
    requires InSpan(cmp, k, lv[0], i)
    ensures k !in ToMap(PageAt(s, lv[0][j].pid).recs)
  {
    LeafFacts(cmp, s, root, lv, NoGap, j);
    LevelFacts(cmp, s, root, lv, NoGap, 0);
    hide Shape, Sorted, Ascending, Order, ToMap;
    var recs := PageAt(s, lv[0][j].pid).recs;
    forall t | 0 <= t < |recs|
      ensures recs[t].key != k
    {
      if recs[t].key == k {
        SpanUnique(cmp, k, lv[0], i, j);
      }
    }
    ToMapKeys(recs, k);
  }

  // ---------------------------------------------------------------- what is lost stays lost

  lemma BlindInsert(cmp: Cmp, s: seq<Page>, root: PageId, reach: set<PageId>, lost: Key, p: PageId, sep: Key,
                    pid: PageId, s': seq<Page>)
    requires Sealed(s, root, reach, lost) && p in reach && p < |s| && s[p].kind == InternalPage && pid in reach
    requires s' == s[p := TakenUp(cmp, s[p], sep, pid)]
    ensures Sealed(s', root, reach, lost)
  {
    hide UpperPos, ToMap;
    var c0 := UpperPos(cmp, s[p].recs, sep);
    forall x | x in reach
      ensures SealedPage(s', x, reach, lost)
    {
      assert SealedPage(s, x, reach, lost);
      if x == p {
        forall c | 0 <= c <= |s'[p].recs|
          ensures ChildAt(s'[p], c) in reach
        {
          if c == c0 + 1 {
            assert ChildAt(s'[p], c) == pid;
          } else {
            assert ChildAt(s'[p], c) == ChildAt(s[p], if c <= c0 then c else c - 1);
          }
        }
      }
    }
  }

  lemma BlindCut(s: seq<Page>, root: PageId, reach: set<PageId>, lost: Key, p: PageId, mid: nat, left: seq<Rec>,
                 right: seq<Rec>, s': seq<Page>)
    requires Sealed(s, root, reach, lost) && p in reach && p < |s| && s[p].kind == InternalPage
    requires InternalParts(s, s', p, mid, left, right) && PartOf(left, s[p].recs) && PartOf(right, s[p].recs)
    ensures Sealed(s', root, reach + {|s|}, lost)
  {
    hide ToMap;
    var wide := reach + {|s|};
    forall x | x in wide
      ensures SealedPage(s', x, wide, lost)
    {
      assert SealedPage(s, p, reach, lost);
      if x == p {
        assert ChildAt(s[p], 0) == s'[p].firstChild;
        PartKids(s[p], s'[p], reach, left);
      } else if x == |s| {
        assert ChildAt(s[p], mid + 1) == s'[|s|].firstChild;
        PartKids(s[p], s'[|s|], reach, right);
      } else {
        assert SealedPage(s, x, reach, lost);
        SameChildAt(s[x], s'[x]);
      }
    }
  }

  /** A page with some of the records, and a first child that is reached, leads to reached pages. */
  lemma PartKids(p: Page, q: Page, reach: set<PageId>, part: seq<Rec>)
    requires forall c :: 0 <= c <= |p.recs| ==> ChildAt(p, c) in reach
    requires q.recs == part && PartOf(part, p.recs) && q.firstChild in reach
    ensures forall c :: 0 <= c <= |q.recs| ==> ChildAt(q, c) in reach
  {
    forall c | 0 < c <= |q.recs|
      ensures ChildAt(q, c) in reach
    {
      assert part[c - 1] in p.recs;
      var i :| 0 <= i < |p.recs| && p.recs[i] == q.recs[c - 1];
      assert ChildAt(p, i + 1) == ChildAt(q, c);
    }
  }

  lemma BlindGrow(s: seq<Page>, root: PageId, reach: set<PageId>, lost: Key, sep: Key, pid: PageId, recs: seq<Rec>,
                  s': seq<Page>)
    requires Sealed(s, root, reach, lost) && pid in reach
    requires RootParts(s, s', root, pid, recs) && PartOf(recs, [ChildRec(sep, pid)])
    ensures Sealed(s', |s|, reach + {|s|}, lost)
  {
    hide ToMap;
    var wide := reach + {|s|};
    forall x | x in wide
      ensures SealedPage(s', x, wide, lost)
    {
      if x == |s| {
        forall c | 0 < c <= |recs|
          ensures ChildAt(s'[|s|], c) == pid
        {
          assert recs[c - 1] == ChildRec(sep, pid);
        }
      } else {
        assert SealedPage(s, x, reach, lost);
        SameChildAt(s[x], s'[x]);
      }
    }
  }

  lemma KeptPart(recs: seq<Rec>)
    ensures PartOf(Kept(recs), recs)
  {
    forall i | 0 <= i < |Kept(recs)|
      ensures Kept(recs)[i] in recs
    {
      KeptMember(recs, i);
    }
  }

  // ---------------------------------------------------------------- the way up

  /** What a put is about: the root it started from, all records it should leave, and whether
      no page is going to drop one. */
  datatype Aim = Aim(root: PageId, recs: seq<Rec>, keeps: bool)

  /** How it stands: nothing dropped so far, or some key already out of reach. */
  datatype Outlook = Clear(lv: seq<Level>) | Blind(reach: set<PageId>, lost: Key)

  ghost predicate InSight(cmp: Cmp, a: Aim, b: Outlook, s: seq<Page>, path: seq<PageId>, k: Key, ix: seq<nat>,
                          r: nat, sep: Key, pid: PageId)
  {
    && r < |path|
    && match b
       case Clear(lv) =>
         && |lv| == |path| == |ix| && Climbing(cmp, s, a.root, lv, path, k, ix, r, sep, pid)
         && LeavesStocked(s, lv) && Records(s, lv[0]) == a.recs
         && AscentRefills(cmp, s, path, |path| - 2 - r, sep, pid) == if a.keeps then Whole else Drops
       case Blind(reach, lost) =>
         && !a.keeps && Sealed(s, a.root, reach, lost) && lost in ToMap(a.recs) && pid in reach
         && forall l :: 0 <= l <= |path| - 2 - r ==> path[l] in reach
  }

  /** All searches find what they should exactly if nothing was dropped. */
  ghost predicate Found(cmp: Cmp, a: Aim, s: seq<Page>, root: PageId) {
    a.keeps <==> forall x :: Lookup(cmp, s, root, x) == MapLookup(ToMap(a.recs), x)
  }

  lemma BlindEnds(cmp: Cmp, a: Aim, s: seq<Page>, root: PageId, reach: set<PageId>, lost: Key)
    requires !a.keeps && Sealed(s, root, reach, lost) && lost in ToMap(a.recs)
    ensures Found(cmp, a, s, root)
  {
    hide Sealed, Lookup, ToMap;
    SealedLookup(cmp, s, root, reach, lost);
    assert Lookup(cmp, s, root, lost) != MapLookup(ToMap(a.recs), lost);
  }

  lemma ClearEnds(cmp: Cmp, a: Aim, s: seq<Page>, root: PageId, lv: seq<Level>)
    requires a.keeps && Order(cmp) && Shape(cmp, s, root, lv, NoGap) && 0 < |lv| <= 34 && Records(s, lv[0]) == a.recs
    ensures Found(cmp, a, s, root)
  {
    hide Lookup, ToMap, Order, Shape, Records;
    forall x
      ensures Lookup(cmp, s, root, x) == MapLookup(ToMap(a.recs), x)
    {
      LookupIsContents(cmp, s, root, lv, x);
    }
  }

  lemma ClimbParts(cmp: Cmp, s: seq<Page>, root: PageId, lv: seq<Level>, path: seq<PageId>, k: Key,
                   ix: seq<nat>, r: nat, sep: Key, pid: PageId)
    requires Climbing(cmp, s, root, lv, path, k, ix, r, sep, pid)
    ensures Order(cmp) && r < |lv| == |ix| == |path| && pid + 1 == |s|
    ensures Shape(cmp, s, root, lv, Gap(r, ix[r] + 1)) && ix[r] + 1 < |lv[r]| && lv[r][ix[r] + 1].pid == pid
    ensures forall q :: r <= q < |lv| ==> ix[q] < |lv[q]| && lv[q][ix[q]].pid == path[|lv| - 1 - q]
  {
    hide Shape, Order;
    forall q | r <= q < |lv|
      ensures ix[q] < |lv[q]| && lv[q][ix[q]].pid == path[|lv| - 1 - q]
    {
      assert PassesAt(cmp, lv, path, k, ix, r, q);
    }
  }

  lemma SightTop(cmp: Cmp, a: Aim, b: Outlook, s: seq<Page>, path: seq<PageId>, k: Key, ix: seq<nat>,
                 r: nat, sep: Key, pid: PageId, s': seq<Page>)
    requires InSight(cmp, a, b, s, path, k, ix, r, sep, pid) && r + 1 == |path| <= 33
    requires RootParts(s, s', a.root, pid, Kept([ChildRec(sep, pid)]))
    ensures Found(cmp, a, s', |s|)
  {
    hide Climbing, Sealed, AscentRefills, Kept, RootParts, Records, ToMap, LeavesStocked, Found, Lookup;
    var rec := ChildRec(sep, pid);
    KeptFacts([rec]);
    KeptPart([rec]);
    match b {
      case Clear(lv) =>
        RefillsUnfold(cmp, s, path, -1, sep, pid);
        RefilledFacts([rec]);
        ClearTop(cmp, a, s, lv, path, k, ix, r, sep, pid, s');
      case Blind(reach, lost) =>
        BlindGrow(s, a.root, reach, lost, sep, pid, Kept([rec]), s');
        BlindEnds(cmp, a, s', |s|, reach + {|s|}, lost);
    }
  }

  lemma ClearTop(cmp: Cmp, a: Aim, s: seq<Page>, lv: seq<Level>, path: seq<PageId>, k: Key, ix: seq<nat>,
                 r: nat, sep: Key, pid: PageId, s': seq<Page>)
    requires |lv| == |path| == |ix| && r + 1 == |path| <= 33 && Climbing(cmp, s, a.root, lv, path, k, ix, r, sep, pid)
    requires LeavesStocked(s, lv) && Records(s, lv[0]) == a.recs
    requires RootParts(s, s', a.root, pid, Kept([ChildRec(sep, pid)]))
      && Shortened(Kept([ChildRec(sep, pid)]), [ChildRec(sep, pid)])
    requires a.keeps <==> Kept([ChildRec(sep, pid)]) == [ChildRec(sep, pid)]
    ensures Found(cmp, a, s', |s|)
  {
    hide Shape, Order, Records, ToMap, Found, Lookup, Kept, LeavesStocked, OnPath;
    var rec := ChildRec(sep, pid);
    var t := s'[|s| := s'[|s|].(recs := [rec])];
    var lvt: seq<Level> := lv + [TopLevel(s)];
    assert RootGrowth(s, t, a.root, Edge(From(sep), pid));
    ClimbGrow(cmp, s, a.root, lv, path, k, ix, r, sep, pid, t);
    if a.keeps {
      assert t == s';
      ClearEnds(cmp, a, s', |s|, lvt);
    } else {
      assert Kept([rec]) == [];
      assert lvt[0] == lv[0];
      TopHolds(s, t, a.root, lv, sep, pid);
      assert lvt[|lv|][0].pid == |s|;
      assert Thinned(t, s') && Dropped(t, s', |s|, 0);
      hide Thinned, Dropped;
      var reach, lost := InnerDropSeals(cmp, t, |s|, lvt, NoGap, |lv|, 0, 0, s');
      BlindEnds(cmp, a, s', |s|, reach, lost);
    }
  }

  lemma TopHolds(s: seq<Page>, t: seq<Page>, root: PageId, lv: seq<Level>, sep: Key, pid: PageId)
    requires LeavesStocked(s, lv) && RootGrowth(s, t, root, Edge(From(sep), pid))
    ensures LeavesStocked(t, lv + [TopLevel(s)])
  {
    forall i | 0 <= i < |lv[0]|
      ensures LeafStocked(t, lv[0], i)
    {
      assert LeafStocked(s, lv[0], i);
    }
  }

  lemma SightInsert(cmp: Cmp, a: Aim, b: Outlook, s: seq<Page>, path: seq<PageId>, k: Key, ix: seq<nat>,
                    r: nat, sep: Key, pid: PageId, s': seq<Page>)
    requires InSight(cmp, a, b, s, path, k, ix, r, sep, pid) && r + 1 < |path| <= 33
    requires var p := path[|path| - 2 - r];
      && p < |s| && s[p].kind == InternalPage && InsertFits(s[p].recs, ChildRec(sep, pid))
      && s' == s[p := TakenUp(cmp, s[p], sep, pid)]
    ensures Found(cmp, a, s', a.root)
  {
    hide Climbing, Sealed, AscentRefills, Records, ToMap, LeavesStocked, Found, Lookup, InsertFits, Fits, UpperPos,
      Shape, Loaded, Order;
    var level := |path| - 2 - r;
    match b {
      case Clear(lv) =>
        RefillsUnfold(cmp, s, path, level, sep, pid);
        ClimbParts(cmp, s, a.root, lv, path, k, ix, r, sep, pid);
        InsertFitsIffFits(s[path[level]].recs, UpperPos(cmp, s[path[level]].recs, sep), ChildRec(sep, pid));
        ClimbInsert(cmp, s, a.root, lv, path, k, ix, r, sep, pid, s');
        ClearEnds(cmp, a, s', a.root, lv);
      case Blind(reach, lost) =>
        BlindInsert(cmp, s, a.root, reach, lost, path[level], sep, pid, s');
        BlindEnds(cmp, a, s', a.root, reach, lost);
    }
  }

  lemma SightNext(cmp: Cmp, a: Aim, b: Outlook, s: seq<Page>, path: seq<PageId>, k: Key, ix: seq<nat>,
                  r: nat, sep: Key, pid: PageId, zv: seq<Page>, s': seq<Page>) returns (b': Outlook)
    requires InSight(cmp, a, b, s, path, k, ix, r, sep, pid) && r + 1 < |path|
    requires path[|path| - 2 - r] < |s| && s[path[|path| - 2 - r]].kind == InternalPage
    requires !InsertFits(s[path[|path| - 2 - r]].recs, ChildRec(sep, pid))
    requires zv == s[path[|path| - 2 - r] := TakenUp(cmp, s[path[|path| - 2 - r]], sep, pid)]
    requires var all := zv[path[|path| - 2 - r]].recs;
      && |all| / 2 < |all|
      && InternalParts(zv, s', path[|path| - 2 - r], |all| / 2, Kept(all[..|all| / 2]), Kept(all[|all| / 2 + 1..]))
    ensures var all := zv[path[|path| - 2 - r]].recs;
      InSight(cmp, a, b', s', path, k, ix, r + 1, all[|all| / 2].key, |s|)
  {
    hide Climbing, Sealed, AscentRefills, Records, ToMap, LeavesStocked, Kept, InternalParts, InsertFits, TakenUp,
      InternalRefilled;
    var level := |path| - 2 - r;
    var all := zv[path[level]].recs;
    var left, right := Kept(all[..|all| / 2]), Kept(all[|all| / 2 + 1..]);
    match b {
      case Clear(lv) =>
        RefillsUnfold(cmp, s, path, level, sep, pid);
        TakenUpRecs(cmp, s[path[level]], sep, pid);
        if InternalRefilled(all) == Whole {
          b' := ClearCut(cmp, a, s, lv, path, k, ix, r, sep, pid, zv, s');
        } else {
          b' := CutBlinds(cmp, a, s, lv, path, k, ix, r, sep, pid, zv, s');
        }
      case Blind(reach, lost) =>
        BlindInsert(cmp, s, a.root, reach, lost, path[level], sep, pid, zv) by { hide Sealed; }
        KeptPart(all[..|all| / 2]);
        KeptPart(all[|all| / 2 + 1..]);
        WiderPart(left, all, 0, |all| / 2);
        WiderPart(right, all, |all| / 2 + 1, |all|);
        StillInner(cmp, s[path[level]], sep, pid);
        BlindCut(zv, a.root, reach, lost, path[level], |all| / 2, left, right, s');
        b' := Blind(reach + {|s|}, lost);
    }
  }

  lemma StillInner(cmp: Cmp, p: Page, sep: Key, pid: PageId)
    ensures TakenUp(cmp, p, sep, pid).kind == p.kind
  {
  }

  lemma WiderPart(part: seq<Rec>, all: seq<Rec>, lo: nat, hi: nat)
    requires lo <= hi <= |all| && PartOf(part, all[lo..hi])
    ensures PartOf(part, all)
  {
  }

  lemma ClearCut(cmp: Cmp, a: Aim, s: seq<Page>, lv: seq<Level>, path: seq<PageId>, k: Key, ix: seq<nat>,
                 r: nat, sep: Key, pid: PageId, zv: seq<Page>, s': seq<Page>) returns (b': Outlook)
    requires |lv| == |path| == |ix| && r + 1 < |path| && Climbing(cmp, s, a.root, lv, path, k, ix, r, sep, pid)
    requires LeavesStocked(s, lv) && Records(s, lv[0]) == a.recs && path[|path| - 2 - r] < |s|
    requires zv == s[path[|path| - 2 - r] := TakenUp(cmp, s[path[|path| - 2 - r]], sep, pid)]
    requires var all := zv[path[|path| - 2 - r]].recs;
      && InternalRefilled(all) == Whole
      && AscentRefills(cmp, s, path, |path| - 3 - r, all[|all| / 2].key, pid + 1) == (if a.keeps then Whole else Drops)
      && InternalParts(zv, s', path[|path| - 2 - r], |all| / 2, Kept(all[..|all| / 2]), Kept(all[|all| / 2 + 1..]))
    ensures var all := zv[path[|path| - 2 - r]].recs;
      InSight(cmp, a, b', s', path, k, ix, r + 1, all[|all| / 2].key, |s|)
  {
    hide Climbing, AscentRefills, Records, ToMap, LeavesStocked, Kept, TakenUp, Loaded, AscentFits, InternalSplit;
    var all := zv[path[|path| - 2 - r]].recs;
    var e := Edge(From(all[|all| / 2].key), |s|);
    ClimbParts(cmp, s, a.root, lv, path, k, ix, r, sep, pid) by { hide Shape, Order; }
    assert InternalSplit(zv, s', path[|path| - 2 - r], |all| / 2) by { SplitOf(zv, s', path[|path| - 2 - r]); }
    ClimbCut(cmp, s, a.root, lv, path, k, ix, r, sep, pid, zv, s');
    var lv': seq<Level> := lv[r + 1 := InsertAt(lv[r + 1], ix[r + 1] + 1, e)];
    CutHolds(cmp, s, a.root, lv, path, k, ix, r, sep, pid, zv, s', |all| / 2, Kept(all[..|all| / 2]),
      Kept(all[|all| / 2 + 1..]), lv');
    b' := Clear(lv');
  }

  lemma SplitOf(s: seq<Page>, s': seq<Page>, pid: PageId)
    requires pid < |s| && s[pid].recs != [] && InternalRefilled(s[pid].recs) == Whole
    requires var all := s[pid].recs; InternalParts(s, s', pid, |all| / 2, Kept(all[..|all| / 2]),
      Kept(all[|all| / 2 + 1..]))
    ensures InternalSplit(s, s', pid, |s[pid].recs| / 2)
  {
    hide Kept, InternalParts, Refilled;
    var all := s[pid].recs;
    RefilledFacts(all[..|all| / 2]);
    RefilledFacts(all[|all| / 2 + 1..]);
  }

  /** The leaves are not touched by a cut further up. */
  lemma CutHolds(cmp: Cmp, s: seq<Page>, root: PageId, lv: seq<Level>, path: seq<PageId>, k: Key, ix: seq<nat>,
                 r: nat, sep: Key, pid: PageId, zv: seq<Page>, s': seq<Page>, mid: nat, left: seq<Rec>,
                 right: seq<Rec>, lv': seq<Level>)
    requires |lv| == |path| == |ix| && r + 1 < |path| && Climbing(cmp, s, root, lv, path, k, ix, r, sep, pid)
    requires LeavesStocked(s, lv) && path[|path| - 2 - r] < |s| && |lv'| == |lv| && lv'[0] == lv[0]
    requires zv == s[path[|path| - 2 - r] := TakenUp(cmp, s[path[|path| - 2 - r]], sep, pid)]
    requires InternalParts(zv, s', path[|path| - 2 - r], mid, left, right)
    ensures LeavesStocked(s', lv')
    ensures forall i :: 0 <= i < |lv[0]| ==> PageAt(s', lv[0][i].pid).recs == PageAt(s, lv[0][i].pid).recs
  {
    ClimbParts(cmp, s, root, lv, path, k, ix, r, sep, pid) by { hide Shape, Order; }
    var p := path[|path| - 2 - r];
    assert lv[r + 1][ix[r + 1]].pid == p;
    forall i | 0 <= i < |lv[0]|
      ensures LeafStocked(s', lv[0], i) && PageAt(s', lv[0][i].pid).recs == PageAt(s, lv[0][i].pid).recs
    {
      assert LeafStocked(s, lv[0], i);
      LeafBelow(cmp, s, root, lv, Gap(r, ix[r] + 1), r + 1, ix[r + 1], i);
    }
  }

  lemma LeafBelow(cmp: Cmp, s: seq<Page>, root: PageId, lv: seq<Level>, gap: Gap, u: nat, j: nat, i: nat)
    requires Shape(cmp, s, root, lv, gap) && 1 <= u < |lv| && j < |lv[u]| && i < |lv[0]|
    ensures lv[0][i].pid < |s| && lv[0][i].pid != lv[u][j].pid
  {
    AloneAt(cmp, s, root, lv, gap, u, j);
    KindHere(cmp, s, root, lv, gap, 0, i);
  }

  /** A cut that drops a separator leaves a key out of sight. */
  lemma CutBlinds(cmp: Cmp, a: Aim, s: seq<Page>, lv: seq<Level>, path: seq<PageId>, k: Key, ix: seq<nat>,
                  r: nat, sep: Key, pid: PageId, zv: seq<Page>, s': seq<Page>) returns (b': Outlook)
    requires |lv| == |path| == |ix| && r + 1 < |path| && Climbing(cmp, s, a.root, lv, path, k, ix, r, sep, pid)
    requires LeavesStocked(s, lv) && Records(s, lv[0]) == a.recs && !a.keeps && path[|path| - 2 - r] < |s|
    requires zv == s[path[|path| - 2 - r] := TakenUp(cmp, s[path[|path| - 2 - r]], sep, pid)]
    requires var all := zv[path[|path| - 2 - r]].recs;
      && all != [] && InternalRefilled(all) == Drops
      && InternalParts(zv, s', path[|path| - 2 - r], |all| / 2, Kept(all[..|all| / 2]), Kept(all[|all| / 2 + 1..]))
    ensures var all := zv[path[|path| - 2 - r]].recs;
      InSight(cmp, a, b', s', path, k, ix, r + 1, all[|all| / 2].key, |s|)
  {
    hide Climbing, Shape, Order, Kept, ToMap, Records, Sealed, LeavesStocked, InternalParts, InternalRefilled,
      TakenUp, Sorted;
    TakenFacts(cmp, a, s, lv, path, k, ix, r, sep, pid, zv);
    var reach, lost := CutLoses(cmp, zv, a.root, lv, r + 1, ix[r + 1], s', a.recs);
    b' := Blind(reach, lost);
    forall l | 0 <= l <= |path| - 3 - r
      ensures path[l] in reach
    {
      assert lv[|lv| - 1 - l][ix[|lv| - 1 - l]].pid == path[l];
    }
  }

  /** The tree with the pending page taken up, whether or not there is room for it. */
  lemma TakenFacts(cmp: Cmp, a: Aim, s: seq<Page>, lv: seq<Level>, path: seq<PageId>, k: Key, ix: seq<nat>,
                   r: nat, sep: Key, pid: PageId, zv: seq<Page>)
    requires |lv| == |path| == |ix| && r + 1 < |path| && Climbing(cmp, s, a.root, lv, path, k, ix, r, sep, pid)
    requires LeavesStocked(s, lv) && Records(s, lv[0]) == a.recs && path[|path| - 2 - r] < |s|
    requires zv == s[path[|path| - 2 - r] := TakenUp(cmp, s[path[|path| - 2 - r]], sep, pid)]
    ensures Order(cmp) && |zv| == |s| && Shape(cmp, zv, a.root, lv, NoGap)
    ensures LeavesStocked(zv, lv) && Records(zv, lv[0]) == a.recs
    ensures Sorted(cmp, zv[path[|path| - 2 - r]].recs)
    ensures forall q :: r < q < |lv| ==> ix[q] < |lv[q]| && lv[q][ix[q]].pid == path[|lv| - 1 - q]
  {
    var p := path[|path| - 2 - r];
    hide Climbing, Shape, Order, Records, TakenUp, Sorted, LeavesStocked, PageAt;
    ClimbParts(cmp, s, a.root, lv, path, k, ix, r, sep, pid);
    TakeUpShape(cmp, s, a.root, lv, path, k, ix, r, sep, pid, zv);
    assert lv[r + 1][ix[r + 1]].pid == p;
    TakenSorted(cmp, zv, a.root, lv, r + 1, ix[r + 1]);
    TakenLeaves(cmp, s, a.root, lv, Gap(r, ix[r] + 1), r + 1, ix[r + 1], zv);
  }

  lemma TakenSorted(cmp: Cmp, s: seq<Page>, root: PageId, lv: seq<Level>, q: nat, j: nat)
    requires Shape(cmp, s, root, lv, NoGap) && 1 <= q < |lv| && j < |lv[q]| && lv[q][j].pid < |s|
    ensures Sorted(cmp, s[lv[q][j].pid].recs)
  {
    hide Shape, Sorted;
    PageSorted(cmp, s, root, lv, NoGap, q, j);
  }

  lemma TakenLeaves(cmp: Cmp, s: seq<Page>, root: PageId, lv: seq<Level>, gap: Gap, u: nat, j: nat, zv: seq<Page>)
    requires Shape(cmp, s, root, lv, gap) && 1 <= u < |lv| && j < |lv[u]| && lv[u][j].pid < |s| == |zv|
    requires zv == s[lv[u][j].pid := zv[lv[u][j].pid]] && LeavesStocked(s, lv)
    ensures LeavesStocked(zv, lv) && Records(zv, lv[0]) == Records(s, lv[0])
  {
    hide Shape, Records;
    forall i | 0 <= i < |lv[0]|
      ensures LeafStocked(zv, lv[0], i) && PageAt(zv, lv[0][i].pid).recs == PageAt(s, lv[0][i].pid).recs
    {
      assert LeafStocked(s, lv[0], i);
      LeafBelow(cmp, s, root, lv, gap, u, j, i);
    }
    RecordsFrame(s, zv, lv[0]);
  }

  /** A page cut in halves that did not keep everything: some key is out of reach from every page
      further up and from the new page. */
  lemma CutLoses(cmp: Cmp, zv: seq<Page>, root: PageId, lv: seq<Level>, u: nat, j: nat, s': seq<Page>, recs: seq<Rec>)
    returns (reach: set<PageId>, lost: Key)
    requires Order(cmp) && Shape(cmp, zv, root, lv, NoGap) && 1 <= u < |lv| && j < |lv[u]| && lv[u][j].pid < |zv|
    requires LeavesStocked(zv, lv) && Records(zv, lv[0]) == recs && Sorted(cmp, zv[lv[u][j].pid].recs)
    requires var all := zv[lv[u][j].pid].recs;
      && all != [] && InternalRefilled(all) == Drops
      && InternalParts(zv, s', lv[u][j].pid, |all| / 2, Kept(all[..|all| / 2]), Kept(all[|all| / 2 + 1..]))
    ensures Sealed(s', root, reach, lost) && lost in ToMap(recs) && |zv| in reach
    ensures forall q, i {:trigger lv[q][i]} :: u < q < |lv| && 0 <= i < |lv[q]| ==> lv[q][i].pid in reach
  {
    hide Shape, Order, Kept, Records, ToMap, LeavesStocked, Thinned, Dropped, InternalParts, InternalSplit, CutLevels,
      InternalRefilled, Sorted, Sealed, PageAt, Seen;
    var p, all := lv[u][j].pid, zv[lv[u][j].pid].recs;
    var t := IdealCut(zv, s', p, |all| / 2, Kept(all[..|all| / 2]), Kept(all[|all| / 2 + 1..]));
    var lvt := IdealTree(cmp, zv, root, lv, u, j, |all| / 2, t);
    var q, e := DropPlace(cmp, t, s', p, |zv|, all, |all| / 2);
    reach, lost := InnerDropSeals(cmp, t, root, lvt, Gap(u, j + 1), u, if q then j + 1 else j, e, s');
    assert lvt[u][j + 1].pid in reach;
    forall q, i {:trigger lv[q][i]} | u < q < |lv| && 0 <= i < |lv[q]|
      ensures lv[q][i].pid in reach
    {
      assert lvt[q][i] == lv[q][i];
    }
  }

  /** The tree as the cut would have left it. */
  lemma IdealTree(cmp: Cmp, zv: seq<Page>, root: PageId, lv: seq<Level>, u: nat, j: nat, mid: nat, t: seq<Page>)
    returns (lvt: seq<Level>)
    requires Order(cmp) && Shape(cmp, zv, root, lv, NoGap) && 1 <= u < |lv| && j < |lv[u]|
    requires InternalSplit(zv, t, lv[u][j].pid, mid) && LeavesStocked(zv, lv)
    ensures Shape(cmp, t, root, lvt, Gap(u, j + 1)) && LeavesStocked(t, lvt) && Records(t, lvt[0]) == Records(zv, lv[0])
    ensures |lvt| == |lv| && j + 1 < |lvt[u]| && lvt[u][j].pid == lv[u][j].pid && lvt[u][j + 1].pid == |zv|
    ensures forall q :: u < q < |lv| ==> lvt[q] == lv[q]
  {
    hide Shape, Order, Records, LeavesStocked, InternalSplit, CutLevels, Seen;
    SplitInRange(zv, t, lv[u][j].pid, mid);
    CuttableIntro(cmp, zv, root, lv, u, j, mid, t);
    CutShape(cmp, zv, root, lv, u, j, mid, t);
    CutLevelsAre(zv, lv, u, j, mid);
    lvt := CutLevels(zv, lv, u, j, mid);
    IdealLeaves(cmp, zv, root, lv, u, j, mid, t, lvt);
  }

  lemma IdealLeaves(cmp: Cmp, zv: seq<Page>, root: PageId, lv: seq<Level>, u: nat, j: nat, mid: nat, t: seq<Page>,
                    lvt: seq<Level>)
    requires Shape(cmp, zv, root, lv, NoGap) && 1 <= u < |lv| && j < |lv[u]| && InternalSplit(zv, t, lv[u][j].pid, mid)
    requires LeavesStocked(zv, lv) && |lvt| == |lv| && lvt[0] == lv[0]
    ensures LeavesStocked(t, lvt) && Records(t, lvt[0]) == Records(zv, lv[0])
  {
    hide Shape, Records, InternalSplit;
    forall i | 0 <= i < |lv[0]|
      ensures LeafStocked(t, lv[0], i) && PageAt(t, lv[0][i].pid).recs == PageAt(zv, lv[0][i].pid).recs
    {
      assert LeafStocked(zv, lv[0], i);
      LeafBelow(cmp, zv, root, lv, NoGap, u, j, i);
      CutSameKids(zv, t, lv[u][j].pid, mid, lv[0][i].pid);
    }
    RecordsFrame(zv, t, lv[0]);
  }

  lemma CuttableIntro(cmp: Cmp, s: seq<Page>, root: PageId, lv: seq<Level>, u: nat, j: nat, mid: nat, s': seq<Page>)
    requires Order(cmp) && Shape(cmp, s, root, lv, NoGap) && 1 <= u < |lv| && j < |lv[u]|
    requires InternalSplit(s, s', lv[u][j].pid, mid)
    ensures Cuttable(cmp, s, root, lv, u, j, mid, s')
  {
  }

  /** The store as the cut would have left it, had the pages kept everything. */
  lemma IdealCut(zv: seq<Page>, s': seq<Page>, p: PageId, mid: nat, left: seq<Rec>, right: seq<Rec>)
    returns (t: seq<Page>)
    requires InternalParts(zv, s', p, mid, left, right)
    requires var all := zv[p].recs; left == Kept(all[..mid]) && right == Kept(all[mid + 1..])
    ensures p < |zv| && mid < |zv[p].recs| && InternalSplit(zv, t, p, mid) && Thinned(t, s')
    ensures var all := zv[p].recs; InternalParts(zv, t, p, mid, all[..mid], all[mid + 1..])
    ensures |s'| == |t| == |zv| + 1 && t[p].recs == zv[p].recs[..mid] && t[|zv|].recs == zv[p].recs[mid + 1..]
    ensures s'[p].recs == left && s'[|zv|].recs == right
  {
    hide Kept;
    var all := zv[p].recs;
    t := s'[p := s'[p].(recs := all[..mid])][|zv| := s'[|zv|].(recs := all[mid + 1..])];
    KeptPart(all[..mid]);
    KeptPart(all[mid + 1..]);
  }

  /** Which page dropped a record, and which one. */
  lemma DropPlace(cmp: Cmp, t: seq<Page>, s': seq<Page>, p: PageId, n: PageId, all: seq<Rec>, mid: nat)
    returns (q: bool, e: nat)
    requires Order(cmp) && Sorted(cmp, all) && all != [] && mid == |all| / 2 && InternalRefilled(all) == Drops
    requires p < n < |t| == |s'| && t[p].recs == all[..mid] && t[n].recs == all[mid + 1..]
    requires s'[p].recs == Kept(all[..mid]) && s'[n].recs == Kept(all[mid + 1..])
    ensures Dropped(t, s', if q then n else p, e)
  {
    hide Kept, Order, Refilled;
    forall i, h | 0 <= i < h < |all|
      ensures all[i] != all[h]
    {
      hide Sorted;
      KeysDiffer(cmp, all, i, h);
    }
    RefilledFacts(all[..mid]);
    RefilledFacts(all[mid + 1..]);
    q := Kept(all[..mid]) == all[..mid];
    if q {
      e := DroppedRecord(all[mid + 1..]);
    } else {
      e := DroppedRecord(all[..mid]);
    }
  }

  // ---------------------------------------------------------------- the start

  /** A full leaf was halved without a loss: the climb starts, all leaves hold something. */
  lemma KeptStart(cmp: Cmp, s: seq<Page>, root: PageId, lv: seq<Level>, path: seq<PageId>, k: Key, ix: seq<nat>,
                  all: seq<Rec>, s': seq<Page>)
    returns (lv': seq<Level>)
    requires TreeOk(cmp, s, root, lv) && 0 < |lv| && TreeSteps(cmp, lv, path, k, ix, 0)
    requires LeafOk(cmp, all, lv[0], ix[0]) && LeafRecs(all) && |all| >= 2
    requires LeafSplit(s, s', lv[0][ix[0]].pid, all[..|all| / 2], all[|all| / 2..])
    ensures |lv'| == |path| == |ix|
    ensures var sep := all[|all| / 2].key;
      && Climbing(cmp, s', root, lv', path, k, ix, 0, sep, |s|) && LeavesStocked(s', lv')
      && AscentRefills(cmp, s', path, |path| - 2, sep, |s|) == AscentRefills(cmp, s, path, |path| - 2, sep, |s|)
    ensures Records(s', lv'[0]) == Wanted(s, lv[0], ix[0], all)
  {
    hide Shape, Order, Records, LeafOk, LeafSplit, Halves, Climbing, AscentRefills, AscentFits, InSpan, LeavesStocked,
      Filled, Room, TreeSteps, Placed, Distinct, Linked;
    StepsAt(cmp, lv, path, k, ix);
    var i, left, right := ix[0], all[..|all| / 2], all[|all| / 2..];
    LevelFacts(cmp, s, root, lv, NoGap, 0);
    ShapeParts(cmp, s, root, lv, NoGap);
    HalvesOf(cmp, lv[0], i, all);
    LeafSplitShape(cmp, s, root, lv, i, left, right, s');
    ClimbStart(cmp, s, root, lv, path, k, ix, left, right, s');
    LeafSplitRecords(s, lv[0], i, right[0].key, left, right, s');
    assert left + right == all;
    lv' := lv[0 := SplitLevel(lv[0], i, right[0].key, |s|)];
    SplitHolds(cmp, s, root, lv, i, left, right, s', lv');
  }

  lemma HalvesOf(cmp: Cmp, es: Level, i: nat, all: seq<Rec>)
    requires i < |es| && LeafOk(cmp, all, es, i) && LeafRecs(all) && |all| >= 2
    ensures Halves(cmp, es, i, all[..|all| / 2], all[|all| / 2..])
  {
    hide LeafOk;
    assert all[..|all| / 2] + all[|all| / 2..] == all;
  }

  lemma SplitHolds(cmp: Cmp, s: seq<Page>, root: PageId, lv: seq<Level>, i: nat, left: seq<Rec>, right: seq<Rec>,
                   s': seq<Page>, lv': seq<Level>)
    requires TreeOk(cmp, s, root, lv) && 0 < |lv| && i < |lv[0]| && LeafSplit(s, s', lv[0][i].pid, left, right)
    requires left != [] && right != [] && lv' == lv[0 := SplitLevel(lv[0], i, right[0].key, |s|)]
    ensures LeavesStocked(s', lv')
  {
    LevelFacts(cmp, s, root, lv, NoGap, 0);
    assert |lv| == 1 ==> lv[0] == [Edge(NegInf, root)];
    hide Shape, Order, Room;
    forall h | 0 <= h < |lv'[0]|
      ensures LeafStocked(s', lv'[0], h)
    {
      if h != i && h != i + 1 {
        var before := if h < i then h else h - 1;
        assert lv'[0][h] == lv[0][before];
        assert |PageAt(s, lv[0][before].pid).recs| > 0;
      }
    }
  }

  /** The start of the way up, whatever the halves of the leaf kept. A record alone in its leaf
      that was taken without room for its slot is the one case not followed. */
  lemma LeafStart(cmp: Cmp, s: seq<Page>, root: PageId, lv: seq<Level>, path: seq<PageId>, k: Key, ix: seq<nat>,
                  all: seq<Rec>, s': seq<Page>)
    returns (b: Outlook)
    requires TreeOk(cmp, s, root, lv) && 0 < |lv| && TreeSteps(cmp, lv, path, k, ix, 0)
    requires LeafOk(cmp, all, lv[0], ix[0]) && LeafRecs(all) && all != [] && (LeafRefilled(all) == Whole ==> |all| >= 2)
    requires LeafSplit(s, s', lv[0][ix[0]].pid, Kept(all[..|all| / 2]), Kept(all[|all| / 2..]))
    ensures 0 < |path| && ix[0] < |lv[0]|
    ensures var sep := all[|all| / 2].key;
      var fate := Worse(LeafRefilled(all), AscentRefills(cmp, s, path, |path| - 2, sep, |s|));
      fate != Overlaps ==>
        InSight(cmp, Aim(root, Wanted(s, lv[0], ix[0], all), fate == Whole), b, s', path, k, ix, 0, sep, |s|)
  {
    hide TreeOk, Records, Wanted, LeafSplit, Climbing, AscentRefills, InSpan, LeavesStocked, Kept, TreeSteps, Sealed,
      ToMap, LeafOk;
    StepsAt(cmp, lv, path, k, ix);
    b := Clear(lv);
    var fate := Worse(LeafRefilled(all), AscentRefills(cmp, s, path, |path| - 2, all[|all| / 2].key, |s|));
    if fate == Overlaps {
      return;
    }
    if LeafRefilled(all) == Whole {
      LeafWhole(all);
      var lv' := KeptStart(cmp, s, root, lv, path, k, ix, all, s');
      b := Clear(lv');
    } else {
      var t := LeafLost(cmp, s, root, lv, ix[0], all, s');
      b := Blind(AllPages(lv) + {|s|}, all[t].key);
      PathListed(cmp, lv, path, k, ix);
    }
  }

  lemma PathListed(cmp: Cmp, lv: seq<Level>, path: seq<PageId>, k: Key, ix: seq<nat>)
    requires 0 < |lv| && TreeSteps(cmp, lv, path, k, ix, 0)
    ensures forall l :: 0 <= l < |path| ==> path[l] in AllPages(lv)
  {
    hide InSpan, AllPages;
    forall l | 0 <= l < |path|
      ensures path[l] in AllPages(lv)
    {
      var q := |lv| - 1 - l;
      assert lv[q][ix[q]].pid == path[|lv| - 1 - q];
      InAllPages(lv, q, ix[q]);
    }
  }

  lemma LeafLost(cmp: Cmp, s: seq<Page>, root: PageId, lv: seq<Level>, i: nat, all: seq<Rec>, s': seq<Page>)
    returns (t: nat)
    requires TreeOk(cmp, s, root, lv) && 0 < |lv| && i < |lv[0]| && LeafOk(cmp, all, lv[0], i)
    requires LeafSplit(s, s', lv[0][i].pid, Kept(all[..|all| / 2]), Kept(all[|all| / 2..]))
      && LeafRefilled(all) == Drops
    ensures t < |all| && Sealed(s', root, AllPages(lv) + {|s|}, all[t].key)
    ensures all[t].key in ToMap(Wanted(s, lv[0], i, all))
  {
    hide Shape, Order, Kept, LeafSplit, Sealed, ToMap, Records, InSpan, Refilled;
    var mid := |all| / 2;
    var left, right := Kept(all[..mid]), Kept(all[mid..]);
    RefilledFacts(all[..mid]);
    RefilledFacts(all[mid..]);
    t := LeafDropPlace(cmp, all, mid);
    KeptPart(all[..mid]);
    KeptPart(all[mid..]);
    WiderPart(left, all, 0, mid);
    WiderPart(right, all, mid, |all|);
    LeafDropSeals(cmp, s, root, lv, i, all, t, s', left, right);
    var want := Wanted(s, lv[0], i, all);
    assert want[|Records(s, lv[0][..i])| + t] == all[t];
    ToMapKeys(want, all[t].key);
  }

  lemma LeafWhole(all: seq<Rec>)
    requires LeafRefilled(all) == Whole
    ensures Kept(all[..|all| / 2]) == all[..|all| / 2] && Kept(all[|all| / 2..]) == all[|all| / 2..]
  {
    hide Kept, Refilled;
    RefilledFacts(all[..|all| / 2]);
    RefilledFacts(all[|all| / 2..]);
  }

  lemma LeafDropPlace(cmp: Cmp, all: seq<Rec>, mid: nat) returns (t: nat)
    requires Order(cmp) && Sorted(cmp, all) && mid <= |all|
    requires Kept(all[..mid]) != all[..mid] || Kept(all[mid..]) != all[mid..]
    ensures t < |all| && all[t] !in Kept(all[..mid]) && all[t] !in Kept(all[mid..])
  {
    hide Kept, Order;
    forall i, h | 0 <= i < h < |all|
      ensures all[i] != all[h]
    {
      hide Sorted;
      KeysDiffer(cmp, all, i, h);
    }
    KeptPart(all[..mid]);
    KeptPart(all[mid..]);
    if Kept(all[..mid]) != all[..mid] {
      t := DroppedRecord(all[..mid]);
    } else {
      var e := DroppedRecord(all[mid..]);
      t := mid + e;
      assert all[mid..][e] == all[t];
    }
  }
}
