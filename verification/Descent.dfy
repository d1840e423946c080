/** From the root to a leaf (src/btree.c:115-198), and what a lookup finds there. */
module Descent {
  import opened Comparator
  import opened Pages
  import opened Levels
  import opened Frames
  import opened Search
  import opened Contents

  const BTREE_MAX_DEPTH := 64

  datatype Option<T> = None | Some(value: T)

  /** The pages visited on the way down from `pid`, at most `fuel` steps. */
  function PathOf(cmp: Cmp, s: seq<Page>, pid: PageId, k: Key, fuel: nat): (path: seq<PageId>)
    ensures |path| > 0 && path[0] == pid
    decreases fuel
  {
    var p := PageAt(s, pid);
    if fuel == 0 || p.kind == LeafPage then [pid]
    else [pid] + PathOf(cmp, s, ChildAt(p, UpperPos(cmp, p.recs, k)), k, fuel - 1)
  }

  function FullPath(cmp: Cmp, s: seq<Page>, root: PageId, k: Key): seq<PageId> {
    PathOf(cmp, s, root, k, BTREE_MAX_DEPTH - 1)
  }

  /** From level `from` upwards, the path visits the pages whose spans hold the key. */
  ghost predicate TreeSteps(cmp: Cmp, lv: seq<Level>, path: seq<PageId>, k: Key, ix: seq<nat>, from: nat) {
    && |lv| == |ix| == |path|
    && (forall q :: from <= q < |lv| ==>
      ix[q] < |lv[q]| && InSpan(cmp, k, lv[q], ix[q]) && lv[q][ix[q]].pid == path[|lv| - 1 - q])
  }

  /** What a search of the tree below `root` finds for `k`. */
  ghost function Lookup(cmp: Cmp, s: seq<Page>, root: PageId, k: Key): Option<Value> {
    var path := FullPath(cmp, s, root, k);
    var p := PageAt(s, path[|path| - 1]);
    if p.kind == LeafPage then MapLookup(ToMap(p.recs), k) else None
  }

  ghost function MapLookup(m: map<Key, Value>, k: Key): Option<Value> {
    if k in m then Some(m[k]) else None
  }

  /** The records of an internal page are sorted by separator. */
  lemma PageSorted(cmp: Cmp, s: seq<Page>, root: PageId, lv: seq<Level>, gap: Gap, q: nat, j: nat)
    requires Shape(cmp, s, root, lv, gap) && 1 <= q < |lv| && j < |lv[q]|
    ensures Sorted(cmp, PageAt(s, lv[q][j].pid).recs)
  {
    hide Leaves, Chain, Parents, Bounds, Placed, Distinct, Expand, Kids, ZeroFirst, Ascending;
    LevelFacts(cmp, s, root, lv, gap, q - 1);
    assert Expand(s, lv[q]) == Seen(lv, q - 1, gap);
    hide Linked;
    var recs := PageAt(s, lv[q][j].pid).recs;
    forall a, b | 0 <= a < b < |recs|
      ensures Lt(cmp, recs[a].key, recs[b].key)
    {
      KidBound(s, lv[q], j, a);
      KidBound(s, lv[q], j, b);
      SeenAscending(cmp, lv, q - 1, gap, Offset(s, lv[q], j) + a + 1, Offset(s, lv[q], j) + b + 1);
    }
  }

  lemma KidBound(s: seq<Page>, es: Level, j: nat, a: nat)
    requires j < |es| && a < |PageAt(s, es[j].pid).recs|
    ensures Offset(s, es, j) + a + 1 < |Expand(s, es)|
    ensures Expand(s, es)[Offset(s, es, j) + a + 1] ==
      Edge(From(PageAt(s, es[j].pid).recs[a].key), ChildOf(PageAt(s, es[j].pid).recs[a]))
  {
    ExpandAt(s, es, j, a + 1);
  }

  lemma SeenAscending(cmp: Cmp, lv: seq<Level>, q: nat, gap: Gap, a: nat, b: nat)
    requires q < |lv| && Ascending(cmp, lv[q]) && a < b < |Seen(lv, q, gap)|
    ensures BoundLt(cmp, Seen(lv, q, gap)[a].lo, Seen(lv, q, gap)[b].lo)
  {
  }

  /** The path of a key visits one page per level: the one whose span holds the key. */
  lemma {:induction false} PathPlaces(cmp: Cmp, s: seq<Page>, root: PageId, lv: seq<Level>, k: Key, q: nat, i: nat,
                                      fuel: nat) returns (ix: seq<nat>)
    requires Order(cmp) && Shape(cmp, s, root, lv, NoGap)
    requires q < |lv| && InSpan(cmp, k, lv[q], i) && q <= fuel
    ensures |ix| == q + 1 && ix[q] == i
    ensures forall r :: 0 <= r <= q ==> ix[r] < |lv[r]| && InSpan(cmp, k, lv[r], ix[r])
    ensures |PathOf(cmp, s, lv[q][i].pid, k, fuel)| == q + 1
    ensures forall r :: 0 <= r <= q ==> lv[r][ix[r]].pid == PathOf(cmp, s, lv[q][i].pid, k, fuel)[q - r]
    decreases q
  {
    hide Leaves, Chain, Parents, Bounds, Distinct, Expand, Kids;
    var pid := lv[q][i].pid;
    assert PageOk(s[pid], q);
    if q == 0 {
      ix := [i];
    } else {
      var p := s[pid];
      var c := UpperPos(cmp, p.recs, k);
      PageSorted(cmp, s, root, lv, NoGap, q, i);
      UpperPosIsUpper(cmp, p.recs, k);
      assert Expand(s, lv[q]) == Seen(lv, q - 1, NoGap);
      DescendInSpan(cmp, s, lv[q], k, i, c);
      var child := Offset(s, lv[q], i) + c;
      KidAt(lv[q][i].lo, p, c);
      var below := PathPlaces(cmp, s, root, lv, k, q - 1, child, fuel - 1);
      ix := below + [i];
    }
  }

  lemma KidAt(lo: Bound, p: Page, c: nat)
    requires c <= |p.recs|
    ensures c < |Kids(lo, p)| && Kids(lo, p)[c].pid == ChildAt(p, c)
  {
  }

  /** The whole path, from the root. */
  lemma RootPath(cmp: Cmp, s: seq<Page>, root: PageId, lv: seq<Level>, k: Key) returns (ix: seq<nat>)
    requires Order(cmp) && Shape(cmp, s, root, lv, NoGap) && |lv| <= BTREE_MAX_DEPTH
    ensures |ix| == |lv| == |FullPath(cmp, s, root, k)|
    ensures forall r :: 0 <= r < |lv| ==> ix[r] < |lv[r]| && InSpan(cmp, k, lv[r], ix[r])
    ensures forall r :: 0 <= r < |lv| ==> lv[r][ix[r]].pid == FullPath(cmp, s, root, k)[|lv| - 1 - r]
  {
    assert lv[|lv| - 1] == [Edge(NegInf, root)];
    hide Shape;
    ix := PathPlaces(cmp, s, root, lv, k, |lv| - 1, 0, BTREE_MAX_DEPTH - 1);
  }

  /** A search finds exactly what the leaves hold. */
  lemma LookupIsContents(cmp: Cmp, s: seq<Page>, root: PageId, lv: seq<Level>, k: Key)
    requires Order(cmp) && Shape(cmp, s, root, lv, NoGap) && |lv| <= BTREE_MAX_DEPTH
    ensures Lookup(cmp, s, root, k) == MapLookup(ToMap(Records(s, lv[0])), k)
  {
    var ix := RootPath(cmp, s, root, lv, k);
    LevelFacts(cmp, s, root, lv, NoGap, 0);
    hide Chain, Parents, Bounds, Distinct, Expand, Kids, ToMap, Records, Linked, FullPath;
    assert PageOk(s[lv[0][ix[0]].pid], 0);
    assert lv[0][ix[0]].pid == FullPath(cmp, s, root, k)[|lv| - 1];
    assert s[lv[0][ix[0]].pid].kind == LeafPage;
    LookupInLeaf(cmp, s, lv[0], k, ix[0]);
  }
}
