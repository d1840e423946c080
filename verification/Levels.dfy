/** The shape of a B+ tree in a page store, written level by level.

    A level is the left-to-right list of its pages, each with the lower bound of
    the keys below it. A level is what one gets by replacing every page of the
    level above by its children, so the separators, the uniform depth and the
    order of the leaves are one equation per level. */
module Levels {
  import opened Comparator
  import opened Pages
  import opened Lists

  datatype Bound = NegInf | From(key: Key)

  /** A page together with the lower bound of the keys that live below it. */
  datatype Edge = Edge(lo: Bound, pid: PageId)

  type Level = seq<Edge>

  predicate Below(cmp: Cmp, k: Key, b: Bound) {
    b.From? && Lt(cmp, k, b.key)
  }

  predicate BoundLt(cmp: Cmp, a: Bound, b: Bound) {
    b.From? && (a.From? ==> Lt(cmp, a.key, b.key))
  }

  /** A page of the store; reading past its end gives a page no tree contains. */
  function PageAt(s: seq<Page>, pid: PageId): Page {
    if pid < |s| then s[pid] else InitPage(InternalPage)
  }

  function ChildOf(r: Rec): PageId {
    match r
    case LeafRec(_, _, _) => INVALID_PAGE_ID
    case ChildRec(_, child) => child
  }

  /** The children of an internal page whose own keys start at `lo`. */
  function Kids(lo: Bound, p: Page): Level {
    [Edge(lo, p.firstChild)] + seq(|p.recs|,
      i requires 0 <= i < |p.recs| => Edge(From(p.recs[i].key), ChildOf(p.recs[i])))
  }

  ghost function KidLists(s: seq<Page>, es: Level): seq<Level> {
    seq(|es|, i requires 0 <= i < |es| => Kids(es[i].lo, PageAt(s, es[i].pid)))
  }

  /** The level below. */
  ghost function Expand(s: seq<Page>, es: Level): Level {
    Flat(KidLists(s, es))
  }

  /** Where the children of page `j` start in the level below. */
  ghost function Offset(s: seq<Page>, es: Level, j: nat): nat
    requires j <= |es|
  {
    |Expand(s, es[..j])|
  }

  ghost function RecLists(s: seq<Page>, es: Level): seq<seq<Rec>> {
    seq(|es|, i requires 0 <= i < |es| => PageAt(s, es[i].pid).recs)
  }

  /** All records of the leaves of a level, left to right. */
  ghost function Records(s: seq<Page>, es: Level): seq<Rec> {
    Flat(RecLists(s, es))
  }

  ghost predicate Sorted(cmp: Cmp, recs: seq<Rec>) {
    forall i, j :: 0 <= i < j < |recs| ==> Lt(cmp, recs[i].key, recs[j].key)
  }

  ghost predicate Ascending(cmp: Cmp, es: Level) {
    forall i, j :: 0 <= i < j < |es| ==> BoundLt(cmp, es[i].lo, es[j].lo)
  }

  /** `k` belongs below page `i` of the level. */
  ghost predicate InSpan(cmp: Cmp, k: Key, es: Level, i: nat) {
    i < |es| && !Below(cmp, k, es[i].lo) && (i + 1 < |es| ==> Below(cmp, k, es[i + 1].lo))
  }

  /** One page is enough room for `k` only. */
  lemma SpanUnique(cmp: Cmp, k: Key, es: Level, i: nat, j: nat)
    requires Order(cmp) && Ascending(cmp, es)
    requires InSpan(cmp, k, es, i) && InSpan(cmp, k, es, j)
    ensures i == j
  {
  }

  /** `c` separators of the page are at most `k`: the child to descend to. */
  ghost predicate IsUpper(cmp: Cmp, recs: seq<Rec>, k: Key, c: nat) {
    && c <= |recs|
    && (forall t :: 0 <= t < c ==> !Lt(cmp, k, recs[t].key))
    && (forall t :: c <= t < |recs| ==> Lt(cmp, k, recs[t].key))
  }

  /** Descending by the separators keeps the key in the span of the page reached. */
  lemma DescendInSpan(cmp: Cmp, s: seq<Page>, es: Level, k: Key, j: nat, c: nat)
    requires InSpan(cmp, k, es, j)
    requires IsUpper(cmp, PageAt(s, es[j].pid).recs, k, c)
    ensures InSpan(cmp, k, Expand(s, es), Offset(s, es, j) + c)
    ensures Expand(s, es)[Offset(s, es, j) + c] == Kids(es[j].lo, PageAt(s, es[j].pid))[c]
  {
    var xs := KidLists(s, es);
    assert xs[..j] == KidLists(s, es[..j]);
    FlatAt(xs, j, c);
    if c < |PageAt(s, es[j].pid).recs| {
      FlatAt(xs, j, c + 1);
    } else if j + 1 < |es| {
      FlatNext(xs, j);
      FlatAt(xs, j + 1, 0);
    } else {
      FlatNext(xs, j);
      assert xs[..j + 1] == xs;
    }
  }

  /** In a bound-ordered level below, the child found by the separators is the
      only page with room for the key. */
  lemma ChildIndex(cmp: Cmp, s: seq<Page>, es: Level, k: Key, j: nat, c: nat, i: nat)
    requires Order(cmp) && Ascending(cmp, Expand(s, es))
    requires InSpan(cmp, k, es, j)
    requires IsUpper(cmp, PageAt(s, es[j].pid).recs, k, c)
    requires InSpan(cmp, k, Expand(s, es), i)
    ensures i == Offset(s, es, j) + c
  {
    DescendInSpan(cmp, s, es, k, j, c);
    SpanUnique(cmp, k, Expand(s, es), i, Offset(s, es, j) + c);
  }

  // ---------------------------------------------------------------- well-formed trees

  /** While a split travels upwards one page is in its level but not yet known to
      the level above: page `at` of level `level`. */
  datatype Gap = NoGap | Gap(level: nat, at: nat)

  /** The pages of level `q` that the level above knows. */
  ghost function Seen(lv: seq<Level>, q: nat, gap: Gap): Level
    requires q < |lv|
  {
    if gap.Gap? && gap.level == q && gap.at < |lv[q]| then RemoveAt(lv[q], gap.at) else lv[q]
  }

  ghost predicate Linked(s: seq<Page>, root: PageId, lv: seq<Level>, gap: Gap) {
    && |lv| > 0
    && Seen(lv, |lv| - 1, gap) == [Edge(NegInf, root)]
    && (forall q {:trigger Expand(s, lv[q])} :: 1 <= q < |lv| ==> Expand(s, lv[q]) == Seen(lv, q - 1, gap))
  }

  ghost predicate LeafRecs(recs: seq<Rec>) {
    forall t :: 0 <= t < |recs| ==> recs[t].LeafRec? && !recs[t].deleted
  }

  ghost predicate ChildRecs(recs: seq<Rec>) {
    forall t :: 0 <= t < |recs| ==> recs[t].ChildRec?
  }

  /** A page is fit for level `q`: level 0 holds leaves, the others internal pages. */
  ghost predicate PageOk(p: Page, q: nat) {
    && (q == 0 ==> p.kind == LeafPage && LeafRecs(p.recs))
    && (q > 0 ==> p.kind == InternalPage && p.prev == p.next == INVALID_PAGE_ID && ChildRecs(p.recs))
  }

  ghost predicate Placed(s: seq<Page>, lv: seq<Level>) {
    forall q, i {:trigger lv[q][i]} :: 0 <= q < |lv| && 0 <= i < |lv[q]| ==>
      lv[q][i].pid < |s| && PageOk(s[lv[q][i].pid], q)
  }

  /** No other place in the tree uses the page at place `(q, i)`. */
  ghost predicate Alone(lv: seq<Level>, q: nat, i: nat)
    requires q < |lv| && i < |lv[q]|
  {
    forall r, j {:trigger lv[r][j]} :: 0 <= r < |lv| && 0 <= j < |lv[r]| && lv[r][j].pid == lv[q][i].pid ==>
      r == q && j == i
  }

  ghost predicate Distinct(lv: seq<Level>) {
    forall q, i :: 0 <= q < |lv| && 0 <= i < |lv[q]| ==> Alone(lv, q, i)
  }

  ghost predicate Bounds(cmp: Cmp, lv: seq<Level>) {
    forall q :: 0 <= q < |lv| ==> |lv[q]| > 0 && lv[q][0].lo == NegInf && Ascending(cmp, lv[q])
  }

  /** Records that may stand in leaf `i`: sorted, and within its span. */
  ghost predicate LeafOk(cmp: Cmp, recs: seq<Rec>, es: Level, i: nat) {
    && Sorted(cmp, recs)
    && (forall t :: 0 <= t < |recs| ==> InSpan(cmp, recs[t].key, es, i))
  }

  ghost predicate LeafAt(cmp: Cmp, s: seq<Page>, es: Level, i: nat)
    requires i < |es|
  {
    LeafOk(cmp, PageAt(s, es[i].pid).recs, es, i)
  }

  ghost predicate Leaves(cmp: Cmp, s: seq<Page>, es: Level) {
    forall i :: 0 <= i < |es| ==> LeafAt(cmp, s, es, i)
  }

  ghost predicate Names(s: seq<Page>, child: PageId, parent: PageId) {
    child < |s| && s[child].parent == parent
  }

  /** All children of a page name it as their parent. */
  ghost predicate ParentOf(s: seq<Page>, pid: PageId) {
    && Names(s, PageAt(s, pid).firstChild, pid)
    && (forall t :: 0 <= t < |PageAt(s, pid).recs| ==> Names(s, ChildOf(PageAt(s, pid).recs[t]), pid))
  }

  ghost predicate Parents(s: seq<Page>, root: PageId, lv: seq<Level>, gap: Gap) {
    && Names(s, root, INVALID_PAGE_ID)
    && (forall q, j {:trigger lv[q][j]} :: 1 <= q < |lv| && 0 <= j < |lv[q]| ==> ParentOf(s, lv[q][j].pid))
    && (gap.Gap? && gap.level < |lv| && 0 < gap.at < |lv[gap.level]| ==>
          lv[gap.level][gap.at - 1].pid < |s|
            && Names(s, lv[gap.level][gap.at].pid, s[lv[gap.level][gap.at - 1].pid].parent))
  }

  /** Leaf `i` is linked to its neighbours. */
  ghost predicate LinkAt(s: seq<Page>, es: Level, i: nat)
    requires i < |es|
  {
    && PageAt(s, es[i].pid).next == (if i + 1 < |es| then es[i + 1].pid else INVALID_PAGE_ID)
    && PageAt(s, es[i].pid).prev == (if i > 0 then es[i - 1].pid else INVALID_PAGE_ID)
  }

  /** The leaves form one doubly linked list from left to right. */
  ghost predicate Chain(s: seq<Page>, es: Level) {
    forall i :: 0 <= i < |es| ==> LinkAt(s, es, i)
  }

  /** Page 0, which doubles as "no page", can only be the leftmost leaf. */
  ghost predicate ZeroFirst(lv: seq<Level>) {
    forall q, i {:trigger lv[q][i]} :: 0 <= q < |lv| && 0 <= i < |lv[q]| && lv[q][i].pid == 0 ==> q == 0 && i == 0
  }

  /** No page holds more than its 4096 bytes. */
  ghost predicate Room(s: seq<Page>, lv: seq<Level>) {
    forall q, i {:trigger lv[q][i]} :: 0 <= q < |lv| && 0 <= i < |lv[q]| ==> Fits(PageAt(s, lv[q][i].pid).recs)
  }

  /** A B+ tree, possibly with one pending page. */
  ghost predicate Shape(cmp: Cmp, s: seq<Page>, root: PageId, lv: seq<Level>, gap: Gap) {
    && Linked(s, root, lv, gap)
    && Placed(s, lv)
    && Distinct(lv)
    && Bounds(cmp, lv)
    && Leaves(cmp, s, lv[0])
    && Parents(s, root, lv, gap)
    && Chain(s, lv[0])
    && ZeroFirst(lv)
  }

  /** No page is needlessly empty: internal pages keep a separator, and only a
      leaf that is the root may have no record. */
  ghost predicate Filled(s: seq<Page>, lv: seq<Level>) {
    forall q, i {:trigger lv[q][i]} :: 0 <= q < |lv| && 0 <= i < |lv[q]| && |lv| > 1 ==>
      |PageAt(s, lv[q][i].pid).recs| > 0
  }

  /** Every page holds something, and no more than it has room for. */
  ghost predicate Loaded(s: seq<Page>, lv: seq<Level>) {
    forall q, i {:trigger lv[q][i]} :: 0 <= q < |lv| && 0 <= i < |lv[q]| ==>
      PageAt(s, lv[q][i].pid).recs != [] && Fits(PageAt(s, lv[q][i].pid).recs)
  }

  /** What the shape says about one level. */
  lemma LevelFacts(cmp: Cmp, s: seq<Page>, root: PageId, lv: seq<Level>, gap: Gap, q: nat)
    requires Shape(cmp, s, root, lv, gap) && q < |lv|
    ensures |lv[q]| > 0 && lv[q][0].lo == NegInf && Ascending(cmp, lv[q])
    ensures forall i :: 0 <= i < |lv[q]| ==> lv[q][i].pid < |s|
    ensures forall i, j :: 0 <= i < |lv[q]| && 0 <= j < |lv[q]| && i != j ==> lv[q][i].pid != lv[q][j].pid
    ensures forall i :: 0 < i < |lv[q]| ==> lv[q][i].pid != 0
  {
    hide Leaves, Chain, Parents, Linked;
    forall i, j | 0 <= i < |lv[q]| && 0 <= j < |lv[q]| && i != j
      ensures lv[q][i].pid != lv[q][j].pid
    {
      assert Alone(lv, q, i);
    }
  }
}
