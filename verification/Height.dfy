/** How high a tree can grow. */
module Height {
  import opened Comparator
  import opened Pages
  import opened Levels
  import opened Frames
  import opened Bits

  /** Page numbers are 32-bit. */
  const MAX_PAGES := 0x1_0000_0000

  /** A well-formed tree in a store of 32-bit pages. */
  ghost predicate TreeOk(cmp: Cmp, s: seq<Page>, root: PageId, lv: seq<Level>) {
    Order(cmp) && Shape(cmp, s, root, lv, NoGap) && Room(s, lv) && Filled(s, lv) && |s| <= MAX_PAGES
  }

  /** A tree has a leaf. */
  lemma FirstLeaf(cmp: Cmp, s: seq<Page>, root: PageId, lv: seq<Level>)
    requires TreeOk(cmp, s, root, lv)
    ensures |lv| > 0 && |lv[0]| > 0
  {
    LevelFacts(cmp, s, root, lv, NoGap, 0);
  }

  /** A level of pages with a separator each has at least twice as many pages below. */
  lemma {:induction false} ExpandDoubles(s: seq<Page>, es: Level)
    requires forall i :: 0 <= i < |es| ==> |PageAt(s, es[i].pid).recs| > 0
    ensures |Expand(s, es)| >= 2 * |es|
  {
    if es != [] {
      var n := |es| - 1;
      ExpandDoubles(s, es[..n]);
      assert es == es[..n] + [es[n]];
      ExpandConcat(s, es[..n], [es[n]]);
      ExpandOne(s, es[n]);
    }
  }

  lemma {:induction false} LevelsDouble(s: seq<Page>, root: PageId, lv: seq<Level>, q: nat)
    requires Linked(s, root, lv, NoGap) && Filled(s, lv) && q < |lv|
    ensures |lv[q]| >= Pow2(|lv| - 1 - q)
    decreases |lv| - q
  {
    if q < |lv| - 1 {
      LevelsDouble(s, root, lv, q + 1);
      assert Expand(s, lv[q + 1]) == Seen(lv, q, NoGap);
      ExpandDoubles(s, lv[q + 1]);
    }
  }

  ghost function UpTo(n: nat): set<nat> {
    if n == 0 then {} else UpTo(n - 1) + {n - 1}
  }

  lemma {:induction false} UpToSize(n: nat)
    ensures |UpTo(n)| == n
    ensures forall x: nat :: x in UpTo(n) <==> x < n
  {
    if n > 0 {
      UpToSize(n - 1);
    }
  }

  /** Distinct members of a finite set are no more than its size. */
  lemma {:induction false} DistinctInSet(xs: seq<nat>, pool: set<nat>)
    requires forall i :: 0 <= i < |xs| ==> xs[i] in pool
    requires forall i, j :: 0 <= i < |xs| && 0 <= j < |xs| && i != j ==> xs[i] != xs[j]
    ensures |xs| <= |pool|
  {
    if xs != [] {
      var n := |xs| - 1;
      DistinctInSet(xs[..n], pool - {xs[n]});
    }
  }

  /** At most `n` different numbers are below `n`. */
  lemma Pigeonhole(xs: seq<nat>, n: nat)
    requires forall i :: 0 <= i < |xs| ==> xs[i] < n
    requires forall i, j :: 0 <= i < |xs| && 0 <= j < |xs| && i != j ==> xs[i] != xs[j]
    ensures |xs| <= n
  {
    UpToSize(n);
    DistinctInSet(xs, UpTo(n));
  }

  /** A tree of 32-bit pages has at most 33 levels, so a path fits its 64 entries. */
  lemma HeightBound(cmp: Cmp, s: seq<Page>, root: PageId, lv: seq<Level>)
    requires Shape(cmp, s, root, lv, NoGap) && Filled(s, lv) && |s| <= MAX_PAGES
    ensures |lv| <= 33
  {
    LevelFacts(cmp, s, root, lv, NoGap, 0);
    hide Leaves, Chain, Parents, Bounds, Distinct, Expand, Placed;
    LevelsDouble(s, root, lv, 0);
    Pigeonhole(seq(|lv[0]|, i requires 0 <= i < |lv[0]| => lv[0][i].pid), |s|);
    Pow2Word();
    if |lv| > 33 {
      Pow2Monotone(32, |lv| - 1);
    }
  }
}
