/** How levels and records react to changes of single pages. */
module Frames {
  import opened Comparator
  import opened Pages
  import opened Lists
  import opened Levels

  ghost predicate SameKids(p: Page, q: Page) {
    p.firstChild == q.firstChild && p.recs == q.recs
  }

  lemma ExpandFrame(s: seq<Page>, s': seq<Page>, es: Level)
    requires forall i :: 0 <= i < |es| ==> SameKids(PageAt(s, es[i].pid), PageAt(s', es[i].pid))
    ensures Expand(s', es) == Expand(s, es)
  {
    assert KidLists(s', es) == KidLists(s, es);
  }

  lemma RecordsFrame(s: seq<Page>, s': seq<Page>, es: Level)
    requires forall i :: 0 <= i < |es| ==> PageAt(s, es[i].pid).recs == PageAt(s', es[i].pid).recs
    ensures Records(s', es) == Records(s, es)
  {
    assert RecLists(s', es) == RecLists(s, es);
  }

  lemma ExpandConcat(s: seq<Page>, a: Level, b: Level)
    ensures Expand(s, a + b) == Expand(s, a) + Expand(s, b)
  {
    assert KidLists(s, a + b) == KidLists(s, a) + KidLists(s, b);
    FlatConcat(KidLists(s, a), KidLists(s, b));
  }

  lemma RecordsConcat(s: seq<Page>, a: Level, b: Level)
    ensures Records(s, a + b) == Records(s, a) + Records(s, b)
  {
    assert RecLists(s, a + b) == RecLists(s, a) + RecLists(s, b);
    FlatConcat(RecLists(s, a), RecLists(s, b));
  }

  lemma ExpandOne(s: seq<Page>, e: Edge)
    ensures Expand(s, [e]) == Kids(e.lo, PageAt(s, e.pid))
  {
    assert KidLists(s, [e]) == [Kids(e.lo, PageAt(s, e.pid))];
    FlatOne(Kids(e.lo, PageAt(s, e.pid)));
  }

  lemma RecordsOne(s: seq<Page>, e: Edge)
    ensures Records(s, [e]) == PageAt(s, e.pid).recs
  {
    assert RecLists(s, [e]) == [PageAt(s, e.pid).recs];
    FlatOne(PageAt(s, e.pid).recs);
  }

  lemma ExpandSplit(s: seq<Page>, es: Level, j: nat)
    requires j < |es|
    ensures Expand(s, es) == Expand(s, es[..j]) + Kids(es[j].lo, PageAt(s, es[j].pid)) + Expand(s, es[j + 1..])
  {
    assert es == es[..j] + [es[j]] + es[j + 1..];
    ExpandConcat(s, es[..j] + [es[j]], es[j + 1..]);
    ExpandConcat(s, es[..j], [es[j]]);
    ExpandOne(s, es[j]);
  }

  lemma RecordsSplit(s: seq<Page>, es: Level, j: nat)
    requires j < |es|
    ensures Records(s, es) == Records(s, es[..j]) + PageAt(s, es[j].pid).recs + Records(s, es[j + 1..])
  {
    assert es == es[..j] + [es[j]] + es[j + 1..];
    RecordsConcat(s, es[..j] + [es[j]], es[j + 1..]);
    RecordsConcat(s, es[..j], [es[j]]);
    RecordsOne(s, es[j]);
  }

  /** Every edge of the level below is a child of some page. */
  lemma ExpandLocate(s: seq<Page>, es: Level, i: nat) returns (j: nat, c: nat)
    requires i < |Expand(s, es)|
    ensures j < |es| && c <= |PageAt(s, es[j].pid).recs|
    ensures i == Offset(s, es, j) + c
    ensures Expand(s, es)[i] == Kids(es[j].lo, PageAt(s, es[j].pid))[c]
  {
    j, c := FlatLocate(KidLists(s, es), i);
    assert KidLists(s, es)[..j] == KidLists(s, es[..j]);
  }

  /** And every child of a page is an edge of the level below. */
  lemma ExpandAt(s: seq<Page>, es: Level, j: nat, c: nat)
    requires j < |es| && c <= |PageAt(s, es[j].pid).recs|
    ensures Offset(s, es, j) + c < |Expand(s, es)|
    ensures Expand(s, es)[Offset(s, es, j) + c] == Kids(es[j].lo, PageAt(s, es[j].pid))[c]
  {
    FlatAt(KidLists(s, es), j, c);
    assert KidLists(s, es)[..j] == KidLists(s, es[..j]);
  }

  /** The pages of the upper levels keep their children. */
  ghost predicate SameUpper(s: seq<Page>, s': seq<Page>, lv: seq<Level>) {
    forall q, j {:trigger lv[q][j]} :: 1 <= q < |lv| && 0 <= j < |lv[q]| ==>
      SameKids(PageAt(s, lv[q][j].pid), PageAt(s', lv[q][j].pid))
  }

  lemma LinkedFrame(s: seq<Page>, s': seq<Page>, root: PageId, lv: seq<Level>, gap: Gap)
    requires Linked(s, root, lv, gap) && SameUpper(s, s', lv)
    ensures Linked(s', root, lv, gap)
  {
    forall q | 1 <= q < |lv|
      ensures Expand(s', lv[q]) == Expand(s, lv[q])
    {
      ExpandFrame(s, s', lv[q]);
    }
  }

  ghost predicate SameParent(s: seq<Page>, s': seq<Page>) {
    |s| <= |s'| && forall x: PageId :: x < |s| ==> s'[x].parent == s[x].parent
  }

  lemma ParentsFrame(s: seq<Page>, s': seq<Page>, root: PageId, lv: seq<Level>, gap: Gap)
    requires Parents(s, root, lv, gap) && SameUpper(s, s', lv) && SameParent(s, s')
    ensures Parents(s', root, lv, gap)
  {
    forall q, j | 1 <= q < |lv| && 0 <= j < |lv[q]|
      ensures ParentOf(s', lv[q][j].pid)
    {
      assert ParentOf(s, lv[q][j].pid);
    }
  }

  lemma ChainFrame(s: seq<Page>, s': seq<Page>, es: Level)
    requires Chain(s, es)
    requires forall i :: 0 <= i < |es| ==> PageAt(s', es[i].pid).next == PageAt(s, es[i].pid).next
    requires forall i :: 0 <= i < |es| ==> PageAt(s', es[i].pid).prev == PageAt(s, es[i].pid).prev
    ensures Chain(s', es)
  {
    forall i | 0 <= i < |es|
      ensures LinkAt(s', es, i)
    {
      assert LinkAt(s, es, i);
    }
  }

  /** Replacing one page of a level replaces its children in the level below. */
  lemma ExpandReplace(s: seq<Page>, s': seq<Page>, es: Level, j: nat)
    requires j < |es|
    requires forall i :: 0 <= i < |es| && i != j ==> SameKids(PageAt(s, es[i].pid), PageAt(s', es[i].pid))
    ensures Expand(s', es) == Expand(s, es[..j]) + Kids(es[j].lo, PageAt(s', es[j].pid)) + Expand(s, es[j + 1..])
  {
    ExpandSplit(s', es, j);
    ExpandFrame(s, s', es[..j]);
    ExpandFrame(s, s', es[j + 1..]);
  }

  lemma KidsInsert(lo: Bound, p: Page, c: nat, sep: Key, pid: PageId)
    requires c <= |p.recs|
    ensures Kids(lo, p.(recs := InsertAt(p.recs, c, ChildRec(sep, pid)))) ==
      InsertAt(Kids(lo, p), c + 1, Edge(From(sep), pid))
  {
  }

  /** Cutting a page at a record: that record's key and child head the right part. */
  lemma KidsCut(lo: Bound, p: Page, left: Page, right: Page, mid: nat)
    requires mid < |p.recs|
    requires left.firstChild == p.firstChild && left.recs == p.recs[..mid]
    requires right.firstChild == ChildOf(p.recs[mid]) && right.recs == p.recs[mid + 1..]
    ensures Kids(lo, p) == Kids(lo, left) + Kids(From(p.recs[mid].key), right)
  {
  }

  lemma LeavesFrame(cmp: Cmp, s: seq<Page>, s': seq<Page>, es: Level)
    requires Leaves(cmp, s, es)
    requires forall i :: 0 <= i < |es| ==> PageAt(s', es[i].pid).recs == PageAt(s, es[i].pid).recs
    ensures Leaves(cmp, s', es)
  {
    forall i | 0 <= i < |es|
      ensures LeafAt(cmp, s', es, i)
    {
      assert LeafAt(cmp, s, es, i);
    }
  }
}
