/** Cursors over the leaf chain (src/cursor.c). */
module Cursors {
  import opened Comparator
  import opened Pages
  import opened Levels
  import opened Frames
  import opened Contents
  import opened Search
  import opened Descent
  import opened Height
  import opened LeafPut
  import opened Rebalance
  import opened BTrees

  /** Number of records in the leaves before leaf `i`. */
  ghost function Before(s: seq<Page>, es: Level, i: nat): nat
    requires i <= |es|
  {
    |Records(s, es[..i])|
  }

  lemma BeforeStep(s: seq<Page>, es: Level, i: nat)
    requires i < |es|
    ensures Before(s, es, i + 1) == Before(s, es, i) + |PageAt(s, es[i].pid).recs|
  {
    assert es[..i + 1] == es[..i] + [es[i]];
    RecordsConcat(s, es[..i], [es[i]]);
    RecordsOne(s, es[i]);
  }

  lemma BeforeAll(s: seq<Page>, es: Level)
    ensures Before(s, es, |es|) == |Records(s, es)|
  {
    assert es[..|es|] == es;
  }

  /** The record in slot `t` of leaf `i`, in the list of all records. */
  lemma RecordAt(s: seq<Page>, es: Level, i: nat, t: nat)
    requires i < |es| && t < |PageAt(s, es[i].pid).recs|
    ensures Before(s, es, i) + t < |Records(s, es)|
    ensures Records(s, es)[Before(s, es, i) + t] == PageAt(s, es[i].pid).recs[t]
  {
    RecordsSplit(s, es, i);
  }

  // ---------------------------------------------------------------- the outermost paths

  /** The first page of a level is the first child of the first page above. */
  lemma LeftmostChild(cmp: Cmp, s: seq<Page>, root: PageId, lv: seq<Level>, q: nat)
    requires Shape(cmp, s, root, lv, NoGap) && 1 <= q < |lv|
    ensures |lv[q]| > 0 && |lv[q - 1]| > 0 && lv[q][0].pid < |s|
    ensures lv[q - 1][0].pid == s[lv[q][0].pid].firstChild
  {
    LevelFacts(cmp, s, root, lv, NoGap, q);
    ShapeAllParts(cmp, s, root, lv);
    hide Shape, Expand;
    assert Expand(s, lv[q]) == Seen(lv, q - 1, NoGap);
    ExpandAt(s, lv[q], 0, 0);
    assert lv[q][..0] == [];
    ExpandNil(s);
  }

  lemma ExpandNil(s: seq<Page>)
    ensures Expand(s, []) == []
  {
  }

  lemma ShapeAllParts(cmp: Cmp, s: seq<Page>, root: PageId, lv: seq<Level>)
    requires Shape(cmp, s, root, lv, NoGap)
    ensures Linked(s, root, lv, NoGap) && Placed(s, lv) && |lv| > 0 && lv[|lv| - 1] == [Edge(NegInf, root)]
  {
  }

  /** The last page of a level is the last child of the last page above. */
  lemma RightmostChild(cmp: Cmp, s: seq<Page>, root: PageId, lv: seq<Level>, q: nat)
    requires Shape(cmp, s, root, lv, NoGap) && 1 <= q < |lv|
    ensures |lv[q]| > 0 && |lv[q - 1]| > 0 && lv[q][|lv[q]| - 1].pid < |s|
    ensures var p := s[lv[q][|lv[q]| - 1].pid]; lv[q - 1][|lv[q - 1]| - 1].pid == ChildAt(p, |p.recs|)
  {
    LevelFacts(cmp, s, root, lv, NoGap, q);
    ShapeAllParts(cmp, s, root, lv);
    hide Shape, Expand, Kids;
    assert Expand(s, lv[q]) == Seen(lv, q - 1, NoGap);
    var j := |lv[q]| - 1;
    var p := s[lv[q][j].pid];
    ExpandAt(s, lv[q], j, |p.recs|);
    KidAt(lv[q][j].lo, p, |p.recs|);
    ExpandSplit(s, lv[q], j);
    assert lv[q][j + 1..] == [];
    ExpandNil(s);
    KidsSize(lv[q][j].lo, p);
  }

  lemma KidsSize(lo: Bound, p: Page)
    ensures |Kids(lo, p)| == |p.recs| + 1
  {
  }

  class Cursor {
    const tree: BTree
    var pageId: PageId
    /** A copy of the page the cursor is on. */
    var page: Page
    var slot: int
    /** Which leaf that is, from the left. */
    ghost var leaf: nat

    /** The cursor's copy is leaf `leaf` of the tree. */
    ghost predicate OnLeaf()
      reads this, tree
    {
      && tree.Valid() && leaf < |tree.levels[0]|
      && tree.levels[0][leaf].pid < |tree.store| && page == tree.store[tree.levels[0][leaf].pid]
      && pageId == tree.levels[0][leaf].pid
    }

    /** The cursor is on a record. */
    ghost predicate Positioned()
      reads this, tree
    {
      OnLeaf() && 0 <= slot < |page.recs|
    }

    /** All records of the tree in key order. */
    ghost function All(): seq<Rec>
      reads this, tree
      requires tree.Valid()
    {
      Records(tree.store, tree.levels[0])
    }

    /** The position of the cursor's record among them. */
    ghost function Pos(): (g: nat)
      reads this, tree
      requires Positioned()
      ensures g < |All()| && All()[g] == page.recs[slot]
    {
      RecordAt(tree.store, tree.levels[0], leaf, slot);
      Before(tree.store, tree.levels[0], leaf) + slot
    }

    constructor (t: BTree)
      ensures tree == t && slot == -1
    {
      tree := t;
      pageId := INVALID_PAGE_ID;
      page := InitPage(LeafPage);
      slot := -1;
      leaf := 0;
    }

    /** btree_cursor_valid: whether the cursor stands on a record of the tree, for a cursor that
        was moved there and a tree not changed since. */
    method IsValid() returns (r: bool)
      requires tree.Valid() && (slot >= 0 ==> Positioned())
      ensures r <==> Positioned()
    {
      r := slot >= 0;
    }

    /** Moves on to the next leaf that has a record. */
    method AdvanceToNext()
      requires OnLeaf()
      modifies this
      ensures tree.Valid() && (slot == -1 || Positioned())
      ensures var target := Before(tree.store, tree.levels[0], old(leaf) + 1);
              if target < |All()| then Positioned() && Pos() == target else slot == -1 && pageId == INVALID_PAGE_ID
    {
      hide TreeOk, Records;
      FirstLeaf(tree.cmp, tree.store, tree.rootId, tree.levels);
      ghost var s, es := tree.store, tree.levels[0];
      ghost var i := leaf;
      ghost var target := Before(s, es, i + 1);
      LeafLinks(tree.cmp, s, tree.rootId, tree.levels, i);
      var next := page.next;
      while next != INVALID_PAGE_ID
        invariant i < |es| && next == (if i + 1 < |es| then es[i + 1].pid else INVALID_PAGE_ID)
        invariant Before(s, es, i + 1) == target
        decreases |es| - i
      {
        i := i + 1;
        LeafLinks(tree.cmp, s, tree.rootId, tree.levels, i);
        BeforeStep(s, es, i);
        var err, pg := tree.ReadPage(next);
        if err != Ok {
          break;
        }
        page := pg;
        pageId := next;
        leaf := i;
        if |page.recs| > 0 {
          slot := 0;
          RecordAt(s, es, i, 0);
          return;
        }
        next := page.next;
      }
      NoNextLeaf(tree.cmp, s, tree.rootId, tree.levels, i);
      pageId := INVALID_PAGE_ID;
      slot := -1;
    }

    /** Records that backward moves do not reach: page 0 is read as "no page", so a
        leftmost leaf with that number is never entered from the right. */
    ghost function Hidden(): nat
      reads this, tree
      requires tree.Valid()
    {
      HiddenRecords(tree.store, tree.levels[0])
    }

    /** Moves back to the previous leaf that has a record. */
    method AdvanceToPrev()
      requires OnLeaf()
      modifies this
      ensures tree.Valid() && (slot == -1 || Positioned())
      ensures var from := Before(tree.store, tree.levels[0], old(leaf));
              if from > Hidden() then Positioned() && Pos() == from - 1 else slot == -1 && pageId == INVALID_PAGE_ID
    {
      hide TreeOk, Records, HiddenRecords;
      FirstLeaf(tree.cmp, tree.store, tree.rootId, tree.levels);
      ghost var s, es := tree.store, tree.levels[0];
      ghost var i := leaf;
      ghost var from := Before(s, es, i);
      LeafLinks(tree.cmp, s, tree.rootId, tree.levels, i);
      var prev := page.prev;
      while prev != INVALID_PAGE_ID
        invariant 0 <= i < |es| && prev == (if i > 0 then es[i - 1].pid else INVALID_PAGE_ID)
        invariant Before(s, es, i) == from
        decreases i
      {
        PrevNotHidden(tree.cmp, s, tree.rootId, tree.levels, i);
        i := i - 1;
        LeafLinks(tree.cmp, s, tree.rootId, tree.levels, i);
        BeforeStep(s, es, i);
        var err, pg := tree.ReadPage(prev);
        if err != Ok {
          break;
        }
        page := pg;
        pageId := prev;
        leaf := i;
        var n := |page.recs|;
        if n > 0 {
          slot := n - 1;
          RecordAt(s, es, i, n - 1);
          return;
        }
        prev := page.prev;
      }
      NoPrevLeaf(tree.cmp, s, tree.rootId, tree.levels, i);
      pageId := INVALID_PAGE_ID;
      slot := -1;
    }

    /** btree_cursor_next. */
    method Next() returns (err: Error)
      requires tree.Valid() && (slot >= 0 ==> Positioned())
      modifies this
      ensures tree.Valid() && (slot >= 0 ==> Positioned())
      ensures err == (if slot >= 0 then Ok else NotFound)
      ensures old(slot) < 0 ==> slot < 0
      ensures old(slot) >= 0 ==> if old(Pos()) + 1 < |All()| then slot >= 0 && Pos() == old(Pos()) + 1 else slot == -1
    {
      if slot < 0 {
        return NotFound;
      }
      hide TreeOk, Records;
      FirstLeaf(tree.cmp, tree.store, tree.rootId, tree.levels);
      BeforeStep(tree.store, tree.levels[0], leaf);
      slot := slot + 1;
      if slot < |page.recs| {
        RecordAt(tree.store, tree.levels[0], leaf, slot);
        return Ok;
      }
      AdvanceToNext();
      err := if slot >= 0 then Ok else NotFound;
    }

    /** btree_cursor_prev. */
    method Prev() returns (err: Error)
      requires tree.Valid() && (slot >= 0 ==> Positioned())
      modifies this
      ensures tree.Valid() && (slot >= 0 ==> Positioned())
      ensures err == (if slot >= 0 then Ok else NotFound)
      ensures old(slot) < 0 ==> slot < 0
      ensures old(slot) > 0 ==> slot >= 0 && Pos() == old(Pos()) - 1
      ensures old(slot) == 0 ==> if old(Pos()) > Hidden() then slot >= 0 && Pos() == old(Pos()) - 1 else slot == -1
    {
      if slot < 0 {
        return NotFound;
      }
      hide TreeOk, Records, HiddenRecords;
      slot := slot - 1;
      if slot >= 0 {
        return Ok;
      }
      AdvanceToPrev();
      err := if slot >= 0 then Ok else NotFound;
    }

    /** btree_cursor_get with key and value buffers of the given sizes. */
    method GetRecord(keyCap: nat, valCap: nat)
      returns (err: Error, key: seq<byte>, keyLen: nat, val: seq<byte>, valLen: nat)
      requires tree.Valid() && (slot >= 0 ==> Positioned())
      ensures err == (if slot >= 0 then Ok else NotFound)
      ensures slot >= 0 ==>
        && Pos() < |All()| && All()[Pos()].LeafRec? && !All()[Pos()].deleted
        && keyLen == |All()[Pos()].key| && key == All()[Pos()].key[..if keyCap < keyLen then keyCap else keyLen]
        && valLen == |All()[Pos()].val| && val == All()[Pos()].val[..if valCap < valLen then valCap else valLen]
    {
      if slot < 0 {
        return NotFound, [], 0, [], 0;
      }
      hide TreeOk, Records;
      FirstLeaf(tree.cmp, tree.store, tree.rootId, tree.levels);
      RecordAt(tree.store, tree.levels[0], leaf, slot);
      LeafRecAt(tree.cmp, tree.store, tree.rootId, tree.levels, leaf, slot);
      var rec := page.recs[slot];
      keyLen := |rec.key|;
      key := rec.key[..if keyCap < keyLen then keyCap else keyLen];
      valLen := |rec.val|;
      val := rec.val[..if valCap < valLen then valCap else valLen];
      err := Ok;
    }

    /** btree_cursor_first. */
    method First() returns (err: Error)
      requires tree.Valid()
      modifies this
      ensures tree.Valid() && err == (if |All()| > 0 then Ok else NotFound)
      ensures if |All()| > 0 then slot >= 0 && Positioned() && Pos() == 0 else slot == -1
      ensures err == NotFound ==> tree.Contents() == map[]
      ensures err == Ok ==>
        && page.recs[slot].key in tree.Contents()
        && forall x :: x in tree.Contents() ==> tree.cmp(page.recs[slot].key, x) <= 0
    {
      hide TreeOk, Records, ToMap;
      NoKeys([]);
      FirstLeaf(tree.cmp, tree.store, tree.rootId, tree.levels);
      ghost var s, lv := tree.store, tree.levels;
      ghost var q := |lv| - 1;
      TopPage(tree.cmp, s, tree.rootId, lv);
      slot := -1;
      var pid := tree.rootId;
      while true
        invariant 0 <= q < |lv| && |lv[q]| > 0 && pid == lv[q][0].pid && pid < |s|
        invariant PageOk(s[pid], q)
        decreases q
      {
        err, page := tree.ReadPage(pid);
        if err != Ok {
          return;
        }
        pageId := pid;
        if page.kind == LeafPage {
          break;
        }
        LeftmostStep(tree.cmp, s, tree.rootId, lv, q);
        pid := page.firstChild;
        q := q - 1;
      }
      leaf := 0;
      BeforeNone(s, lv[0]);
      BeforeStep(s, lv[0], 0);
      if |page.recs| > 0 {
        slot := 0;
        RecordAt(s, lv[0], 0, 0);
        AtStart();
        return Ok;
      }
      AdvanceToNext();
      if slot < 0 {
        return NotFound;
      }
      AtStart();
      err := Ok;
    }

    lemma AtStart()
      requires Positioned() && Pos() == 0
      ensures page.recs[slot].key in tree.Contents()
      ensures forall x :: x in tree.Contents() ==> tree.cmp(page.recs[slot].key, x) <= 0
    {
      hide TreeOk, Records, Order, Sorted, ToMap;
      AllOrdered(tree.cmp, tree.store, tree.rootId, tree.levels);
      EndsMean(tree.cmp, All());
    }

    lemma AtEnd()
      requires Positioned() && Pos() == |All()| - 1
      ensures page.recs[slot].key in tree.Contents()
      ensures forall x :: x in tree.Contents() ==> tree.cmp(page.recs[slot].key, x) >= 0
    {
      hide TreeOk, Records, Order, Sorted, ToMap;
      AllOrdered(tree.cmp, tree.store, tree.rootId, tree.levels);
      EndsMean(tree.cmp, All());
    }

    /** btree_cursor_last. */
    method Last() returns (err: Error)
      requires tree.Valid()
      modifies this
      ensures tree.Valid() && err == (if |All()| > 0 then Ok else NotFound)
      ensures if |All()| > 0 then slot >= 0 && Positioned() && Pos() == |All()| - 1 else slot == -1
      ensures err == NotFound ==> tree.Contents() == map[]
      ensures err == Ok ==>
        && page.recs[slot].key in tree.Contents()
        && forall x :: x in tree.Contents() ==> tree.cmp(page.recs[slot].key, x) >= 0
    {
      hide TreeOk, Records, ToMap;
      NoKeys([]);
      FirstLeaf(tree.cmp, tree.store, tree.rootId, tree.levels);
      ghost var s, lv := tree.store, tree.levels;
      ghost var q := |lv| - 1;
      TopPage(tree.cmp, s, tree.rootId, lv);
      slot := -1;
      var pid := tree.rootId;
      while true
        invariant 0 <= q < |lv| && |lv[q]| > 0 && pid == lv[q][|lv[q]| - 1].pid && pid < |s|
        invariant PageOk(s[pid], q)
        decreases q
      {
        err, page := tree.ReadPage(pid);
        if err != Ok {
          return;
        }
        pageId := pid;
        if page.kind == LeafPage {
          break;
        }
        RightmostStep(tree.cmp, s, tree.rootId, lv, q);
        var n := |page.recs|;
        if n > 0 {
          pid := ChildOf(page.recs[n - 1]);
        } else {
          pid := page.firstChild;
        }
        q := q - 1;
      }
      leaf := |lv[0]| - 1;
      BeforeStep(s, lv[0], leaf);
      BeforeAll(s, lv[0]);
      LastLeafHolds(tree.cmp, s, tree.rootId, lv);
      var n := |page.recs|;
      if n > 0 {
        slot := n - 1;
        AtEnd();
        return Ok;
      }
      pageId := INVALID_PAGE_ID;
      slot := -1;
      err := NotFound;
    }

    /** From the root down to the leaf whose span holds the key. */
    method DescendToLeaf(k: Key) returns (err: Error)
      requires tree.Valid()
      modifies this`page, this`pageId, this`leaf
      ensures err == Ok && OnLeaf() && InSpan(tree.cmp, k, tree.levels[0], leaf)
      ensures Sorted(tree.cmp, page.recs)
    {
      hide TreeOk, Order, PathOf, FullPath, UpperPos, ChildAt, Sorted, IsUpper, InSpan, PageOk;
      ghost var s, lv := tree.store, tree.levels;
      ghost var full := FullPath(tree.cmp, s, tree.rootId, k);
      TreePathLength(tree.cmp, s, tree.rootId, lv, k);
      WholePath(tree.cmp, s, tree.rootId, k);
      ghost var depth := 0;
      var pid := tree.rootId;
      while true
        invariant 0 <= depth < |full|
        invariant full[depth..] == PathOf(tree.cmp, s, pid, k, BTREE_MAX_DEPTH - 1 - depth)
        decreases |full| - depth
      {
        PathStep(tree.cmp, s, tree.rootId, lv, k, depth, pid);
        err, page := tree.ReadPage(pid);
        if err != Ok {
          return;
        }
        pageId := pid;
        if page.kind == LeafPage {
          ghost var ix := TreePath(tree.cmp, s, tree.rootId, lv, k);
          leaf := ix[0];
          return;
        }
        pid := InternalFindChild(tree.cmp, page, k);
        depth := depth + 1;
      }
    }

    /** btree_cursor_seek: to the first record whose key is not below `k`; `p` records are below. */
    method Seek(k: Key) returns (err: Error, ghost p: nat)
      requires tree.Valid()
      modifies this
      ensures tree.Valid() && err == (if p < |All()| then Ok else NotFound)
      ensures p <= |All()| && SplitsAt(tree.cmp, All(), k, p)
      ensures if p < |All()| then slot >= 0 && Positioned() && Pos() == p else slot == -1
      ensures err == NotFound ==> forall x :: x in tree.Contents() ==> tree.cmp(x, k) < 0
      ensures err == Ok ==> var key := page.recs[slot].key;
        && key in tree.Contents() && tree.cmp(key, k) >= 0
        && forall x :: x in tree.Contents() && tree.cmp(x, k) >= 0 ==> tree.cmp(key, x) <= 0
    {
      hide TreeOk, Order, Records, Sorted, InSpan, ToMap, SplitsAt;
      err := DescendToLeaf(k);
      FirstLeaf(tree.cmp, tree.store, tree.rootId, tree.levels);
      ghost var s, lv := tree.store, tree.levels;
      TreeOrder(tree.cmp, s, tree.rootId, lv);
      var r := LeafFindKey(tree.cmp, page.recs, k);
      FoundSplit(tree.cmp, page.recs, k, r);
      p := Before(s, lv[0], leaf) + if r >= 0 then r else -r - 1;
      SeekSplit(tree.cmp, s, tree.rootId, lv, k, leaf, if r >= 0 then r else -r - 1);
      AllOrdered(tree.cmp, s, tree.rootId, lv);
      SplitMeans(tree.cmp, All(), k, p);
      BeforeStep(s, lv[0], leaf);
      if r >= 0 {
        slot := r;
        RecordAt(s, lv[0], leaf, slot);
        return;
      }
      var insertPos := -r - 1;
      if insertPos < |page.recs| {
        slot := insertPos;
        RecordAt(s, lv[0], leaf, slot);
        return;
      }
      BeforeMono(s, lv[0], leaf + 1, |lv[0]|);
      BeforeAll(s, lv[0]);
      AdvanceToNext();
      err := if slot >= 0 then Ok else NotFound;
    }

    // ------------------------------------------------------------------ scans

    /** Key and value of a stored record are shorter than a page. */
    lemma RecordFits(g: nat)
      requires tree.Valid() && g < |All()|
      ensures |All()[g].key| <= PAGE_SIZE && |ValOf(All()[g])| <= PAGE_SIZE
    {
      hide Records;
      ShapeLeaves(tree.cmp, tree.store, tree.rootId, tree.levels, NoGap);
      LevelFacts(tree.cmp, tree.store, tree.rootId, tree.levels, NoGap, 0);
      hide TreeOk;
      var i, t := RecordInSpan(tree.cmp, tree.store, tree.levels[0], g);
      LeafRecAt(tree.cmp, tree.store, tree.rootId, tree.levels, i, t);
      RecInPage(tree.cmp, tree.store, tree.rootId, tree.levels, i, t);
    }

    /** Collects records from the cursor's position to the end with next. */
    method ScanForward(from: Error) returns (out: seq<(Key, Value)>)
      requires tree.Valid() && (from == Ok <==> slot >= 0) && (slot >= 0 ==> Positioned())
      modifies this
      ensures tree.Valid()
      ensures out == if old(slot) >= 0 then Entries(All()[old(Pos())..]) else []
    {
      hide TreeOk, Records;
      ghost var all := All();
      ghost var start := if slot >= 0 then Pos() else |all|;
      out := [];
      var err := from;
      while err == Ok
        invariant tree.Valid() && (err == Ok <==> slot >= 0) && (slot >= 0 ==> Positioned())
        invariant All() == all && start <= |all|
        invariant slot >= 0 ==> start <= Pos() < |all| && out == Entries(all[start..Pos()])
        invariant slot < 0 ==> out == Entries(all[start..])
        decreases if slot >= 0 then |all| - Pos() else 0
      {
        ghost var g := Pos();
        var _, key, _, val, _ := GetRecord(PAGE_SIZE, PAGE_SIZE);
        RecordFits(g);
        assert key == all[g].key && val == ValOf(all[g]);
        EntriesStep(all, start, g);
        out := out + [(key, val)];
        err := Next();
      }
    }

    /** Collects records from the cursor's position to the start with prev. */
    method ScanBackward(from: Error) returns (out: seq<(Key, Value)>)
      requires tree.Valid() && (from == Ok <==> slot >= 0)
      requires slot >= 0 ==> Positioned() && Pos() >= Hidden()
      modifies this
      ensures tree.Valid()
      ensures out == if old(slot) >= 0 then Reversed(Entries(All()[Hidden()..old(Pos()) + 1])) else []
    {
      hide TreeOk, Records, HiddenRecords, Reversed, Entries;
      ghost var all, low := All(), Hidden();
      ghost var high := if slot >= 0 then Pos() + 1 else low;
      out := [];
      var err := from;
      if slot >= 0 {
        NothingReversed(all, high);
      }
      while err == Ok
        invariant tree.Valid() && (err == Ok <==> slot >= 0) && (slot >= 0 ==> Positioned())
        invariant All() == all && Hidden() == low
        invariant slot >= 0 ==> low <= Pos() < high <= |all| && out == Reversed(Entries(all[Pos() + 1..high]))
        invariant slot < 0 && old(slot) >= 0 ==> low <= high <= |all| && out == Reversed(Entries(all[low..high]))
        invariant slot < 0 && old(slot) < 0 ==> out == []
        decreases if slot >= 0 then Pos() + 1 else 0
      {
        ghost var g, first := Pos(), slot == 0;
        HiddenBoundary();
        var _, key, _, val, _ := GetRecord(PAGE_SIZE, PAGE_SIZE);
        RecordFits(g);
        assert key == all[g].key && val == ValOf(all[g]);
        ReversedStep(all, g, high);
        out := out + [(key, val)];
        err := Prev();
      }
    }

    /** The hidden records, if any, end where a leaf ends. */
    lemma HiddenBoundary()
      requires Positioned() && Pos() >= Hidden()
      ensures slot > 0 ==> Pos() > Hidden()
      ensures Hidden() <= |All()|
    {
      hide TreeOk, Records;
      FirstLeaf(tree.cmp, tree.store, tree.rootId, tree.levels);
      var s, es := tree.store, tree.levels[0];
      BeforeNone(s, es);
      BeforeStep(s, es, 0);
      if leaf > 0 {
        BeforeMono(s, es, 1, leaf);
      }
    }

    /** first, then next to the end: the whole map in key order. */
    method ScanAll() returns (out: seq<(Key, Value)>)
      requires tree.Valid()
      modifies this
      ensures tree.Valid() && out == Entries(All())
      ensures forall i :: 0 <= i < |out| ==> out[i].0 in tree.Contents() && tree.Contents()[out[i].0] == out[i].1
      ensures forall x :: x in tree.Contents() ==> exists i :: 0 <= i < |out| && out[i].0 == x
      ensures forall i, j :: 0 <= i < j < |out| ==> tree.cmp(out[i].0, out[j].0) < 0
    {
      hide TreeOk, Records, Entries, ToMap, Order, Sorted;
      var err := First();
      assert |All()| > 0 ==> All()[0..] == All();
      EmptyEntries(All());
      out := ScanForward(err);
      AllOrdered(tree.cmp, tree.store, tree.rootId, tree.levels);
      EntriesMean(tree.cmp, All());
      forall x | x in tree.Contents()
        ensures exists i :: 0 <= i < |out| && out[i].0 == x
      {
        var i := EntryOf(All(), x);
        assert out[i].0 == x;
      }
    }

    /** seek, then next to the end: the records with key at least `k`, in key order. */
    method ScanFrom(k: Key) returns (out: seq<(Key, Value)>, ghost p: nat)
      requires tree.Valid()
      modifies this
      ensures tree.Valid() && p <= |All()| && SplitsAt(tree.cmp, All(), k, p) && out == Entries(All()[p..])
      ensures forall i :: 0 <= i < |out| ==> out[i].0 in tree.Contents() && tree.Contents()[out[i].0] == out[i].1
      ensures forall x :: x in tree.Contents() ==>
        (tree.cmp(x, k) >= 0 <==> exists i :: 0 <= i < |out| && out[i].0 == x)
      ensures forall i, j :: 0 <= i < j < |out| ==> tree.cmp(out[i].0, out[j].0) < 0
    {
      hide TreeOk, Records, Entries, SplitsAt, ToMap, Order, Sorted;
      var err;
      err, p := Seek(k);
      AllOrdered(tree.cmp, tree.store, tree.rootId, tree.levels);
      FromMean(tree.cmp, All(), k, p);
      EmptyEntries(All()[p..]);
      out := ScanForward(err);
    }

    /** last, then prev to the start: the map in reverse exactly if the leftmost leaf is the only
        leaf or is not page 0; otherwise just the entries of that leaf are missing. */
    method ScanReverse() returns (out: seq<(Key, Value)>)
      requires tree.Valid()
      modifies this
      ensures tree.Valid() && Hidden() <= |All()| && out == Reversed(Entries(All()[Hidden()..]))
      ensures |tree.levels| > 0 && |tree.levels[0]| > 0
      ensures out == Reversed(Entries(All())) <==> |tree.levels[0]| == 1 || tree.levels[0][0].pid != INVALID_PAGE_ID
      ensures forall i :: 0 <= i < |out| ==> out[i].0 in tree.Contents() && tree.Contents()[out[i].0] == out[i].1
      ensures forall i, j :: 0 <= i < j < |out| ==> tree.cmp(out[i].0, out[j].0) > 0
      ensures forall x :: x in tree.Contents() ==>
        ((exists i :: 0 <= i < |out| && out[i].0 == x) <==>
         !(|tree.levels[0]| > 1 && tree.levels[0][0].pid == 0 && x in ToMap(PageAt(tree.store, 0).recs)))
    {
      hide TreeOk, Records, Entries, Reversed, HiddenRecords, ToMap, Order, Sorted;
      var err := Last();
      HiddenLeaf();
      assert |All()| > 0 ==> All()[Hidden()..|All()|] == All()[Hidden()..];
      EmptyEntries(All());
      out := ScanBackward(err);
      NothingHidden(tree.cmp, tree.store, tree.rootId, tree.levels);
      WholeReversed(All(), Hidden());
      AllOrdered(tree.cmp, tree.store, tree.rootId, tree.levels);
      HiddenMeans(tree.cmp, tree.store, tree.rootId, tree.levels);
      BackMean(tree.cmp, All(), Hidden());
      forall x | x in tree.Contents()
        ensures (exists i :: 0 <= i < |out| && out[i].0 == x) <==>
          !(|tree.levels[0]| > 1 && tree.levels[0][0].pid == 0 && x in ToMap(PageAt(tree.store, 0).recs))
      {
        BackKey(tree.cmp, All(), Hidden(), x);
        NoKeys(x);
      }
    }

    /** The rightmost record is never hidden. */
    lemma HiddenLeaf()
      requires tree.Valid()
      ensures Hidden() <= |All()| && (|All()| > 0 ==> Hidden() < |All()|)
    {
      HiddenBound(tree.cmp, tree.store, tree.rootId, tree.levels);
    }
  }

  ghost function Reversed<T>(s: seq<T>): seq<T> {
    if s == [] then [] else Reversed(s[1..]) + [s[0]]
  }

  lemma {:induction false} ReversedSize<T>(s: seq<T>)
    ensures |Reversed(s)| == |s|
  {
    if s != [] {
      ReversedSize(s[1..]);
    }
  }

  /** A reversed part is the reversed whole only if it is the whole. */
  lemma WholeReversed(all: seq<Rec>, h: nat)
    requires h <= |all|
    ensures Reversed(Entries(all[h..])) == Reversed(Entries(all)) <==> h == 0
  {
    hide Reversed;
    ReversedSize(Entries(all[h..]));
    ReversedSize(Entries(all));
    assert all[0..] == all;
  }

  lemma NothingReversed(all: seq<Rec>, high: nat)
    requires high <= |all|
    ensures Reversed(Entries(all[high..high])) == []
  {
  }

  lemma ReversedStep(all: seq<Rec>, g: nat, high: nat)
    requires g < high <= |all|
    ensures Reversed(Entries(all[g..high])) == Reversed(Entries(all[g + 1..high])) + [(all[g].key, ValOf(all[g]))]
  {
    assert Entries(all[g..high])[1..] == Entries(all[g + 1..high]);
  }

  lemma EmptyEntries(recs: seq<Rec>)
    ensures recs == [] ==> Entries(recs) == [] && Reversed(Entries(recs)) == []
  {
  }

  lemma HiddenBound(cmp: Cmp, s: seq<Page>, root: PageId, lv: seq<Level>)
    requires TreeOk(cmp, s, root, lv) && |lv| > 0
    ensures HiddenRecords(s, lv[0]) <= |Records(s, lv[0])|
    ensures |Records(s, lv[0])| > 0 ==> HiddenRecords(s, lv[0]) < |Records(s, lv[0])|
  {
    FirstLeaf(cmp, s, root, lv);
    ShapeAllParts(cmp, s, root, lv);
    hide Shape, Records;
    var es := lv[0];
    BeforeNone(s, es);
    BeforeStep(s, es, 0);
    BeforeAll(s, es);
    if |es| > 1 {
      BeforeMono(s, es, 1, |es| - 1);
      BeforeStep(s, es, |es| - 1);
    }
  }

  /** The whole map is read backwards exactly if the leftmost leaf is the only leaf or
      is not page 0. */
  lemma NothingHidden(cmp: Cmp, s: seq<Page>, root: PageId, lv: seq<Level>)
    requires TreeOk(cmp, s, root, lv)
    ensures |lv| > 0 && |lv[0]| > 0
    ensures HiddenRecords(s, lv[0]) == 0 <==> |lv[0]| == 1 || lv[0][0].pid != INVALID_PAGE_ID
  {
    FirstLeaf(cmp, s, root, lv);
    ShapeAllParts(cmp, s, root, lv);
    hide Shape;
  }

  /** Reading the leaves from left to right gives the map in strictly increasing key order. */
  lemma AllInOrder(cmp: Cmp, s: seq<Page>, root: PageId, lv: seq<Level>)
    requires TreeOk(cmp, s, root, lv)
    ensures |lv| > 0 && Sorted(cmp, Records(s, lv[0]))
  {
    LevelFacts(cmp, s, root, lv, NoGap, 0);
    ShapeLeaves(cmp, s, root, lv, NoGap);
    hide Shape;
    RecordsSorted(cmp, s, lv[0]);
  }

  /** Exactly the first `p` records have a key below `k`. */
  ghost predicate SplitsAt(cmp: Cmp, recs: seq<Rec>, k: Key, p: nat) {
    forall g :: 0 <= g < |recs| ==> (g < p <==> Lt(cmp, recs[g].key, k))
  }

  ghost function Entries(recs: seq<Rec>): seq<(Key, Value)> {
    seq(|recs|, g requires 0 <= g < |recs| => (recs[g].key, ValOf(recs[g])))
  }

  /** The first record not below `k`, by its key. */
  lemma SplitMeans(cmp: Cmp, recs: seq<Rec>, k: Key, p: nat)
    requires Order(cmp) && Sorted(cmp, recs) && p <= |recs| && SplitsAt(cmp, recs, k, p)
    ensures p == |recs| ==> forall x :: x in ToMap(recs) ==> cmp(x, k) < 0
    ensures p < |recs| ==>
      && recs[p].key in ToMap(recs) && cmp(recs[p].key, k) >= 0
      && forall x :: x in ToMap(recs) && cmp(x, k) >= 0 ==> cmp(recs[p].key, x) <= 0
  {
    if p < |recs| {
      ToMapAt(cmp, recs, p);
    }
    forall x | x in ToMap(recs)
      ensures p == |recs| ==> cmp(x, k) < 0
      ensures p < |recs| && cmp(x, k) >= 0 ==> cmp(recs[p].key, x) <= 0
    {
      ToMapKeys(recs, x);
      var t :| 0 <= t < |recs| && recs[t].key == x;
      assert t < p <==> Lt(cmp, recs[t].key, k);
      if p < t {
        assert Lt(cmp, recs[p].key, recs[t].key);
      }
    }
  }

  /** The outermost records have the outermost keys. */
  lemma EndsMean(cmp: Cmp, recs: seq<Rec>)
    requires Order(cmp) && Sorted(cmp, recs) && recs != []
    ensures recs[0].key in ToMap(recs) && forall x :: x in ToMap(recs) ==> cmp(recs[0].key, x) <= 0
    ensures recs[|recs| - 1].key in ToMap(recs) && forall x :: x in ToMap(recs) ==> cmp(recs[|recs| - 1].key, x) >= 0
  {
    ToMapAt(cmp, recs, 0);
    ToMapAt(cmp, recs, |recs| - 1);
    forall x | x in ToMap(recs)
      ensures cmp(recs[0].key, x) <= 0 && cmp(recs[|recs| - 1].key, x) >= 0
    {
      ToMapKeys(recs, x);
      var t :| 0 <= t < |recs| && recs[t].key == x;
      if t > 0 {
        assert Lt(cmp, recs[0].key, recs[t].key);
      }
      if t < |recs| - 1 {
        assert Lt(cmp, recs[t].key, recs[|recs| - 1].key);
      }
    }
  }

  lemma AllOrdered(cmp: Cmp, s: seq<Page>, root: PageId, lv: seq<Level>)
    requires TreeOk(cmp, s, root, lv)
    ensures |lv| > 0 && Order(cmp) && Sorted(cmp, Records(s, lv[0]))
  {
    AllInOrder(cmp, s, root, lv);
  }

  /** Entries of sorted records: those of their map, each once, in key order. */
  lemma EntriesMean(cmp: Cmp, recs: seq<Rec>)
    requires Order(cmp) && Sorted(cmp, recs)
    ensures var out, m := Entries(recs), ToMap(recs);
      && (forall i :: 0 <= i < |out| ==> out[i].0 in m && m[out[i].0] == out[i].1)
      && (forall x :: x in m ==> exists i :: 0 <= i < |out| && out[i].0 == x)
      && (forall i, j :: 0 <= i < j < |out| ==> cmp(out[i].0, out[j].0) < 0)
  {
    var out, m := Entries(recs), ToMap(recs);
    forall i | 0 <= i < |out|
      ensures out[i].0 in m && m[out[i].0] == out[i].1
    {
      ToMapAt(cmp, recs, i);
    }
    forall x | x in m
      ensures exists i :: 0 <= i < |out| && out[i].0 == x
    {
      ToMapKeys(recs, x);
      var t :| 0 <= t < |recs| && recs[t].key == x;
      assert out[t].0 == x;
    }
    forall i, j | 0 <= i < j < |out|
      ensures cmp(out[i].0, out[j].0) < 0
    {
      assert Lt(cmp, recs[i].key, recs[j].key);
    }
  }

  lemma EntryOf(recs: seq<Rec>, x: Key) returns (i: nat)
    requires x in ToMap(recs)
    ensures i < |Entries(recs)| && Entries(recs)[i].0 == x
  {
    hide ToMap;
    ToMapKeys(recs, x);
    i :| 0 <= i < |recs| && recs[i].key == x;
  }

  /** The records from `p` on are some of the entries of the whole. */
  lemma PartMeans(cmp: Cmp, recs: seq<Rec>, p: nat)
    requires Order(cmp) && Sorted(cmp, recs) && p <= |recs|
    ensures var out, m := Entries(recs[p..]), ToMap(recs);
      && (forall i :: 0 <= i < |out| ==> out[i].0 in m && m[out[i].0] == out[i].1)
      && (forall i, j :: 0 <= i < j < |out| ==> cmp(out[i].0, out[j].0) < 0)
  {
    EntriesMean(cmp, recs);
    var all, out := Entries(recs), Entries(recs[p..]);
    assert forall i :: 0 <= i < |out| ==> out[i] == all[p + i];
  }

  lemma FromMean(cmp: Cmp, recs: seq<Rec>, k: Key, p: nat)
    requires Order(cmp) && Sorted(cmp, recs) && p <= |recs| && SplitsAt(cmp, recs, k, p)
    ensures var out, m := Entries(recs[p..]), ToMap(recs);
      && (forall i :: 0 <= i < |out| ==> out[i].0 in m && m[out[i].0] == out[i].1)
      && (forall x :: x in m ==> (cmp(x, k) >= 0 <==> exists i :: 0 <= i < |out| && out[i].0 == x))
      && (forall i, j :: 0 <= i < j < |out| ==> cmp(out[i].0, out[j].0) < 0)
  {
    hide Order, Sorted, ToMap, SplitsAt, Entries;
    PartMeans(cmp, recs, p);
    SplitKeys(cmp, recs, k, p);
  }

  lemma SplitKeys(cmp: Cmp, recs: seq<Rec>, k: Key, p: nat)
    requires Order(cmp) && Sorted(cmp, recs) && p <= |recs| && SplitsAt(cmp, recs, k, p)
    ensures forall x :: x in ToMap(recs) ==>
      (cmp(x, k) >= 0 <==> exists i :: 0 <= i < |Entries(recs[p..])| && Entries(recs[p..])[i].0 == x)
  {
    hide Order, Sorted, ToMap;
    var out := Entries(recs[p..]);
    forall x | x in ToMap(recs)
      ensures cmp(x, k) >= 0 <==> exists i :: 0 <= i < |out| && out[i].0 == x
    {
      ToMapKeys(recs, x);
      var t :| 0 <= t < |recs| && recs[t].key == x;
      if t >= p {
        assert out[t - p].0 == x;
      }
      if i :| 0 <= i < |out| && out[i].0 == x {
        assert recs[p + i].key == x;
      }
    }
  }

  lemma {:induction false} ReversedAt<T>(s: seq<T>, i: nat)
    requires i < |s|
    ensures |Reversed(s)| == |s| && Reversed(s)[i] == s[|s| - 1 - i]
  {
    ReversedSize(s);
    ReversedSize(s[1..]);
    if i < |s| - 1 {
      ReversedAt(s[1..], i);
    }
  }

  lemma BackMean(cmp: Cmp, recs: seq<Rec>, h: nat)
    requires Order(cmp) && Sorted(cmp, recs) && h <= |recs|
    ensures var out, m := Reversed(Entries(recs[h..])), ToMap(recs);
      && (forall i :: 0 <= i < |out| ==> out[i].0 in m && m[out[i].0] == out[i].1)
      && (forall i, j :: 0 <= i < j < |out| ==> cmp(out[i].0, out[j].0) > 0)
  {
    hide Reversed, ToMap, Sorted, Order, Entries;
    var fwd, out := Entries(recs[h..]), Reversed(Entries(recs[h..]));
    PartMeans(cmp, recs, h);
    ReversedSize(fwd);
    forall i | 0 <= i < |out|
      ensures out[i] == fwd[|fwd| - 1 - i]
    {
      ReversedAt(fwd, i);
    }
    forall i, j | 0 <= i < j < |out|
      ensures cmp(out[i].0, out[j].0) > 0
    {
      Flipped(cmp, out[j].0, out[i].0);
    }
  }

  lemma BackKey(cmp: Cmp, recs: seq<Rec>, h: nat, x: Key)
    requires Order(cmp) && Sorted(cmp, recs) && h <= |recs| && x in ToMap(recs)
    ensures var out := Reversed(Entries(recs[h..]));
      (exists i :: 0 <= i < |out| && out[i].0 == x) <==> x !in ToMap(recs[..h])
  {
    hide Reversed, ToMap, Sorted, Order, Entries;
    var fwd, out := Entries(recs[h..]), Reversed(Entries(recs[h..]));
    ReversedSize(fwd);
    PartKeys(cmp, recs, h, x);
    if i :| 0 <= i < |out| && out[i].0 == x {
      ReversedAt(fwd, i);
      assert fwd[|fwd| - 1 - i].0 == x;
    }
    if u :| 0 <= u < |fwd| && fwd[u].0 == x {
      ReversedAt(fwd, |fwd| - 1 - u);
      assert out[|fwd| - 1 - u].0 == x;
    }
  }

  lemma NoKeys(x: Key)
    ensures x !in ToMap([]) && ToMap([]) == map[]
  {
  }

  lemma Flipped(cmp: Cmp, a: Key, b: Key)
    requires Order(cmp) && cmp(a, b) < 0
    ensures cmp(b, a) > 0
  {
    assert Lt(cmp, a, b);
  }

  /** A stored key is among the first `h` records or among the others. */
  lemma PartKeys(cmp: Cmp, recs: seq<Rec>, h: nat, x: Key)
    requires Order(cmp) && Sorted(cmp, recs) && h <= |recs| && x in ToMap(recs)
    ensures x !in ToMap(recs[..h]) <==> exists u :: 0 <= u < |Entries(recs[h..])| && Entries(recs[h..])[u].0 == x
  {
    hide ToMap;
    ToMapKeys(recs, x);
    ToMapKeys(recs[..h], x);
    var t :| 0 <= t < |recs| && recs[t].key == x;
    if t >= h {
      assert Entries(recs[h..])[t - h].0 == x;
      if u :| 0 <= u < |recs[..h]| && recs[..h][u].key == x {
        assert false;
      }
    } else {
      assert recs[..h][t].key == x;
      if u :| 0 <= u < |Entries(recs[h..])| && Entries(recs[h..])[u].0 == x {
        assert false;
      }
    }
  }

  /** The hidden records are those of the leftmost leaf, if it is page 0 and not alone. */
  lemma HiddenMeans(cmp: Cmp, s: seq<Page>, root: PageId, lv: seq<Level>)
    requires TreeOk(cmp, s, root, lv)
    ensures |lv| > 0 && |lv[0]| > 0 && HiddenRecords(s, lv[0]) <= |Records(s, lv[0])|
    ensures Records(s, lv[0])[..HiddenRecords(s, lv[0])] ==
      if |lv[0]| > 1 && lv[0][0].pid == 0 then PageAt(s, 0).recs else []
  {
    FirstLeaf(cmp, s, root, lv);
    HiddenBound(cmp, s, root, lv);
    hide TreeOk;
    RecordsSplit(s, lv[0], 0);
    assert lv[0][..0] == [];
    hide Records;
    assert Records(s, []) == [] by { NoLeaves(s); }
  }

  lemma NoLeaves(s: seq<Page>)
    ensures Records(s, []) == []
  {
  }

  lemma EntriesStep(all: seq<Rec>, start: nat, g: nat)
    requires start <= g < |all|
    ensures Entries(all[start..g + 1]) == Entries(all[start..g]) + [(all[g].key, ValOf(all[g]))]
    ensures g + 1 == |all| ==> all[start..g + 1] == all[start..]
  {
  }

  /** The leaf search splits the leaf's records by the key. */
  lemma FoundSplit(cmp: Cmp, recs: seq<Rec>, k: Key, r: int)
    requires Order(cmp) && Sorted(cmp, recs)
    requires r >= 0 ==> r < |recs| && recs[r].key == k
    requires r < 0 ==> forall t :: 0 <= t < |recs| ==>
      if t < -r - 1 then Lt(cmp, recs[t].key, k) else Lt(cmp, k, recs[t].key)
    ensures var t := if r >= 0 then r else -r - 1;
            forall u :: 0 <= u < |recs| ==> (u < t <==> Lt(cmp, recs[u].key, k))
  {
    if r >= 0 {
      forall u | 0 <= u < |recs|
        ensures u < r <==> Lt(cmp, recs[u].key, k)
      {
        if r < u {
          assert Lt(cmp, recs[r].key, recs[u].key);
        }
      }
    }
  }

  lemma TreeOrder(cmp: Cmp, s: seq<Page>, root: PageId, lv: seq<Level>)
    requires TreeOk(cmp, s, root, lv)
    ensures Order(cmp)
  {
  }

  /** On which side of the split a record lies. */
  lemma SeekSide(cmp: Cmp, s: seq<Page>, es: Level, k: Key, i: nat, t: nat, g: nat)
    requires Order(cmp) && Leaves(cmp, s, es) && Ascending(cmp, es) && i < |es| && InSpan(cmp, k, es, i)
    requires var recs := PageAt(s, es[i].pid).recs;
             t <= |recs| && forall u :: 0 <= u < |recs| ==> (u < t <==> Lt(cmp, recs[u].key, k))
    requires g < |Records(s, es)|
    ensures g < Before(s, es, i) + t <==> Lt(cmp, Records(s, es)[g].key, k)
  {
    hide Records, InSpan, Ascending, Leaves;
    var key := Records(s, es)[g].key;
    var j, u := RecordInSpan(cmp, s, es, g);
    if j < i {
      SpanOrder(cmp, es, key, j, k, i);
      BeforeStep(s, es, j);
      BeforeMono(s, es, j + 1, i);
    } else if j > i {
      SpanOrder(cmp, es, k, i, key, j);
      BeforeStep(s, es, i);
      BeforeMono(s, es, i + 1, j);
    }
  }

  /** Where the leaf search splits the leaf is where the key splits all records. */
  lemma SeekSplit(cmp: Cmp, s: seq<Page>, root: PageId, lv: seq<Level>, k: Key, i: nat, t: nat)
    requires TreeOk(cmp, s, root, lv) && |lv| > 0 && i < |lv[0]| && InSpan(cmp, k, lv[0], i)
    requires var recs := PageAt(s, lv[0][i].pid).recs;
             t <= |recs| && forall u :: 0 <= u < |recs| ==> (u < t <==> Lt(cmp, recs[u].key, k))
    ensures SplitsAt(cmp, Records(s, lv[0]), k, Before(s, lv[0], i) + t)
    ensures Before(s, lv[0], i) + t <= |Records(s, lv[0])|
  {
    LevelFacts(cmp, s, root, lv, NoGap, 0);
    ShapeLeaves(cmp, s, root, lv, NoGap);
    hide Shape, Records, InSpan, Ascending, Leaves, Room, Filled;
    var es := lv[0];
    var all := Records(s, es);
    hide Order, Before;
    forall g | 0 <= g < |all|
      ensures g < Before(s, es, i) + t <==> Lt(cmp, all[g].key, k)
    {
      SeekSide(cmp, s, es, k, i, t, g);
    }
    BeforeStep(s, es, i);
    BeforeMono(s, es, i + 1, |es|);
    BeforeAll(s, es);
  }

  ghost function HiddenRecords(s: seq<Page>, es: Level): nat {
    if |es| > 1 && es[0].pid == INVALID_PAGE_ID then |PageAt(s, es[0].pid).recs| else 0
  }

  lemma PrevNotHidden(cmp: Cmp, s: seq<Page>, root: PageId, lv: seq<Level>, i: nat)
    requires TreeOk(cmp, s, root, lv) && |lv| > 0 && 0 < i < |lv[0]| && lv[0][i - 1].pid != INVALID_PAGE_ID
    ensures Before(s, lv[0], i - 1) >= HiddenRecords(s, lv[0])
  {
    hide TreeOk, Records;
    if i > 1 {
      BeforeMono(s, lv[0], 1, i - 1);
      BeforeStep(s, lv[0], 0);
    } else {
      BeforeNone(s, lv[0]);
    }
  }

  lemma {:induction false} BeforeMono(s: seq<Page>, es: Level, i: nat, j: nat)
    requires i <= j <= |es|
    ensures Before(s, es, i) <= Before(s, es, j)
    decreases j
  {
    if i < j {
      BeforeMono(s, es, i, j - 1);
      BeforeStep(s, es, j - 1);
    }
  }

  lemma BeforeNone(s: seq<Page>, es: Level)
    ensures Before(s, es, 0) == 0
  {
    assert es[..0] == [];
  }

  lemma NoPrevLeaf(cmp: Cmp, s: seq<Page>, root: PageId, lv: seq<Level>, i: nat)
    requires TreeOk(cmp, s, root, lv) && |lv| > 0 && i < |lv[0]|
    requires i > 0 ==> lv[0][i - 1].pid == INVALID_PAGE_ID
    ensures Before(s, lv[0], i) <= HiddenRecords(s, lv[0])
  {
    hide Records;
    BeforeNone(s, lv[0]);
    if i > 0 {
      LevelFacts(cmp, s, root, lv, NoGap, 0);
      BeforeStep(s, lv[0], 0);
    }
  }

  lemma LeafRecAt(cmp: Cmp, s: seq<Page>, root: PageId, lv: seq<Level>, i: nat, t: nat)
    requires TreeOk(cmp, s, root, lv) && |lv| > 0 && i < |lv[0]| && t < |PageAt(s, lv[0][i].pid).recs|
    ensures PageAt(s, lv[0][i].pid).recs[t].LeafRec? && !PageAt(s, lv[0][i].pid).recs[t].deleted
  {
    LeafFacts(cmp, s, root, lv, NoGap, i);
  }

  lemma TopPage(cmp: Cmp, s: seq<Page>, root: PageId, lv: seq<Level>)
    requires TreeOk(cmp, s, root, lv)
    ensures |lv| > 0 && lv[|lv| - 1] == [Edge(NegInf, root)] && root < |s| && PageOk(s[root], |lv| - 1)
  {
    ShapeAllParts(cmp, s, root, lv);
    hide Shape;
    PlacedAt(s, lv, |lv| - 1, 0);
  }

  lemma LeftmostStep(cmp: Cmp, s: seq<Page>, root: PageId, lv: seq<Level>, q: nat)
    requires TreeOk(cmp, s, root, lv) && q < |lv| && |lv[q]| > 0 && lv[q][0].pid < |s|
    requires PageOk(s[lv[q][0].pid], q) && s[lv[q][0].pid].kind != LeafPage
    ensures q > 0 && |lv[q - 1]| > 0 && lv[q - 1][0].pid == s[lv[q][0].pid].firstChild
    ensures lv[q - 1][0].pid < |s| && PageOk(s[lv[q - 1][0].pid], q - 1)
  {
    ShapeAllParts(cmp, s, root, lv);
    LeftmostChild(cmp, s, root, lv, q);
    hide Shape;
    PlacedAt(s, lv, q - 1, 0);
  }

  lemma RightmostStep(cmp: Cmp, s: seq<Page>, root: PageId, lv: seq<Level>, q: nat)
    requires TreeOk(cmp, s, root, lv) && q < |lv| && |lv[q]| > 0 && lv[q][|lv[q]| - 1].pid < |s|
    requires PageOk(s[lv[q][|lv[q]| - 1].pid], q) && s[lv[q][|lv[q]| - 1].pid].kind != LeafPage
    ensures q > 0 && |lv[q - 1]| > 0
    ensures var p, x := s[lv[q][|lv[q]| - 1].pid], lv[q - 1][|lv[q - 1]| - 1].pid;
            x == ChildAt(p, |p.recs|) && x < |s| && PageOk(s[x], q - 1)
  {
    ShapeAllParts(cmp, s, root, lv);
    RightmostChild(cmp, s, root, lv, q);
    hide Shape;
    PlacedAt(s, lv, q - 1, |lv[q - 1]| - 1);
  }

  /** The last leaf is empty only in an empty tree. */
  lemma LastLeafHolds(cmp: Cmp, s: seq<Page>, root: PageId, lv: seq<Level>)
    requires TreeOk(cmp, s, root, lv) && |lv| > 0 && |lv[0]| > 0
    ensures PageAt(s, lv[0][|lv[0]| - 1].pid).recs == [] ==> Records(s, lv[0]) == []
  {
    ShapeAllParts(cmp, s, root, lv);
    hide Shape, Records;
    if |lv| == 1 {
      RecordsOne(s, lv[0][0]);
    }
  }

  /** Where the links of leaf `i` lead. */
  lemma LeafLinks(cmp: Cmp, s: seq<Page>, root: PageId, lv: seq<Level>, i: nat)
    requires TreeOk(cmp, s, root, lv) && |lv| > 0 && i < |lv[0]|
    ensures lv[0][i].pid < |s| && s[lv[0][i].pid].kind == LeafPage
    ensures s[lv[0][i].pid].next == if i + 1 < |lv[0]| then lv[0][i + 1].pid else INVALID_PAGE_ID
    ensures s[lv[0][i].pid].prev == if i > 0 then lv[0][i - 1].pid else INVALID_PAGE_ID
    ensures i + 1 < |lv[0]| ==> lv[0][i + 1].pid != INVALID_PAGE_ID && lv[0][i + 1].pid < |s|
  {
    LevelFacts(cmp, s, root, lv, NoGap, 0);
    LeafFacts(cmp, s, root, lv, NoGap, i);
    ShapeLeaves(cmp, s, root, lv, NoGap);
    hide Shape;
    assert LinkAt(s, lv[0], i);
  }

  lemma NoNextLeaf(cmp: Cmp, s: seq<Page>, root: PageId, lv: seq<Level>, i: nat)
    requires TreeOk(cmp, s, root, lv) && |lv| > 0 && i < |lv[0]|
    requires i + 1 < |lv[0]| ==> lv[0][i + 1].pid == INVALID_PAGE_ID
    ensures i + 1 == |lv[0]| && Before(s, lv[0], i + 1) == |Records(s, lv[0])|
  {
    hide TreeOk, Records;
    LeafLinks(cmp, s, root, lv, i);
    BeforeAll(s, lv[0]);
  }
}
