/** Concrete trees on which the code does less than a map: a put that loses a record and a
    delete that loses a page. */
module Witnesses {
  import opened Comparator
  import opened Pages
  import opened Levels
  import opened Frames
  import opened Contents
  import opened Search
  import opened Descent
  import opened Fitting
  import opened Height
  import opened LostChild
  import PageBytes
  import opened PackedRecords

  lemma ByteOrder(a: byte, b: byte)
    ensures Lt(CompareDefault, [a], [b]) <==> a < b
  {
    assert [a][1..] == [] && [b][1..] == [];
    assert MemCmp([a], [b], 1) == if a != b then a - b else MemCmp([], [], 0);
  }

  // ---------------------------------------------------------------- puts that do not fit

  /** A tree of one leaf. */
  function OneLeaf(recs: seq<Rec>): seq<Page> {
    [InitPage(LeafPage).(recs := recs)]
  }

  function OneLevel(): seq<Level> {
    [[Edge(NegInf, 0)]]
  }

  /** Live records with the keys [1], [2], [3] and so on. */
  predicate Counting(recs: seq<Rec>) {
    |recs| < 255 && forall t :: 0 <= t < |recs| ==>
      recs[t].LeafRec? && !recs[t].deleted && recs[t].key == [(t + 1) as byte]
  }

  lemma CountingSorted(recs: seq<Rec>)
    requires Counting(recs)
    ensures Sorted(CompareDefault, recs)
  {
    hide CompareDefault;
    forall i, j | 0 <= i < j < |recs|
      ensures Lt(CompareDefault, recs[i].key, recs[j].key)
    {
      ByteOrder((i + 1) as byte, (j + 1) as byte);
    }
  }

  lemma OneLeafTree(recs: seq<Rec>)
    requires Counting(recs) && Fits(recs)
    ensures TreeOk(CompareDefault, OneLeaf(recs), 0, OneLevel())
  {
    CompareDefaultIsOrder();
    CountingSorted(recs);
    hide Order, CompareDefault, Fits;
    var s, lv := OneLeaf(recs), OneLevel();
    assert LeafAt(CompareDefault, s, lv[0], 0);
    assert LinkAt(s, lv[0], 0);
    assert Alone(lv, 0, 0);
  }

  /** The next record in the count goes last. */
  lemma NextLast(recs: seq<Rec>, r: Rec)
    requires Counting(recs + [r])
    ensures WithoutKey(recs, r.key) == recs && Upserted(CompareDefault, recs, r) == recs + [r]
  {
    var all, n := recs + [r], |recs|;
    assert all[n] == r && forall t :: 0 <= t < n ==> all[t] == recs[t];
    assert KeyPos(recs, r.key) == n;
    CompareDefaultIsOrder();
    hide CompareDefault;
    CountingSorted(recs);
    forall t | 0 <= t < n
      ensures Lt(CompareDefault, recs[t].key, r.key)
    {
      ByteOrder((t + 1) as byte, (n + 1) as byte);
    }
    assert IsUpper(CompareDefault, recs, r.key, n) by { LastUpper(recs, r.key); }
    hide Order, Sorted;
    UpperPosIsUpper(CompareDefault, recs, r.key);
    UpperUnique(CompareDefault, recs, r.key, n, UpperPos(CompareDefault, recs, r.key));
  }

  lemma LastUpper(recs: seq<Rec>, k: Key)
    requires Order(CompareDefault) && forall t :: 0 <= t < |recs| ==> Lt(CompareDefault, recs[t].key, k)
    ensures IsUpper(CompareDefault, recs, k, |recs|)
  {
    hide CompareDefault;
  }

  /** What a put of the next record into a full single leaf comes to. */
  lemma PutNext(recs: seq<Rec>, r: Rec)
    requires Counting(recs + [r]) && r.LeafRec? && !InsertFits(recs, r)
    ensures var all := recs + [r];
      && (PutFits(CompareDefault, OneLeaf(recs), 0, r.key, r.val) ==> LeafHalvesFit(all))
      && PutRefills(CompareDefault, OneLeaf(recs), 0, r.key, r.val) ==
         Worse(LeafRefilled(all), Refilled([ChildRec(all[|all| / 2].key, 1)]))
  {
    NextLast(recs, r);
    assert (recs + [r])[|recs|] == r;
    hide CompareDefault, Fits, InsertFits, Upserted, WithoutKey, Refilled;
    assert FullPath(CompareDefault, OneLeaf(recs), 0, r.key) == [0];
  }

  lemma SmallSeparator(k: Key, pid: PageId)
    requires |k| <= 4000
    ensures Refilled([ChildRec(k, pid)]) == Whole
  {
    UsedOne(ChildRec(k, pid));
  }

  /** Two tiny records and two large ones. */
  function Uneven(big: seq<byte>): seq<Rec> {
    [LeafRec([1], [], false), LeafRec([2], [], false), LeafRec([3], big, false), LeafRec([4], big, false)]
  }

  /** A third large record overfills the right half, and is refused. */
  lemma UnevenPut(big: seq<byte>)
    requires |big| == 2000
    ensures TreeOk(CompareDefault, OneLeaf(Uneven(big)), 0, OneLevel())
    ensures !PutFits(CompareDefault, OneLeaf(Uneven(big)), 0, [5], big)
    ensures PutRefills(CompareDefault, OneLeaf(Uneven(big)), 0, [5], big) == Drops
  {
    var recs, r := Uneven(big), LeafRec([5], big, false);
    UnevenSplitLoses(big);
    assert InsertAt(recs, 4, r) == recs + [r];
    hide Fits, InsertFits, Refilled;
    OneLeafTree(recs);
    PutNext(recs, r);
    UnevenRefilled(big, recs + [r]);
    SmallSeparator([3], 1);
  }

  lemma UnevenRefilled(big: seq<byte>, all: seq<Rec>)
    requires |big| == 2000 && all == Uneven(big) + [LeafRec([5], big, false)]
    ensures Refilled(all[..2]) == Whole && Refilled(all[2..]) == Drops
  {
    var b, c, d, e := all[1], all[2], all[3], all[4];
    assert all[..2] == [all[0]] + [b];
    assert all[2..] == [c] + [d] + [e] && all[2..][..2] == [c] + [d];
    UsedOne(all[0]);
    UsedOne(b);
    UsedOne(c);
    UsedOne(d);
    UsedOne(e);
    UsedConcat([all[0]], [b]);
    UsedConcat([c], [d]);
    UsedConcat([c] + [d], [e]);
    hide DataSize;
    KeptFacts([c] + [d]);
    assert Fill(InitPage(LeafPage), all[2..]) == Fill(InitPage(LeafPage), [c] + [d]);
  }

  // ---------------------------------------------------------------- a slot over its own record

  /** A put whose right half ends with two bytes left for its last slot. */
  lemma OverlapPut(x: seq<byte>, y: seq<byte>, z: seq<byte>)
    requires |x| == 40 && |y| == 1990 && |z| == 2056
    ensures var recs := [LeafRec([1], x, false), LeafRec([2], y, false)];
      && TreeOk(CompareDefault, OneLeaf(recs), 0, OneLevel())
      && !PutFits(CompareDefault, OneLeaf(recs), 0, [3], z)
      && PutRefills(CompareDefault, OneLeaf(recs), 0, [3], z) == Overlaps
  {
    var a, b, c := LeafRec([1], x, false), LeafRec([2], y, false), LeafRec([3], z, false);
    UsedOne(a);
    UsedOne(b);
    UsedOne(c);
    UsedConcat([a], [b]);
    UsedConcat([b], [c]);
    var recs, all := [a, b], [a, b] + [c];
    assert recs == [a] + [b] && all[..1] == [a] && all[1..] == [b] + [c];
    OverlapKept(b, c);
    hide DataSize, Kept;
    OneLeafTree(recs);
    PutNext(recs, c);
  }

  lemma OverlapKept(b: Rec, c: Rec)
    requires RecSize(b) == 1996 && RecSize(c) == 2062
    ensures Kept([b] + [c]) == [b] + [c]
  {
    UsedOne(b);
    KeptFacts([b]);
    assert ([b] + [c])[..1] == [b];
  }

  /** In the bytes of that right half the record of [3] has the key length 2062, its own length:
      it cannot be read, and the search for [3] takes it for a greater key. */
  lemma OverlapBytes(b: PageBytes.Bytes, p: Page, z: seq<byte>)
    requires |z| == 2056 && Image(b, p) && p.kind == LeafPage && |p.recs| == 1 && RecSize(p.recs[0]) == 1996
    ensures PageBytes.NumSlots(b) == 1 && PageBytes.RecordsAt(b) == 2100
    ensures var r := LeafRec([3], z, false); var c := PageBytes.InsertBytes(b, 1, Pack(r));
      && PageBytes.ReadSlot(c, 1) == PageBytes.Slot(38, 2062) && PageBytes.U16(c, 38) == 2062 && c[40] == 3
      && !ReadsAs(c, 38, r)
    ensures forall key: Key :: |key| == 2062 && key[0] == 3 ==> CompareDefault([3], key) < 0
  {
    var r := LeafRec([3], z, false);
    hide Image, Pack, PageBytes.InsertBytes, PageBytes.U16, ReadsAs, SlotHarmless, CompareDefault, PageBytes.ReadSlot;
    UsedOne(p.recs[0]);
    UsedOne(r);
    UsedConcat([p.recs[0]], [r]);
    assert p.recs == [p.recs[0]];
    ImageCounters(b, p);
    SlotOverRecord(b, p, r);
    var c := PageBytes.InsertBytes(b, 1, Pack(r));
    assert c[40] == c[40..2100][0] == Pack(r)[2..][0] == 3 by { PackedKey(z); }
    forall key: Key | |key| == 2062 && key[0] == 3
      ensures CompareDefault([3], key) < 0
    {
      CompareDefaultStep([3], key);
      assert [3 as byte][1..] == [];
    }
  }

  lemma PackedKey(z: seq<byte>)
    ensures |Pack(LeafRec([3], z, false))| > 2 && Pack(LeafRec([3], z, false))[2..][0] == 3
  {
  }

  // ---------------------------------------------------------------- a delete that loses a page

  function Leaf(parent: PageId, prev: PageId, next: PageId, key: byte): Page {
    Page(LeafPage, parent, prev, next, INVALID_PAGE_ID, [LeafRec([key], [], false)])
  }

  function Inner(parent: PageId, first: PageId, key: byte, second: PageId): Page {
    Page(InternalPage, parent, INVALID_PAGE_ID, INVALID_PAGE_ID, first, [ChildRec([key], second)])
  }

  /** Four leaves of one record each, two internal pages of one separator each, and a root. */
  function NarrowTree(): seq<Page> {
    [Leaf(4, 0, 1, 1), Leaf(4, 0, 2, 2), Leaf(5, 1, 3, 3), Leaf(5, 2, 0, 4),
     Inner(6, 0, 2, 1), Inner(6, 2, 4, 3), Inner(INVALID_PAGE_ID, 4, 3, 5)]
  }

  function NarrowLevels(): seq<Level> {
    [[Edge(NegInf, 0), Edge(From([2]), 1), Edge(From([3]), 2), Edge(From([4]), 3)],
     [Edge(NegInf, 4), Edge(From([3]), 5)],
     [Edge(NegInf, 6)]]
  }

  lemma NarrowLinked()
    ensures Linked(NarrowTree(), 6, NarrowLevels(), NoGap)
  {
    var s, lv: seq<Level> := NarrowTree(), NarrowLevels();
    ExpandOne(s, lv[2][0]);
    assert lv[1] == [lv[1][0]] + [lv[1][1]];
    ExpandConcat(s, [lv[1][0]], [lv[1][1]]);
    ExpandOne(s, lv[1][0]);
    ExpandOne(s, lv[1][1]);
    forall q | 1 <= q < |lv|
      ensures Expand(s, lv[q]) == lv[q - 1]
    {
      if q == 1 {
        assert Kids(NegInf, s[4]) == [Edge(NegInf, 0), Edge(From([2]), 1)];
        assert Kids(From([3]), s[5]) == [Edge(From([3]), 2), Edge(From([4]), 3)];
      } else {
        assert q == 2;
        assert Kids(NegInf, s[6]) == lv[1];
      }
    }
  }

  lemma NarrowBounds()
    ensures Bounds(CompareDefault, NarrowLevels())
  {
    hide CompareDefault;
    ByteOrder(2, 3);
    ByteOrder(2, 4);
    ByteOrder(3, 4);
  }

  lemma NarrowLeaf(i: nat)
    requires i < 4
    ensures LeafAt(CompareDefault, NarrowTree(), NarrowLevels()[0], i)
  {
    hide CompareDefault;
    var es := NarrowLevels()[0];
    ByteOrder(1, 2);
    ByteOrder(2, 2);
    ByteOrder(2, 3);
    ByteOrder(3, 3);
    ByteOrder(3, 4);
    ByteOrder(4, 4);
    assert InSpan(CompareDefault, [(i + 1) as byte], es, i);
  }

  /** The pages of the levels, numbered from the leaves up. */
  lemma NarrowPids(q: nat, i: nat)
    requires q < |NarrowLevels()| && i < |NarrowLevels()[q]|
    ensures NarrowLevels()[q][i].pid == if q == 0 then i else if q == 1 then 4 + i else 6
    ensures i < if q == 0 then 4 else if q == 1 then 2 else 1
  {
  }

  lemma NarrowPlaced()
    ensures Placed(NarrowTree(), NarrowLevels()) && ZeroFirst(NarrowLevels())
  {
    var s, lv: seq<Level> := NarrowTree(), NarrowLevels();
    assert forall x :: 0 <= x < 7 ==> PageOk(s[x], if x < 4 then 0 else 1);
    hide NarrowTree, NarrowLevels;
    forall q, i {:trigger lv[q][i]} | 0 <= q < |lv| && 0 <= i < |lv[q]|
      ensures lv[q][i].pid < |s| && PageOk(s[lv[q][i].pid], q) && (lv[q][i].pid == 0 ==> q == 0 && i == 0)
    {
      NarrowPids(q, i);
    }
  }

  lemma NarrowDistinct()
    ensures Distinct(NarrowLevels())
  {
    hide NarrowLevels;
    var lv: seq<Level> := NarrowLevels();
    forall q, i, r, j | 0 <= q < |lv| && 0 <= i < |lv[q]| && 0 <= r < |lv| && 0 <= j < |lv[r]|
      && lv[r][j].pid == lv[q][i].pid
      ensures r == q && j == i
    {
      NarrowPids(q, i);
      NarrowPids(r, j);
      NarrowHeight();
    }
  }

  lemma NarrowHeight()
    ensures |NarrowLevels()| == 3 && |NarrowTree()| == 7
  {
  }

  lemma NarrowLinks()
    ensures Parents(NarrowTree(), 6, NarrowLevels(), NoGap) && Chain(NarrowTree(), NarrowLevels()[0])
  {
    var s, lv: seq<Level> := NarrowTree(), NarrowLevels();
    forall q, j {:trigger lv[q][j]} | 1 <= q < |lv| && 0 <= j < |lv[q]|
      ensures ParentOf(s, lv[q][j].pid)
    {
      assert lv[q][j].pid == 4 || lv[q][j].pid == 5 || lv[q][j].pid == 6;
    }
  }

  lemma NarrowTreeOk()
    ensures TreeOk(CompareDefault, NarrowTree(), 6, NarrowLevels())
  {
    hide CompareDefault, Order, Linked, Placed, Distinct, ZeroFirst, Bounds, Parents, Chain, LeafAt;
    CompareDefaultIsOrder();
    NarrowLinked();
    NarrowPlaced();
    NarrowDistinct();
    NarrowBounds();
    NarrowLinks();
    forall i | 0 <= i < 4
      ensures LeafAt(CompareDefault, NarrowTree(), NarrowLevels()[0], i)
    {
      NarrowLeaf(i);
    }
    NarrowRoom();
  }

  lemma NarrowRoom()
    ensures Room(NarrowTree(), NarrowLevels()) && Filled(NarrowTree(), NarrowLevels())
  {
    var s, lv: seq<Level> := NarrowTree(), NarrowLevels();
    forall x | 0 <= x < |s|
      ensures |s[x].recs| == 1 && Fits(s[x].recs)
    {
      UsedOne(s[x].recs[0]);
      UsedFits(s[x].recs);
    }
  }

  /** Deleting key 1 from this tree empties a leaf, whose merge takes the only separator of an
      internal page, which then is merged as if it were a leaf. */
  lemma NarrowDelete()
    ensures TreeOk(CompareDefault, NarrowTree(), 6, NarrowLevels())
    ensures [1] in ToMap(Records(NarrowTree(), NarrowLevels()[0]))
    ensures !DeleteSafe(CompareDefault, NarrowTree(), 6, [1])
  {
    NarrowTreeOk();
    NarrowStored();
    NarrowPath();
    NarrowUnsafe();
  }

  lemma NarrowStored()
    ensures [1] in ToMap(Records(NarrowTree(), NarrowLevels()[0]))
  {
    var s, es := NarrowTree(), NarrowLevels()[0];
    RecordsSplit(s, es, 0);
    hide Records, ToMap;
    var recs := Records(s, es);
    assert es[..0] == [];
    NoRecords(s);
    assert recs[0] == LeafRec([1], [], false);
    ToMapKeys(recs, [1]);
  }

  lemma NoRecords(s: seq<Page>)
    ensures Records(s, []) == []
  {
  }

  lemma NarrowPath()
    ensures FullPath(CompareDefault, NarrowTree(), 6, [1]) == [6, 4, 0]
  {
    hide CompareDefault;
    var s := NarrowTree();
    ByteOrder(1, 2);
    ByteOrder(1, 3);
    assert PathOf(CompareDefault, s, 0, [1], BTREE_MAX_DEPTH - 3) == [0];
    assert PathOf(CompareDefault, s, 4, [1], BTREE_MAX_DEPTH - 2) == [4] + [0];
    assert PathOf(CompareDefault, s, 6, [1], BTREE_MAX_DEPTH - 1) == [6] + [4, 0];
  }

  lemma NarrowUnsafe()
    requires FullPath(CompareDefault, NarrowTree(), 6, [1]) == [6, 4, 0]
    ensures !DeleteSafe(CompareDefault, NarrowTree(), 6, [1])
  {
    hide CompareDefault, FullPath;
    var s := NarrowTree();
    assert WithoutKey(s[0].recs, [1]) == [];
    assert [] + s[1].recs == s[1].recs;
    UsedOne(s[1].recs[0]);
    UsedFits(s[1].recs);
  }
}
