/** Records packed into bytes, and byte pages as images of the tree's pages
    (src/page.h, src/page.c). */
module PackedRecords {
  import opened Comparator
  import opened Pages
  import opened Lists
  import opened PageBytes
  import opened SlottedPages

  const PAGE_INTERNAL: byte := 1
  const PAGE_LEAF: byte := 2

  /** Lengths fit 16-bit fields and page numbers 32-bit ones. */
  predicate Packable(r: Rec) {
    match r
    case LeafRec(key, val, _) => |key| < 65536 && |val| < 65536
    case ChildRec(key, child) => |key| < 65536 && child < 0x1_0000_0000
  }

  /** leaf_rec_pack and internal_rec_pack. */
  function Pack(r: Rec): (b: Bytes)
    ensures |b| == RecSize(r)
  {
    match r
    case LeafRec(key, val, deleted) => U16Bytes(|key|) + key + U16Bytes(|val|) + val + [if deleted then 1 else 0]
    case ChildRec(key, child) => U16Bytes(|key|) + key + U32Bytes(child)
  }

  /** The bytes of a packed record as one of its page's kind: the accessors leaf_key_len,
      leaf_key_ptr, leaf_val_len, leaf_val_ptr, leaf_is_deleted and internal_child_id. */
  function KeyLen(b: Bytes): nat
    requires 2 <= |b|
  {
    U16(b, 0)
  }

  function Unpack(kind: Kind, b: Bytes): Rec
    requires 2 <= |b| && 2 + KeyLen(b) <= |b|
    requires kind == LeafPage ==> 2 + KeyLen(b) + 2 <= |b| && 2 + KeyLen(b) + 2 + U16(b, 2 + KeyLen(b)) < |b|
    requires kind == InternalPage ==> 2 + KeyLen(b) + 4 <= |b|
  {
    var k := KeyLen(b);
    var key := b[2..2 + k];
    if kind == LeafPage then
      var v := U16(b, 2 + k);
      LeafRec(key, b[2 + k + 2..2 + k + 2 + v], b[2 + k + 2 + v] != 0)
    else
      ChildRec(key, U32(b, 2 + k))
  }

  function KindOf(r: Rec): Kind {
    if r.LeafRec? then LeafPage else InternalPage
  }

  lemma PackFields(r: Rec)
    requires Packable(r)
    ensures 2 + |r.key| <= |Pack(r)| && U16(Pack(r), 0) == |r.key| && Pack(r)[2..2 + |r.key|] == r.key
    ensures r.LeafRec? ==> var k := 2 + |r.key|;
      && k + 2 + |r.val| + 1 == |Pack(r)| && U16(Pack(r), k) == |r.val|
      && Pack(r)[k + 2..k + 2 + |r.val|] == r.val && Pack(r)[k + 2 + |r.val|] == (if r.deleted then 1 else 0)
    ensures r.ChildRec? ==> 2 + |r.key| + 4 == |Pack(r)| && U32(Pack(r), 2 + |r.key|) == r.child
  {
    hide U16, U16Bytes, U32, U32Bytes;
    var b, k := Pack(r), 2 + |r.key|;
    assert b[0..2] == U16Bytes(|r.key|) == U16Bytes(|r.key|)[0..2];
    U16Slice(b, U16Bytes(|r.key|), 0, 0);
    U16OfBytes(|r.key|);
    match r
    case LeafRec(key, val, deleted) =>
      assert b[k..k + 2] == U16Bytes(|val|) == U16Bytes(|val|)[0..2];
      U16Slice(b, U16Bytes(|val|), k, 0);
      U16OfBytes(|val|);
    case ChildRec(key, child) =>
      assert b[k..k + 4] == U32Bytes(child) == U32Bytes(child)[0..4];
      U32Slice(b, U32Bytes(child), k, 0);
      U32OfBytes(child);
  }

  /** Packing loses nothing: every field comes back. */
  lemma RoundTrip(r: Rec)
    requires Packable(r)
    ensures var b := Pack(r);
      && |b| == RecSize(r) && 2 <= |b| && 2 + KeyLen(b) <= |b|
      && (r.LeafRec? ==> 2 + KeyLen(b) + 2 <= |b| && 2 + KeyLen(b) + 2 + U16(b, 2 + KeyLen(b)) < |b|)
      && (r.ChildRec? ==> 2 + KeyLen(b) + 4 <= |b|)
      && Unpack(KindOf(r), b) == r
  {
    hide U16, U32, Pack;
    PackFields(r);
  }

  // ---------------------------------------------------------------- pages

  function PackAll(recs: seq<Rec>): (r: seq<Bytes>)
    ensures |r| == |recs|
  {
    seq(|recs|, i requires 0 <= i < |recs| => Pack(recs[i]))
  }

  lemma {:induction false} PackAllSize(recs: seq<Rec>)
    ensures |Flat(PackAll(recs))| == DataSize(recs)
  {
    if recs != [] {
      var n := |recs| - 1;
      PackAllSize(recs[..n]);
      assert PackAll(recs)[..n] == PackAll(recs[..n]);
    }
  }

  /** All records of a page are of its kind and fit their fields. */
  predicate PackablePage(p: Page) {
    && (forall i :: 0 <= i < |p.recs| ==> Packable(p.recs[i]) && KindOf(p.recs[i]) == p.kind)
    && p.parent < 0x1_0000_0000 && p.prev < 0x1_0000_0000 && p.next < 0x1_0000_0000 && p.firstChild < 0x1_0000_0000
  }

  predicate HeaderIs(b: Bytes, p: Page)
    requires |b| == PAGE_SIZE
  {
    && b[TYPE_AT] == (if p.kind == LeafPage then PAGE_LEAF else PAGE_INTERNAL)
    && U32(b, PARENT_AT) == p.parent && U32(b, PREV_AT) == p.prev
    && U32(b, NEXT_AT) == p.next && U32(b, FIRST_CHILD_AT) == p.firstChild
  }

  /** The 4096 bytes `b` hold page `p`. */
  ghost predicate Image(b: Bytes, p: Page) {
    PackablePage(p) && Represents(b, PackAll(p.recs)) && HeaderIs(b, p)
  }

  /** No bytes hold two different pages. */
  lemma ImageUnique(b: Bytes, p: Page, q: Page)
    requires Image(b, p) && Image(b, q)
    ensures p == q
  {
    hide Represents, U16, U32, Pack, Unpack;
    assert PackAll(p.recs) == PackAll(q.recs) by { SameRecords(b, PackAll(p.recs), PackAll(q.recs)); }
    assert p.kind == q.kind;
    forall i | 0 <= i < |p.recs|
      ensures p.recs[i] == q.recs[i]
    {
      assert PackAll(p.recs)[i] == Pack(p.recs[i]) && PackAll(q.recs)[i] == Pack(q.recs[i]);
      RoundTrip(p.recs[i]);
      RoundTrip(q.recs[i]);
    }
  }

  lemma SameRecords(b: Bytes, x: seq<Bytes>, y: seq<Bytes>)
    requires Represents(b, x) && Represents(b, y)
    ensures x == y
  {
  }

  /** A header written elsewhere keeps the fields of the tree page. */
  lemma HeaderKept(b: Bytes, c: Bytes, p: Page)
    requires |b| == PAGE_SIZE && |c| == PAGE_SIZE && SameHeader(b, c) && HeaderIs(b, p)
    ensures HeaderIs(c, p)
  {
    hide U32;
    assert b[TYPE_AT] == b[..NUM_SLOTS_AT][TYPE_AT] == c[..NUM_SLOTS_AT][TYPE_AT] == c[TYPE_AT];
    HeaderField(b, c, PARENT_AT);
    HeaderField(b, c, PREV_AT);
    HeaderField(b, c, NEXT_AT);
    HeaderField(b, c, FIRST_CHILD_AT);
  }

  lemma HeaderField(b: Bytes, c: Bytes, at: nat)
    requires |b| == PAGE_SIZE && |c| == PAGE_SIZE && SameHeader(b, c) && PARENT_AT <= at && at + 4 <= PAGE_HEADER_SIZE
    ensures U32(b, at) == U32(c, at)
  {
    SliceSlice(b, PARENT_AT, PAGE_HEADER_SIZE, at - PARENT_AT, at + 4 - PARENT_AT);
    SliceSlice(c, PARENT_AT, PAGE_HEADER_SIZE, at - PARENT_AT, at + 4 - PARENT_AT);
    U32Slice(b, c, at, at);
  }

  /** An image has room for its slots and records, and only such pages have images. */
  lemma ImageFits(b: Bytes, p: Page)
    requires Image(b, p)
    ensures Fits(p.recs)
  {
    hide U16, U32, Flat, Pack;
    PackAllSize(p.recs);
    Sizes(b);
  }

  lemma ImageCounters(b: Bytes, p: Page)
    requires Image(b, p)
    ensures |b| == PAGE_SIZE && NumSlots(b) == |p.recs| && RecordsAt(b) == FreeOffset(p.recs)
  {
    hide U16, U32, Flat, Pack;
    PackAllSize(p.recs);
    Sizes(b);
  }

  /** The 4096 bytes of a page, place by place: type 2 for leaves and 1 for internal pages, slot
      count, start of the records, free bytes, the four page numbers, and the directory, where
      each slot has offset and length of its record. */
  lemma ImageLayout(b: Bytes, p: Page)
    requires Image(b, p)
    ensures |b| == 4096 && b[4] == (if p.kind == LeafPage then 2 else 1)
    ensures U16(b, 5) == |p.recs| && U16(b, 7) == 4096 - DataSize(p.recs)
    ensures U16(b, 9) == 4096 - DataSize(p.recs) - 32 - 4 * |p.recs|
    ensures U32(b, 11) == p.parent && U32(b, 15) == p.prev && U32(b, 19) == p.next && U32(b, 23) == p.firstChild
    ensures 32 + 4 * |p.recs| <= 4096
    ensures forall i :: 0 <= i < |p.recs| ==> SlotLayout(b, |p.recs|, i, Pack(p.recs[i]))
  {
    hide Flat, Pack, U16, U32, SlotLayout;
    ImageCounters(b, p);
    assert FreeSize(b) == RecordsAt(b) - SlotAt(NumSlots(b));
    forall i | 0 <= i < |p.recs|
      ensures SlotLayout(b, |p.recs|, i, Pack(p.recs[i]))
    {
      SlotBytesAt(b, p, i);
    }
  }

  /** Slot `i` of `n` leads to the bytes `d`. */
  predicate SlotLayout(b: Bytes, n: nat, i: nat, d: Bytes)
    requires i < n && |b| == 4096 && 32 + 4 * n <= 4096
  {
    var off, len := U16(b, 32 + 4 * i), U16(b, 34 + 4 * i);
    32 + 4 * n <= off && off + len <= 4096 && b[off..off + len] == d
  }

  lemma SlotBytesAt(b: Bytes, p: Page, i: nat)
    requires Image(b, p) && i < |p.recs| && |b| == PAGE_SIZE && NumSlots(b) == |p.recs| && SlotAt(|p.recs|) <= PAGE_SIZE
    ensures SlotLayout(b, |p.recs|, i, Pack(p.recs[i]))
    ensures var off, len := U16(b, 32 + 4 * i), U16(b, 34 + 4 * i);
      SlotAt(|p.recs|) <= off && off + len <= PAGE_SIZE && b[off..off + len] == Pack(p.recs[i])
  {
    hide Flat, Pack, U16, HeaderIs, PackablePage;
    var x := Slots(b, |p.recs|)[i];
    assert x == ReadSlot(b, i) == Slot(U16(b, 32 + 4 * i), U16(b, 34 + 4 * i));
    assert Records(b)[i] == DataOf(b, x) && PackAll(p.recs)[i] == Pack(p.recs[i]);
  }

  /** The bytes of a record: key length, key, and for a leaf value length, value and a flag, for an
      internal page the child's number. */
  lemma PackLayout(r: Rec)
    requires Packable(r)
    ensures var b, k := Pack(r), 2 + |r.key|;
      && |b| >= k && U16(b, 0) == |r.key| && b[2..k] == r.key
      && (r.LeafRec? ==>
            && |b| == k + 2 + |r.val| + 1 && U16(b, k) == |r.val|
            && b[k + 2..k + 2 + |r.val|] == r.val && b[k + 2 + |r.val|] == (if r.deleted then 1 else 0))
      && (r.ChildRec? ==> |b| == k + 4 && U32(b, k) == r.child)
  {
    hide Pack, U16, U32;
    PackFields(r);
  }

  /** page_init gives the bytes of an empty page of its kind, type 2 being a leaf. */
  method InitTreePage(page: SlottedPage, pid: PageId, kind: Kind)
    requires page.bytes.Length == PAGE_SIZE && pid < 0x1_0000_0000
    modifies page.bytes
    ensures Image(page.bytes[..], InitPage(kind)) && page.bytes[4] == (if kind == LeafPage then 2 else 1)
  {
    hide Flat, U32;
    page.Init(pid, if kind == LeafPage then PAGE_LEAF else PAGE_INTERNAL);
    assert PackAll(InitPage(kind).recs) == [];
  }

  lemma PackAllInsert(recs: seq<Rec>, i: nat, r: Rec)
    requires i <= |recs|
    ensures PackAll(InsertAt(recs, i, r)) == InsertAt(PackAll(recs), i, Pack(r))
  {
    hide Pack;
  }

  lemma PackAllRemove(recs: seq<Rec>, i: nat)
    requires i < |recs|
    ensures PackAll(RemoveAt(recs, i)) == RemoveAt(PackAll(recs), i)
  {
    hide Pack;
  }

  /** page_insert_slot of a packed record is the tree's view of inserting it: accepted under
      the same test, and the bytes then hold the page with the record at `i`. */
  method InsertRecord(page: SlottedPage, ghost p: Page, i: nat, r: Rec) returns (ok: bool)
    requires Image(page.bytes[..], p) && Packable(r) && KindOf(r) == p.kind && i <= |p.recs|
    modifies page.bytes
    ensures ok == InsertFits(p.recs, r)
    ensures Image(page.bytes[..], if ok then p.(recs := InsertAt(p.recs, i, r)) else p)
  {
    hide U16, U32, Flat, Pack, WellFormed, Records, SameHeader, HeaderIs, InsertAt, PackAll;
    PackAllSize(p.recs);
    PackAllInsert(p.recs, i, r);
    ghost var b := page.bytes[..];
    PackableInsert(p, i, r);
    Sizes(b);
    var res := page.InsertSlot(i, Pack(r));
    HeaderKept(b, page.bytes[..], p);
    HeaderKept(b, page.bytes[..], p.(recs := InsertAt(p.recs, i, r))) by { HeaderOnly(b, p, InsertAt(p.recs, i, r)); }
    ok := res == i;
  }

  lemma PackableInsert(p: Page, i: nat, r: Rec)
    requires PackablePage(p) && Packable(r) && KindOf(r) == p.kind && i <= |p.recs|
    ensures PackablePage(p.(recs := InsertAt(p.recs, i, r)))
  {
  }

  lemma HeaderOnly(b: Bytes, p: Page, recs: seq<Rec>)
    requires |b| == PAGE_SIZE && HeaderIs(b, p)
    ensures HeaderIs(b, p.(recs := recs))
  {
  }

  /** page_remove_slot in the tree's view. */
  method RemoveRecord(page: SlottedPage, ghost p: Page, i: nat)
    requires Image(page.bytes[..], p) && i < |p.recs|
    modifies page.bytes
    ensures Image(page.bytes[..], p.(recs := RemoveAt(p.recs, i)))
  {
    hide U16, U32, Flat, Pack, WellFormed, Records, SameHeader, HeaderIs, RemoveAt, PackAll;
    PackAllRemove(p.recs, i);
    ghost var b := page.bytes[..];
    PackableRemove(p, i);
    Sizes(b);
    page.RemoveSlot(i);
    HeaderOnly(b, p, RemoveAt(p.recs, i));
    HeaderKept(b, page.bytes[..], p.(recs := RemoveAt(p.recs, i)));
  }

  lemma PackableRemove(p: Page, i: nat)
    requires PackablePage(p) && i < |p.recs|
    ensures PackablePage(p.(recs := RemoveAt(p.recs, i)))
  {
  }

  // ---------------------------------------------------------------- appending without room for the slot

  /** The accessors, reading at offset `at`, give the fields of `r`. */
  predicate ReadsAs(b: Bytes, at: nat, r: Rec) {
    && at + RecSize(r) <= |b|
    && U16(b, at) == |r.key| && b[at + 2..at + 2 + |r.key|] == r.key
    && var v := at + 2 + |r.key|;
       match r
       case LeafRec(_, val, deleted) =>
         U16(b, v) == |val| && b[v + 2..v + 2 + |val|] == val && (b[v + 2 + |val|] != 0 <==> deleted)
       case ChildRec(_, child) => U32(b, v) == child
  }

  /** The new slot lies over the first bytes of its own record, but would write what is there. */
  predicate SlotHarmless(recs: seq<Rec>, r: Rec)
    requires AllocAccepts(recs, r) && !Fits(recs + [r])
  {
    var off := FreeOffset(recs) - RecSize(r);
    var gap := off - FrontEnd(recs);
    OverlapGap(recs, r);
    SlotBytes(Slot(off, RecSize(r)))[gap..] == Pack(r)[..SLOT_SIZE - gap]
  }

  lemma OverlapGap(recs: seq<Rec>, r: Rec)
    requires AllocAccepts(recs, r) && !Fits(recs + [r])
    ensures 0 <= FreeOffset(recs) - RecSize(r) - FrontEnd(recs) < SLOT_SIZE <= RecSize(r)
    ensures SlotAt(|recs| + 1) <= PAGE_SIZE
  {
    DataSizeConcat(recs, [r]);
    assert [r][..0] == [];
  }

  /** What page_alloc_slot leaves when it takes a record without room for its slot: all earlier
      records can still be read, and the new one can exactly if the slot happens to hold the
      bytes it was written over. With two bytes to spare it never does: the record's length then
      stands where its key's length should. */
  lemma SlotOverRecord(b: Bytes, p: Page, r: Rec)
    requires Image(b, p) && Packable(r) && KindOf(r) == p.kind
    requires AllocAccepts(p.recs, r) && !Fits(p.recs + [r])
    ensures var n := |p.recs|;
      NumSlots(b) == n && SlotAt(n) + SLOT_SIZE <= PAGE_SIZE && RecSize(r) <= RecordsAt(b) <= PAGE_SIZE
    ensures var n, off, c := |p.recs|, FreeOffset(p.recs) - RecSize(r), InsertBytes(b, |p.recs|, Pack(r));
      && NumSlots(c) == n + 1 && SlotAt(n + 1) <= PAGE_SIZE && ReadSlot(c, n) == Slot(off, RecSize(r))
      && (forall i :: 0 <= i < n ==>
            ReadSlot(c, i).length == RecSize(p.recs[i]) && ReadsAs(c, ReadSlot(c, i).offset, p.recs[i]))
      && c[SlotAt(n + 1)..off + RecSize(r)] == Pack(r)[SlotAt(n + 1) - off..]
      && (ReadsAs(c, off, r) <==> SlotHarmless(p.recs, r))
      && (off == SlotAt(n) + 2 ==> U16(c, off) == RecSize(r) && !ReadsAs(c, off, r))
  {
    hide U16, U32, Pack, Image, InsertBytes, SlotBytes, ReadSlot, ReadsAs, Fits, Packable;
    ImageCounters(b, p);
    OverlapGap(p.recs, r);
    OverEarlier(b, p, r);
    var n, off, c := |p.recs|, FreeOffset(p.recs) - RecSize(r), InsertBytes(b, |p.recs|, Pack(r));
    var gap := off - SlotAt(n);
    OverReads(c, off, gap, r);
    SliceSlice(c, off, off + RecSize(r), SLOT_SIZE - gap, RecSize(r));
  }

  lemma OverEarlier(b: Bytes, p: Page, r: Rec)
    requires Image(b, p) && NumSlots(b) == |p.recs| && RecordsAt(b) == FreeOffset(p.recs)
    requires AllocAccepts(p.recs, r) && !Fits(p.recs + [r]) && SlotAt(|p.recs| + 1) <= PAGE_SIZE
    requires 0 <= FreeOffset(p.recs) - RecSize(r) - FrontEnd(p.recs) < SLOT_SIZE <= RecSize(r)
    ensures var n, off, c := |p.recs|, FreeOffset(p.recs) - RecSize(r), InsertBytes(b, |p.recs|, Pack(r));
      && NumSlots(c) == n + 1 && ReadSlot(c, n) == Slot(off, RecSize(r))
      && (forall i :: 0 <= i < n ==>
            ReadSlot(c, i).length == RecSize(p.recs[i]) && ReadsAs(c, ReadSlot(c, i).offset, p.recs[i]))
      && c[off..off + RecSize(r)] == SlotBytes(Slot(off, RecSize(r)))[off - SlotAt(n)..]
                                     + Pack(r)[SlotAt(n) + SLOT_SIZE - off..]
  {
    hide U16, U32, Flat, Pack, WellFormed, Records, PackAll, InsertBytes, SlotBytes, ReadSlot, ReadsAs, Fits;
    Sizes(b);
    AppendOver(b, Pack(r));
    var n, c := |p.recs|, InsertBytes(b, |p.recs|, Pack(r));
    var s := Slot(FreeOffset(p.recs) - RecSize(r), RecSize(r));
    forall i | 0 <= i < n
      ensures ReadSlot(c, i).length == RecSize(p.recs[i]) && ReadsAs(c, ReadSlot(c, i).offset, p.recs[i])
    {
      SlotInside(b, i);
      EarlierSlot(b, c, p, i, s);
      PackReads(c, ReadSlot(c, i).offset, p.recs[i]);
    }
    assert ReadSlot(c, n) == Slots(c, n + 1)[n];
  }

  lemma SlotInside(b: Bytes, i: nat)
    requires WellFormed(b) && i < NumSlots(b)
    ensures var x := Slots(b, NumSlots(b))[i]; x.offset + x.length <= PAGE_SIZE
  {
    hide U16, ReadSlot;
  }

  lemma EarlierSlot(b: Bytes, c: Bytes, p: Page, i: nat, s: Slot)
    requires Image(b, p) && |c| == PAGE_SIZE && i < |p.recs| && NumSlots(b) == |p.recs|
    requires SlotAt(|p.recs| + 1) <= PAGE_SIZE && Slots(c, |p.recs| + 1) == Slots(b, |p.recs|) + [s]
    requires var x := Slots(b, |p.recs|)[i]; x.offset + x.length <= PAGE_SIZE && DataOf(c, x) == Records(b)[i]
    ensures var x := ReadSlot(c, i);
      x.length == RecSize(p.recs[i]) && x.offset + x.length <= PAGE_SIZE && DataOf(c, x) == Pack(p.recs[i])
  {
    hide Pack, U16, ReadSlot;
    assert ReadSlot(c, i) == Slots(c, |p.recs| + 1)[i] == Slots(b, |p.recs|)[i];
    assert Records(b)[i] == Pack(p.recs[i]);
    assert |DataOf(c, ReadSlot(c, i))| == ReadSlot(c, i).length;
  }

  /** A packed record is read as it was packed. */
  lemma PackReads(b: Bytes, at: nat, r: Rec)
    requires Packable(r) && at + RecSize(r) <= |b| && b[at..at + RecSize(r)] == Pack(r)
    ensures ReadsAs(b, at, r)
  {
    hide U16, U32, Pack, RecSize;
    PackFields(r);
    var x, k := Pack(r), 2 + |r.key|;
    SliceSlice(b, at, at + |x|, 0, 2);
    SliceSlice(b, at, at + |x|, 2, k);
    U16Slice(b, x, at, 0);
    match r
    case LeafRec(_, val, _) =>
      SliceSlice(b, at, at + |x|, k, k + 2);
      SliceSlice(b, at, at + |x|, k + 2, k + 2 + |val|);
      U16Slice(b, x, at + k, k);
      assert b[at + k + 2 + |val|] == b[at..at + |x|][k + 2 + |val|];
    case ChildRec(_, _) =>
      SliceSlice(b, at, at + |x|, k, k + 4);
      U32Slice(b, x, at + k, k);
  }

  /** What is read as a record begins with the record's bytes. */
  lemma ReadsPrefix(b: Bytes, at: nat, r: Rec)
    requires Packable(r) && ReadsAs(b, at, r)
    ensures b[at..at + SLOT_SIZE] == Pack(r)[..SLOT_SIZE]
  {
    hide U16, U32, U16Bytes, U32Bytes;
    var v := at + 2 + |r.key|;
    U16Unique(b, at);
    var head := U16Bytes(|r.key|) + r.key;
    assert b[at..v] == b[at..at + 2] + b[at + 2..v] == head;
    match r
    case LeafRec(_, val, deleted) =>
      U16Unique(b, v);
      assert b[at..v + 2] == b[at..v] + b[v..v + 2] == head + U16Bytes(|val|);
      assert Pack(r)[..2 + |r.key| + 2] == head + U16Bytes(|val|);
      assert b[at..at + SLOT_SIZE] == b[at..v + 2][..SLOT_SIZE];
    case ChildRec(_, child) =>
      U32Unique(b, v);
      assert b[at..v + 4] == b[at..v] + b[v..v + 4] == Pack(r);
      assert b[at..at + SLOT_SIZE] == b[at..v + 4][..SLOT_SIZE];
  }

  lemma OverReads(c: Bytes, off: nat, gap: nat, r: Rec)
    requires Packable(r) && gap < SLOT_SIZE <= RecSize(r) && off + RecSize(r) <= |c| == PAGE_SIZE
    requires c[off..off + RecSize(r)] == SlotBytes(Slot(off, RecSize(r)))[gap..] + Pack(r)[SLOT_SIZE - gap..]
    ensures ReadsAs(c, off, r) <==> SlotBytes(Slot(off, RecSize(r)))[gap..] == Pack(r)[..SLOT_SIZE - gap]
    ensures gap == 2 ==> U16(c, off) == RecSize(r) && !ReadsAs(c, off, r)
  {
    hide U16, U32, Pack, U16Bytes;
    var s, x := SlotBytes(Slot(off, RecSize(r))), Pack(r);
    if s[gap..] == x[..SLOT_SIZE - gap] {
      assert c[off..off + |x|] == x[..SLOT_SIZE - gap] + x[SLOT_SIZE - gap..] == x;
      PackReads(c, off, r);
    }
    SliceSlice(c, off, off + |x|, 0, SLOT_SIZE - gap);
    assert c[off..off + SLOT_SIZE - gap] == s[gap..];
    if ReadsAs(c, off, r) {
      ReadsPrefix(c, off, r);
      assert c[off..off + SLOT_SIZE - gap] == c[off..off + SLOT_SIZE][..SLOT_SIZE - gap];
      assert x[..SLOT_SIZE - gap] == x[..SLOT_SIZE][..SLOT_SIZE - gap];
    }
    if gap == 2 {
      assert c[off..off + 2] == s[2..] == U16Bytes(RecSize(r)) == U16Bytes(RecSize(r))[0..2];
      U16Slice(c, U16Bytes(RecSize(r)), off, 0);
      U16OfBytes(RecSize(r));
    }
  }

  /** page_alloc_slot in the tree's view: the two accept the same records, and the bytes hold
      the longer page exactly when the record fits with its slot. Otherwise they are those of
      SlotOverRecord. */
  method AppendRecord(page: SlottedPage, ghost p: Page, r: Rec) returns (ok: bool)
    requires Image(page.bytes[..], p) && Packable(r) && KindOf(r) == p.kind
    modifies page.bytes
    ensures ok == AllocAccepts(p.recs, r)
    ensures !ok ==> Image(page.bytes[..], p)
    ensures ok ==> (Image(page.bytes[..], p.(recs := p.recs + [r])) <==> Fits(p.recs + [r]))
    ensures ok ==> var b := old(page.bytes[..]);
      && NumSlots(b) == |p.recs| && SlotAt(NumSlots(b)) + SLOT_SIZE <= PAGE_SIZE
      && RecSize(r) <= RecordsAt(b) <= PAGE_SIZE
      && page.bytes[..] == InsertBytes(b, |p.recs|, Pack(r))
  {
    hide U16, U32, Flat, Pack, WellFormed, Records, SameHeader, HeaderIs, PackAll, InsertBytes;
    PackAllSize(p.recs);
    ghost var b := page.bytes[..];
    Sizes(b);
    PackAllAppend(p, r);
    var res := page.AllocSlot(Pack(r));
    HeaderKept(b, page.bytes[..], p);
    HeaderOnly(page.bytes[..], p, p.recs + [r]);
    ok := res != -1;
  }

  lemma PackAllAppend(p: Page, r: Rec)
    requires PackablePage(p) && Packable(r) && KindOf(r) == p.kind
    ensures PackAll(p.recs + [r]) == PackAll(p.recs) + [Pack(r)]
    ensures PackablePage(p.(recs := p.recs + [r]))
    ensures Fits(p.recs + [r]) <==> DataSize(p.recs) + RecSize(r) + SlotAt(|p.recs| + 1) <= PAGE_SIZE
  {
    hide Pack;
    DataSizeConcat(p.recs, [r]);
    assert [r][..0] == [];
  }

  // ---------------------------------------------------------------- every tree page has an image

  /** The header of an empty page. */
  function HeaderBytes(p: Page): (r: Bytes)
    ensures |r| == PAGE_HEADER_SIZE
  {
    U32Bytes(0) + [if p.kind == LeafPage then PAGE_LEAF else PAGE_INTERNAL]
    + U16Bytes(0) + U16Bytes(PAGE_SIZE) + U16Bytes(PAGE_SIZE - PAGE_HEADER_SIZE)
    + U32Bytes(p.parent) + U32Bytes(p.prev) + U32Bytes(p.next) + U32Bytes(p.firstChild) + [0, 0, 0, 0, 0]
  }

  function BlankBytes(p: Page): (r: Bytes)
    ensures |r| == PAGE_SIZE
  {
    HeaderBytes(p) + seq(PAGE_SIZE - PAGE_HEADER_SIZE, _ => 0)
  }

  lemma HeaderAt(p: Page, at: nat, d: Bytes)
    requires at + |d| <= PAGE_HEADER_SIZE && HeaderBytes(p)[at..at + |d|] == d
    ensures BlankBytes(p)[at..at + |d|] == d == d[0..|d|]
  {
    hide HeaderBytes;
  }

  lemma HeaderParts(p: Page)
    ensures var h := HeaderBytes(p);
      && h[5..7] == U16Bytes(0) && h[7..9] == U16Bytes(PAGE_SIZE) && h[9..11] == U16Bytes(PAGE_SIZE - PAGE_HEADER_SIZE)
      && h[11..15] == U32Bytes(p.parent) && h[15..19] == U32Bytes(p.prev) && h[19..23] == U32Bytes(p.next)
      && h[23..27] == U32Bytes(p.firstChild) && h[4] == (if p.kind == LeafPage then PAGE_LEAF else PAGE_INTERNAL)
  {
    hide U16Bytes, U32Bytes;
  }

  lemma BlankField16(p: Page, at: nat, v: nat)
    requires at + 2 <= PAGE_HEADER_SIZE && HeaderBytes(p)[at..at + 2] == U16Bytes(v)
    ensures U16(BlankBytes(p), at) == v % 65536
  {
    hide HeaderBytes, BlankBytes, U16;
    HeaderAt(p, at, U16Bytes(v));
    U16Slice(BlankBytes(p), U16Bytes(v), at, 0);
    U16OfBytes(v);
  }

  lemma BlankField32(p: Page, at: nat, v: nat)
    requires at + 4 <= PAGE_HEADER_SIZE && HeaderBytes(p)[at..at + 4] == U32Bytes(v) && v < 0x1_0000_0000
    ensures U32(BlankBytes(p), at) == v
  {
    hide HeaderBytes, BlankBytes, U32;
    HeaderAt(p, at, U32Bytes(v));
    U32Slice(BlankBytes(p), U32Bytes(v), at, 0);
    U32OfBytes(v);
  }

  lemma BlankRepresents(p: Page)
    ensures Represents(BlankBytes(p), [])
  {
    hide HeaderBytes, BlankBytes, U16, U32, U16Bytes, U32Bytes;
    HeaderParts(p);
    BlankField16(p, NUM_SLOTS_AT, 0);
    BlankField16(p, FREE_OFFSET_AT, PAGE_SIZE);
    BlankField16(p, FREE_SIZE_AT, PAGE_SIZE - PAGE_HEADER_SIZE);
  }

  lemma BlankHeader(p: Page)
    requires PackablePage(p)
    ensures HeaderIs(BlankBytes(p), p)
  {
    assert BlankBytes(p)[TYPE_AT] == HeaderBytes(p)[TYPE_AT] by { hide HeaderBytes; }
    hide HeaderBytes, BlankBytes, U32, U16Bytes, U32Bytes;
    HeaderParts(p);
    BlankField32(p, PARENT_AT, p.parent);
    BlankField32(p, PREV_AT, p.prev);
    BlankField32(p, NEXT_AT, p.next);
    BlankField32(p, FIRST_CHILD_AT, p.firstChild);
  }

  lemma BlankImage(p: Page)
    requires PackablePage(p) && p.recs == []
    ensures Image(BlankBytes(p), p)
  {
    hide BlankBytes, Represents, HeaderIs;
    BlankRepresents(p);
    BlankHeader(p);
    assert PackAll(p.recs) == [];
  }

  lemma AppendImage(b: Bytes, p: Page, r: Rec)
    requires Image(b, p) && Packable(r) && KindOf(r) == p.kind && Fits(p.recs + [r])
    ensures exists c :: Image(c, p.(recs := p.recs + [r]))
  {
    hide U16, U32, Flat, Pack, WellFormed, Records, SameHeader, HeaderIs, PackAll, InsertBytes, InsertAt, Fits;
    PackAllSize(p.recs);
    Sizes(b);
    PackAllAppend(p, r);
    var n := |p.recs|;
    InsertKeeps(b, n, Pack(r));
    var c := InsertBytes(b, n, Pack(r));
    InsertLast(PackAll(p.recs), Pack(r));
    HeaderKept(b, c, p);
    HeaderOnly(c, p, p.recs + [r]);
    assert Image(c, p.(recs := p.recs + [r]));
  }

  lemma InsertLast<T>(s: seq<T>, x: T)
    ensures InsertAt(s, |s|, x) == s + [x]
  {
  }

  lemma {:induction false} ImageExists(p: Page)
    requires PackablePage(p) && Fits(p.recs)
    ensures exists b :: Image(b, p)
    decreases |p.recs|
  {
    hide Image;
    if p.recs == [] {
      BlankImage(p);
    } else {
      var n := |p.recs| - 1;
      var q := p.(recs := p.recs[..n]);
      assert p.recs[..n] + p.recs[n..] + [] == p.recs;
      FitsPart(p.recs[..n], p.recs[n..], []);
      ImageExists(q);
      var b :| Image(b, q);
      assert q.recs + [p.recs[n]] == p.recs;
      AppendImage(b, q, p.recs[n]);
      assert q.(recs := p.recs) == p;
    }
  }

  /** The pages that some 4096 bytes hold are exactly those whose fields fit their widths and
      whose records fit with their slots. */
  lemma ImageIffFits(p: Page)
    ensures (exists b :: Image(b, p)) <==> PackablePage(p) && Fits(p.recs)
  {
    if b :| Image(b, p) {
      ImageFits(b, p);
    }
    if PackablePage(p) && Fits(p.recs) {
      ImageExists(p);
    }
  }
}
