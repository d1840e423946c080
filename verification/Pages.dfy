/** Pages as the tree code sees them: a header and a directory of records
    (src/page.h, src/page.c). The byte layout behind this view is in SlottedPage. */
module Pages {
  import opened Comparator

  type PageId = nat

  const PAGE_SIZE := 4096
  const PAGE_HEADER_SIZE := 32
  const SLOT_SIZE := 4
  const INVALID_PAGE_ID: PageId := 0

  datatype Kind = LeafPage | InternalPage

  /** A leaf record carries a value and a deletion mark, an internal record the
      page to the right of its separator key. */
  datatype Rec =
    | LeafRec(key: Key, val: seq<byte>, deleted: bool)
    | ChildRec(key: Key, child: PageId)

  datatype Page = Page(kind: Kind, parent: PageId, prev: PageId, next: PageId,
                       firstChild: PageId, recs: seq<Rec>)

  datatype Error = Ok | NotFound | IoError | Corrupted

  /** A freshly initialised page. */
  function InitPage(kind: Kind): Page {
    Page(kind, INVALID_PAGE_ID, INVALID_PAGE_ID, INVALID_PAGE_ID, INVALID_PAGE_ID, [])
  }

  /** Bytes a packed record takes: two length fields and the deletion mark for a
      leaf record, one length field and the page number for an internal one. */
  function RecSize(r: Rec): nat {
    match r
    case LeafRec(key, val, _) => 2 + |key| + 2 + |val| + 1
    case ChildRec(key, _) => 2 + |key| + 4
  }

  /** Bytes taken by all records of a page, which page.c keeps as PAGE_SIZE - free_offset. */
  function DataSize(recs: seq<Rec>): nat {
    if recs == [] then 0 else DataSize(recs[..|recs| - 1]) + RecSize(recs[|recs| - 1])
  }

  function FrontEnd(recs: seq<Rec>): nat {
    PAGE_HEADER_SIZE + SLOT_SIZE * |recs|
  }

  function FreeOffset(recs: seq<Rec>): int {
    PAGE_SIZE - DataSize(recs)
  }

  /** The slot directory and the records do not meet. */
  predicate Fits(recs: seq<Rec>) {
    FrontEnd(recs) <= FreeOffset(recs)
  }

  lemma {:induction false} DataSizeConcat(a: seq<Rec>, b: seq<Rec>)
    ensures DataSize(a + b) == DataSize(a) + DataSize(b)
  {
    if b == [] {
      assert a + b == a;
    } else {
      var n := |b| - 1;
      DataSizeConcat(a, b[..n]);
      assert (a + b)[..|a + b| - 1] == a + b[..n];
    }
  }

  /** A page that holds some records can also hold any part of them. */
  lemma FitsPart(a: seq<Rec>, b: seq<Rec>, c: seq<Rec>)
    requires Fits(a + b + c)
    ensures Fits(a) && Fits(b) && Fits(c) && Fits(a + b) && Fits(a + c)
  {
    DataSizeConcat(a + b, c);
    DataSizeConcat(a, b);
    DataSizeConcat(a, c);
  }

  function InsertAt<T>(s: seq<T>, i: nat, x: T): (r: seq<T>)
    requires i <= |s|
    ensures |r| == |s| + 1
  {
    s[..i] + [x] + s[i..]
  }

  function RemoveAt<T>(s: seq<T>, i: nat): (r: seq<T>)
    requires i < |s|
    ensures |r| == |s| - 1
  {
    s[..i] + s[i + 1..]
  }

  /** page_insert_slot's space check, which counts the new slot. */
  predicate InsertFits(recs: seq<Rec>, r: Rec) {
    FreeOffset(recs) >= FrontEnd(recs) + SLOT_SIZE + RecSize(r)
  }

  /** page_insert_slot refuses exactly the records that would make directory and records meet. */
  lemma InsertFitsIffFits(recs: seq<Rec>, i: nat, r: Rec)
    requires i <= |recs|
    ensures InsertFits(recs, r) <==> Fits(InsertAt(recs, i, r))
  {
    DataSizeConcat(recs[..i] + [r], recs[i..]);
    DataSizeConcat(recs[..i], [r]);
    DataSizeConcat(recs[..i], recs[i..]);
    assert recs == recs[..i] + recs[i..];
    assert [r][..0] == [];
  }

  /** page_alloc_slot's space check, which does not count the new slot. */
  predicate AllocAccepts(recs: seq<Rec>, r: Rec) {
    FreeOffset(recs) >= FrontEnd(recs) + RecSize(r)
  }

  /** page_alloc_slot: append the record, or leave the page as it is. */
  function AllocSlot(p: Page, r: Rec): Page {
    if AllocAccepts(p.recs, r) then p.(recs := p.recs + [r]) else p
  }

  lemma AllocSlotFits(p: Page, r: Rec)
    requires Fits(p.recs + [r])
    ensures AllocSlot(p, r) == p.(recs := p.recs + [r])
  {
    DataSizeConcat(p.recs, [r]);
    assert [r][..0] == [];
  }
}
