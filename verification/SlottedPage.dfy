/** A page buffer edited in place: records inserted, appended and removed with
    compaction (src/page.c). */
module SlottedPages {
  import opened Comparator
  import opened Pages
  import opened Lists
  import opened PageBytes

  /** memcpy, and memmove when `d` was read from the same buffer first. */
  method CopyInto(a: array<byte>, at: nat, d: Bytes)
    requires at + |d| <= a.Length
    modifies a
    ensures a[..] == Splice(old(a[..]), at, d)
  {
    for i := 0 to |d|
      invariant forall k :: 0 <= k < a.Length ==> a[k] == if at <= k < at + i then d[k - at] else old(a[k])
    {
      a[at + i] := d[i];
    }
  }

  class SlottedPage {
    const bytes: array<byte>

    ghost predicate Valid()
      reads this, bytes
    {
      WellFormed(bytes[..])
    }

    ghost function Contents(): seq<Bytes>
      reads this, bytes
      requires Valid()
    {
      Records(bytes[..])
    }

    /** A buffer of a page; what it holds is up to page_init or the caller. */
    constructor ()
      ensures fresh(bytes) && bytes.Length == PAGE_SIZE
    {
      bytes := new byte[PAGE_SIZE](_ => 0);
    }

    method ReadU16(at: nat) returns (v: nat)
      requires at + 2 <= bytes.Length
      ensures v == U16(bytes[..], at)
    {
      var lo: int, hi: int := bytes[at], bytes[at + 1];
      v := lo + 256 * hi;
    }

    method WriteU16(at: nat, v: nat)
      requires at + 2 <= bytes.Length
      modifies bytes
      ensures bytes[..] == PutU16(old(bytes[..]), at, v)
    {
      CopyInto(bytes, at, U16Bytes(v));
    }

    method WriteU32(at: nat, v: nat)
      requires at + 4 <= bytes.Length
      modifies bytes
      ensures bytes[..] == Splice(old(bytes[..]), at, U32Bytes(v))
    {
      CopyInto(bytes, at, U32Bytes(v));
    }

    method WriteCounters(n: nat, off: nat, free: nat)
      requires bytes.Length == PAGE_SIZE
      modifies bytes
      ensures bytes[..] == PutCounters(old(bytes[..]), n, off, free)
    {
      WriteU16(NUM_SLOTS_AT, n);
      WriteU16(FREE_OFFSET_AT, off);
      WriteU16(FREE_SIZE_AT, free);
    }

    /** page_init: no records, and every link of the header cleared. */
    method Init(pid: nat, kind: byte)
      requires bytes.Length == PAGE_SIZE && pid < 0x1_0000_0000
      modifies bytes
      ensures Valid() && Contents() == []
      ensures U32(bytes[..], 0) == pid && bytes[TYPE_AT] == kind
      ensures U32(bytes[..], PARENT_AT) == INVALID_PAGE_ID && U32(bytes[..], PREV_AT) == INVALID_PAGE_ID
      ensures U32(bytes[..], NEXT_AT) == INVALID_PAGE_ID && U32(bytes[..], FIRST_CHILD_AT) == INVALID_PAGE_ID
    {
      for i := 0 to PAGE_SIZE
        invariant forall k :: 0 <= k < i ==> bytes[k] == 0
      {
        bytes[i] := 0;
      }
      WriteU32(0, pid);
      bytes[TYPE_AT] := kind;
      ghost var b := bytes[..];
      assert forall k {:trigger b[k]} :: TYPE_AT < k < PAGE_SIZE ==> b[k] == 0;
      InitFields(b, pid);
      WriteCounters(0, PAGE_SIZE, PAGE_SIZE - PAGE_HEADER_SIZE);
    }

    /** page_alloc_slot. Its space check leaves out the new slot: a record is accepted as soon
        as it fits without it, and the page stays well formed exactly when it fits with it. */
    method AllocSlot(data: Bytes) returns (r: int)
      requires Valid() && (data != [] || SlotAt(|Contents()| + 1) <= PAGE_SIZE)
      modifies bytes
      ensures r == -1 || r == |old(Contents())|
      ensures r == -1 <==> |Flat(old(Contents()))| + |data| + SlotAt(|old(Contents())|) > PAGE_SIZE
      ensures r == -1 ==> bytes[..] == old(bytes[..])
      ensures SameHeader(old(bytes[..]), bytes[..])
      ensures r != -1 ==> (Valid() <==> |Flat(old(Contents()))| + |data| + SlotAt(|old(Contents())| + 1) <= PAGE_SIZE)
      ensures r != -1 && Valid() ==> Contents() == old(Contents()) + [data]
      ensures r != -1 ==> var b := old(bytes[..]);
        && SlotAt(NumSlots(b)) + SLOT_SIZE <= PAGE_SIZE && |data| <= RecordsAt(b) <= PAGE_SIZE
        && bytes[..] == InsertBytes(b, NumSlots(b), data)
    {
      hide WellFormed, Records, Slots, U16, PutCounters, Splice, Flat, SlotBytes, SameHeader;
      ghost var b := bytes[..];
      Sizes(b);
      var n := ReadU16(NUM_SLOTS_AT);
      var free := ReadU16(FREE_OFFSET_AT);
      var frontEnd := SlotAt(n);
      if free < frontEnd + |data| {
        SameHeaderSelf(b);
        return -1;
      }
      InsertKeeps(b, n, data);
      var off := free - |data|;
      CopyInto(bytes, off, data);
      SpliceNothing(bytes[..], frontEnd + SLOT_SIZE, frontEnd);
      CopyInto(bytes, frontEnd, SlotBytes(Slot(off, |data|)));
      assert bytes[..] == OpenSlot(Splice(b, off, data), n, n, Slot(off, |data|));
      WriteCounters(n + 1, off, (off - frontEnd - SLOT_SIZE) % 65536);
      assert bytes[..] == InsertBytes(b, n, data);
      return n;
    }

    /** page_insert_slot: splices the record in at `idx`, or refuses and changes nothing. */
    method InsertSlot(idx: int, data: Bytes) returns (r: int)
      requires Valid()
      modifies bytes
      ensures Valid() && SameHeader(old(bytes[..]), bytes[..])
      ensures r == idx || r == -1
      ensures 0 <= idx <= |old(Contents())|
        && |Flat(old(Contents()))| + |data| + SlotAt(|old(Contents())| + 1) <= PAGE_SIZE
        ==> r == idx && Contents() == InsertAt(old(Contents()), idx, data)
      ensures r != -1 ==> var b := old(bytes[..]);
        && 0 <= idx <= NumSlots(b) && SlotAt(NumSlots(b)) + SLOT_SIZE <= PAGE_SIZE
        && |data| <= RecordsAt(b) <= PAGE_SIZE
        && bytes[..] == InsertBytes(b, idx, data)
      ensures !(0 <= idx <= |old(Contents())|
        && |Flat(old(Contents()))| + |data| + SlotAt(|old(Contents())| + 1) <= PAGE_SIZE)
        ==> r == -1 && bytes[..] == old(bytes[..])
    {
      hide WellFormed, Records, Slots, U16, PutCounters, Splice, Flat, SlotBytes, SameHeader, InsertAt;
      ghost var b := bytes[..];
      Sizes(b);
      SameHeaderSelf(b);
      var n := ReadU16(NUM_SLOTS_AT);
      if idx < 0 || idx > n {
        return -1;
      }
      var free := ReadU16(FREE_OFFSET_AT);
      var frontEnd := SlotAt(n);
      if free < frontEnd + SLOT_SIZE + |data| {
        return -1;
      }
      InsertKeeps(b, idx, data);
      var off := free - |data|;
      CopyInto(bytes, off, data);
      CopyInto(bytes, SlotAt(idx) + SLOT_SIZE, bytes[SlotAt(idx)..SlotAt(n)]);
      CopyInto(bytes, SlotAt(idx), SlotBytes(Slot(off, |data|)));
      assert bytes[..] == OpenSlot(Splice(b, off, data), n, idx, Slot(off, |data|));
      WriteCounters(n + 1, off, off - PAGE_HEADER_SIZE - (n + 1) * SLOT_SIZE);
      assert bytes[..] == InsertBytes(b, idx, data);
      return idx;
    }

    /** page_remove_slot: closes the gap in the directory and packs the remaining records
        against the end of the page; an index outside the directory changes nothing. */
    method RemoveSlot(idx: int)
      requires Valid()
      modifies bytes
      ensures Valid() && SameHeader(old(bytes[..]), bytes[..])
      ensures 0 <= idx < |old(Contents())| ==> Contents() == RemoveAt(old(Contents()), idx)
      ensures 0 <= idx < |old(Contents())| ==> FromTheEnd(bytes[..], |Contents()|)
      ensures !(0 <= idx < |old(Contents())|) ==> bytes[..] == old(bytes[..])
    {
      hide WellFormed, Records, Slots, U16, PutU16, Splice, Flat, SameHeader, RemoveAt, Compacting, Holds, FromTheEnd,
        ReadSlot;
      ghost var b := bytes[..];
      Sizes(b);
      SameHeaderSelf(b);
      var n := ReadU16(NUM_SLOTS_AT);
      if idx < 0 || idx >= n {
        return;
      }
      ghost var rs := RemoveAt(Contents(), idx);
      CloseSlotKeeps(b, idx);
      if idx < n - 1 {
        CopyInto(bytes, SlotAt(idx), bytes[SlotAt(idx) + SLOT_SIZE..SlotAt(n)]);
      } else {
        SpliceNothing(b, SlotAt(idx), SlotAt(n));
      }
      ghost var b1 := bytes[..];
      assert b1 == CloseSlot(b, n, idx);
      CloseSlotHeader(b, n, idx);
      n := n - 1;
      WriteU16(NUM_SLOTS_AT, n);
      CountSlots(b1, n, rs);
      SameHeaderTrans(b, b1, bytes[..]);
      if n == 0 {
        AllWritten(bytes[..], rs);
        WriteU16(FREE_OFFSET_AT, PAGE_SIZE);
        WriteU16(FREE_SIZE_AT, PAGE_SIZE - PAGE_HEADER_SIZE);
        SameHeaderTrans(b, PutU16(b1, NUM_SLOTS_AT, n), bytes[..]);
          return;
      }
      var temp := new byte[PAGE_SIZE];
      GatherRecords(temp, n, rs);
      ghost var b2 := bytes[..];
      var off := WriteRecords(temp, n, rs);
      ghost var c := bytes[..];
      HeaderSlices(b2, c);
      SameHeaderTrans(b, b2, c);
      HeaderCount(b2, c);
      FinishRemoval(c, rs);
      WriteU16(FREE_OFFSET_AT, off);
      WriteU16(FREE_SIZE_AT, off - PAGE_HEADER_SIZE - n * SLOT_SIZE);
      SameHeaderTrans(b, c, bytes[..]);
    }

    /** First loop of the compaction: the records one after the other into `temp`. */
    method GatherRecords(temp: array<byte>, n: nat, ghost rs: seq<Bytes>)
      requires temp != bytes && temp.Length == PAGE_SIZE
      requires n == |rs| && Holds(bytes[..], n, rs) && SlotAt(n) + |Flat(rs)| <= PAGE_SIZE
      modifies temp
      ensures temp[..|Flat(rs)|] == Flat(rs)
    {
      hide U16, Flat, Holds, Splice;
      NoneWritten(rs);
      var pos := 0;
      for i := 0 to n
        invariant pos == |Flat(rs[..i])| <= |Flat(rs)| && temp[..pos] == Flat(rs[..i])
      {
        FlatStep(rs, i);
        FlatPrefix(rs, i + 1, n);
        HeldRecord(bytes[..], n, rs, i);
        var o := ReadU16(SlotAt(i));
        var l := ReadU16(SlotAt(i) + 2);
        ghost var t := temp[..];
        CopyInto(temp, pos, bytes[o..o + l]);
        SpliceJoins(t, pos, rs[i]);
        pos := pos + l;
      }
      assert rs[..n] == rs;
    }

    /** Second loop of the compaction: the records back to the end of the page. */
    method WriteRecords(temp: array<byte>, n: nat, ghost rs: seq<Bytes>) returns (off: nat)
      requires temp != bytes && temp.Length == PAGE_SIZE
      requires n == |rs| && Compacting(bytes[..], rs, 0) && temp[..|Flat(rs)|] == Flat(rs)
      modifies bytes
      ensures Compacting(bytes[..], rs, n) && off == PAGE_SIZE - |Flat(rs)|
      ensures bytes[..][..PAGE_HEADER_SIZE] == old(bytes[..])[..PAGE_HEADER_SIZE]
    {
      hide U16, Flat, Splice, PutU16, Compacting;
      CompactingFits(bytes[..], rs, 0);
      NoneWritten(rs);
      off := PAGE_SIZE;
      var pos := 0;
      for i := 0 to n
        invariant Compacting(bytes[..], rs, i)
        invariant pos == |Flat(rs[..i])| && off == PAGE_SIZE - pos
        invariant temp[..|Flat(rs)|] == Flat(rs)
        invariant bytes[..][..PAGE_HEADER_SIZE] == old(bytes[..])[..PAGE_HEADER_SIZE]
      {
        ghost var b := bytes[..];
        CompactingFits(b, rs, i);
        WriteBackStep(b, rs, i);
        FlatStep(rs, i);
        FlatPiece(temp[..], rs, i);
        CompactingLength(b, rs, i, i);
        var l := ReadU16(SlotAt(i) + 2);
        off := off - l;
        assert off == Place(rs, i);
        CopyInto(bytes, off, temp[pos..pos + l]);
        WriteU16(SlotAt(i), off);
        pos := pos + l;
      }
      assert rs[..n] == rs;
    }

    /** page_get_slot: the empty slot outside the directory. */
    method GetSlot(idx: int) returns (s: Slot)
      requires Valid()
      ensures s == if 0 <= idx < |Contents()| then Slots(bytes[..], |Contents()|)[idx] else Slot(0, 0)
    {
      var n := ReadU16(NUM_SLOTS_AT);
      if idx < 0 || idx >= n {
        return Slot(0, 0);
      }
      var o := ReadU16(SlotAt(idx));
      var l := ReadU16(SlotAt(idx) + 2);
      return Slot(o, l);
    }

    /** page_slot_data: the record itself, or nothing for an empty record or a bad index. */
    method SlotData(idx: int) returns (found: bool, data: Bytes)
      requires Valid()
      ensures found <==> 0 <= idx < |Contents()| && Contents()[idx] != []
      ensures found ==> data == Contents()[idx]
    {
      var s := GetSlot(idx);
      if s.length == 0 {
        return false, [];
      }
      return true, bytes[s.offset..s.offset + s.length];
    }
  }
}
