/** The 4096 bytes of a page: little-endian header fields, a slot directory growing up
    from byte 32 and records growing down from byte 4096 (src/page.h, src/page.c). */
module PageBytes {
  import opened Comparator
  import opened Pages
  import opened Lists

  type Bytes = seq<byte>

  // Offsets of the header fields of page_header_t.
  const TYPE_AT := 4
  const NUM_SLOTS_AT := 5
  const FREE_OFFSET_AT := 7
  const FREE_SIZE_AT := 9
  const PARENT_AT := 11
  const PREV_AT := 15
  const NEXT_AT := 19
  const FIRST_CHILD_AT := 23

  /** `d` written over `b` at offset `at`. */
  function Splice(b: Bytes, at: nat, d: Bytes): (r: Bytes)
    requires at + |d| <= |b|
    ensures |r| == |b|
  {
    b[..at] + d + b[at + |d|..]
  }

  /** What a write leaves alone, and what it writes. */
  lemma SpliceRead(b: Bytes, at: nat, d: Bytes, i: nat, j: nat)
    requires at + |d| <= |b| && i <= j <= |b|
    ensures j <= at || at + |d| <= i ==> Splice(b, at, d)[i..j] == b[i..j]
    ensures at <= i && j <= at + |d| ==> Splice(b, at, d)[i..j] == d[i - at..j - at]
  {
    var l := Splice(b, at, d)[i..j];
    if j <= at || at + |d| <= i {
      forall k | 0 <= k < j - i
        ensures l[k] == b[i..j][k]
      {
        assert l[k] == Splice(b, at, d)[i + k];
      }
    }
    if at <= i && j <= at + |d| {
      forall k | 0 <= k < j - i
        ensures l[k] == d[i - at..j - at][k]
      {
        assert l[k] == Splice(b, at, d)[i + k];
      }
    }
  }

  /** A block copied within the buffer. */
  lemma SpliceCopy(b: Bytes, at: nat, from: nat, to: nat, i: nat, j: nat)
    requires from <= to <= |b| && at + (to - from) <= |b| && at <= i <= j <= at + (to - from)
    ensures Splice(b, at, b[from..to])[i..j] == b[i - at + from..j - at + from]
  {
    SpliceRead(b, at, b[from..to], i, j);
    SliceSlice(b, from, to, i - at, j - at);
  }

  // ---------------------------------------------------------------- 16-bit fields

  function U16Bytes(v: nat): (r: Bytes)
    ensures |r| == 2
  {
    [v % 256, v / 256 % 256]
  }

  function U16(b: Bytes, at: nat): (r: nat)
    requires at + 2 <= |b|
    ensures r < 65536
  {
    var lo: int, hi: int := b[at], b[at + 1];
    lo + 256 * hi
  }

  function PutU16(b: Bytes, at: nat, v: nat): (r: Bytes)
    requires at + 2 <= |b|
    ensures |r| == |b|
  {
    Splice(b, at, U16Bytes(v))
  }

  /** Numbers are stored with their low byte first. */
  lemma LittleEndian(b: Bytes, at: nat)
    requires at + 4 <= |b|
    ensures U16(b, at) == (b[at] as nat) + 0x100 * (b[at + 1] as nat)
    ensures U32(b, at) == U16(b, at) + 0x1_0000 * U16(b, at + 2)
  {
  }

  lemma U16OfBytes(v: nat)
    ensures U16(U16Bytes(v), 0) == v % 65536
  {
    assert v == v % 256 + 256 * (v / 256) && v / 256 == v / 256 % 256 + 256 * (v / 256 / 256);
  }

  /** A 16-bit value has one pair of bytes. */
  lemma U16Unique(b: Bytes, at: nat)
    requires at + 2 <= |b|
    ensures b[at..at + 2] == U16Bytes(U16(b, at))
  {
    LowByte(b[at] as nat, b[at + 1] as nat);
  }

  /** A 16-bit field depends on its own two bytes only. */
  lemma U16Slice(b: Bytes, c: Bytes, at: nat, o: nat)
    requires at + 2 <= |b| && o + 2 <= |c| && b[at..at + 2] == c[o..o + 2]
    ensures U16(b, at) == U16(c, o)
  {
    assert b[at] == b[at..at + 2][0] && b[at + 1] == b[at..at + 2][1];
    assert c[o] == c[o..o + 2][0] && c[o + 1] == c[o..o + 2][1];
  }

  /** Writing a 16-bit field changes that field alone, and truncates to 16 bits. */
  lemma PutU16Read(b: Bytes, at: nat, v: nat, o: nat)
    requires at + 2 <= |b| && o + 2 <= |b|
    ensures U16(PutU16(b, at, v), at) == v % 65536
    ensures o + 2 <= at || at + 2 <= o ==> U16(PutU16(b, at, v), o) == U16(b, o)
  {
    var r := PutU16(b, at, v);
    SpliceRead(b, at, U16Bytes(v), at, at + 2);
    assert U16Bytes(v)[0..2] == U16Bytes(v);
    U16Slice(r, U16Bytes(v), at, 0);
    U16OfBytes(v);
    if o + 2 <= at || at + 2 <= o {
      SpliceRead(b, at, U16Bytes(v), o, o + 2);
      U16Slice(r, b, o, o);
    }
  }

  // ---------------------------------------------------------------- 32-bit fields

  function U32Bytes(v: nat): (r: Bytes)
    ensures |r| == 4
  {
    [v % 256, v / 0x100 % 256, v / 0x1_0000 % 256, v / 0x100_0000 % 256]
  }

  function U32(b: Bytes, at: nat): (r: nat)
    requires at + 4 <= |b|
    ensures r < 0x1_0000_0000
  {
    var b0: int, b1: int, b2: int, b3: int := b[at], b[at + 1], b[at + 2], b[at + 3];
    b0 + 0x100 * b1 + 0x1_0000 * b2 + 0x100_0000 * b3
  }

  lemma U32OfBytes(v: nat)
    requires v < 0x1_0000_0000
    ensures U32(U32Bytes(v), 0) == v
  {
    assert v == v % 256 + 256 * (v / 256);
    assert v / 256 == v / 256 % 256 + 256 * (v / 0x1_0000);
    assert v / 0x1_0000 == v / 0x1_0000 % 256 + 256 * (v / 0x100_0000);
  }

  /** A 32-bit value has one quadruple of bytes. */
  lemma U32Unique(b: Bytes, at: nat)
    requires at + 4 <= |b|
    ensures b[at..at + 4] == U32Bytes(U32(b, at))
  {
    var b0: int, b1: int, b2: int, b3: int := b[at], b[at + 1], b[at + 2], b[at + 3];
    var w2 := b2 + 256 * b3;
    var w1 := b1 + 256 * w2;
    var v := b0 + 256 * w1;
    assert v == U32(b, at);
    LowByte(b0, w1);
    LowByte(b1, w2);
    LowByte(b2, b3);
    ShiftBytes(v);
  }

  lemma LowByte(lo: nat, hi: nat)
    requires lo < 256
    ensures (lo + 256 * hi) / 256 == hi && (lo + 256 * hi) % 256 == lo
  {
  }

  lemma ShiftBytes(v: nat)
    ensures v / 0x1_0000 == v / 256 / 256 && v / 0x100_0000 == v / 256 / 256 / 256
  {
  }

  lemma U32Slice(b: Bytes, c: Bytes, at: nat, o: nat)
    requires at + 4 <= |b| && o + 4 <= |c| && b[at..at + 4] == c[o..o + 4]
    ensures U32(b, at) == U32(c, o)
  {
    var x, y := b[at..at + 4], c[o..o + 4];
    assert x[0] == b[at] && x[1] == b[at + 1] && x[2] == b[at + 2] && x[3] == b[at + 3];
    assert y[0] == c[o] && y[1] == c[o + 1] && y[2] == c[o + 2] && y[3] == c[o + 3];
  }

  // ---------------------------------------------------------------- the directory

  datatype Slot = Slot(offset: nat, length: nat)

  function NumSlots(b: Bytes): nat
    requires |b| == PAGE_SIZE
  {
    U16(b, NUM_SLOTS_AT)
  }

  /** Where the records begin. */
  function RecordsAt(b: Bytes): nat
    requires |b| == PAGE_SIZE
  {
    U16(b, FREE_OFFSET_AT)
  }

  function FreeSize(b: Bytes): nat
    requires |b| == PAGE_SIZE
  {
    U16(b, FREE_SIZE_AT)
  }

  /** Where slot `i` lies. */
  function SlotAt(i: nat): (r: nat) {
    PAGE_HEADER_SIZE + SLOT_SIZE * i
  }

  function SlotBytes(s: Slot): (r: Bytes)
    ensures |r| == SLOT_SIZE
  {
    U16Bytes(s.offset) + U16Bytes(s.length)
  }

  function ReadSlot(b: Bytes, i: nat): Slot
    requires SlotAt(i) + SLOT_SIZE <= |b|
  {
    Slot(U16(b, SlotAt(i)), U16(b, SlotAt(i) + 2))
  }

  lemma ReadSlotSlice(b: Bytes, c: Bytes, i: nat, j: nat)
    requires SlotAt(i) + SLOT_SIZE <= |b| && SlotAt(j) + SLOT_SIZE <= |c|
    requires b[SlotAt(i)..SlotAt(i) + SLOT_SIZE] == c[SlotAt(j)..SlotAt(j) + SLOT_SIZE]
    ensures ReadSlot(b, i) == ReadSlot(c, j)
  {
    var x, y := b[SlotAt(i)..SlotAt(i) + SLOT_SIZE], c[SlotAt(j)..SlotAt(j) + SLOT_SIZE];
    assert b[SlotAt(i)..SlotAt(i) + 2] == x[..2] && c[SlotAt(j)..SlotAt(j) + 2] == y[..2];
    assert b[SlotAt(i) + 2..SlotAt(i) + 4] == x[2..4] && c[SlotAt(j) + 2..SlotAt(j) + 4] == y[2..4];
    U16Slice(b, c, SlotAt(i), SlotAt(j));
    U16Slice(b, c, SlotAt(i) + 2, SlotAt(j) + 2);
  }

  lemma ReadSlotBytes(b: Bytes, i: nat, s: Slot)
    requires SlotAt(i) + SLOT_SIZE <= |b| && s.offset < 65536 && s.length < 65536
    requires b[SlotAt(i)..SlotAt(i) + SLOT_SIZE] == SlotBytes(s)
    ensures ReadSlot(b, i) == s
  {
    var x := b[SlotAt(i)..SlotAt(i) + SLOT_SIZE];
    assert b[SlotAt(i)..SlotAt(i) + 2] == x[..2] == U16Bytes(s.offset) == U16Bytes(s.offset)[0..2];
    assert b[SlotAt(i) + 2..SlotAt(i) + 4] == x[2..4] == U16Bytes(s.length) == U16Bytes(s.length)[0..2];
    U16Slice(b, U16Bytes(s.offset), SlotAt(i), 0);
    U16Slice(b, U16Bytes(s.length), SlotAt(i) + 2, 0);
    U16OfBytes(s.offset);
    U16OfBytes(s.length);
  }

  /** The first `n` slots. */
  function Slots(b: Bytes, n: nat): (r: seq<Slot>)
    requires SlotAt(n) <= |b|
    ensures |r| == n
  {
    seq(n, i requires 0 <= i < n => ReadSlot(b, i))
  }

  function DataOf(b: Bytes, s: Slot): Bytes
    requires s.offset + s.length <= |b|
  {
    b[s.offset..s.offset + s.length]
  }

  predicate SlotsIn(slots: seq<Slot>, from: nat) {
    forall i :: 0 <= i < |slots| ==> from <= slots[i].offset && slots[i].offset + slots[i].length <= PAGE_SIZE
  }

  /** No two of the slots share a byte. */
  predicate Apart(slots: seq<Slot>) {
    forall i, j :: 0 <= i < j < |slots| ==>
      slots[i].offset + slots[i].length <= slots[j].offset || slots[j].offset + slots[j].length <= slots[i].offset
  }

  function DataAt(b: Bytes, slots: seq<Slot>): (r: seq<Bytes>)
    requires |b| == PAGE_SIZE && SlotsIn(slots, 0)
    ensures |r| == |slots|
  {
    seq(|slots|, i requires 0 <= i < |slots| => DataOf(b, slots[i]))
  }

  /** The page holds these records in this order, perhaps with gaps between them. */
  ghost predicate Holds(b: Bytes, n: nat, recs: seq<Bytes>) {
    && |b| == PAGE_SIZE && SlotAt(n) <= PAGE_SIZE && n == |recs|
    && SlotsIn(Slots(b, n), PAGE_HEADER_SIZE)
    && DataAt(b, Slots(b, n)) == recs
  }

  /** A well-formed page: the directory ends before the records begin and free_size is the
      distance; no two records overlap, and together they fill the rest of the page. */
  ghost predicate WellFormed(b: Bytes) {
    && |b| == PAGE_SIZE
    && SlotAt(NumSlots(b)) <= RecordsAt(b) <= PAGE_SIZE
    && FreeSize(b) == RecordsAt(b) - SlotAt(NumSlots(b))
    && SlotsIn(Slots(b, NumSlots(b)), RecordsAt(b))
    && Apart(Slots(b, NumSlots(b)))
    && |Flat(Records(b))| == PAGE_SIZE - RecordsAt(b)
  }

  /** The records of a page in slot order. */
  ghost function Records(b: Bytes): (r: seq<Bytes>)
    requires |b| == PAGE_SIZE && SlotAt(NumSlots(b)) <= PAGE_SIZE && SlotsIn(Slots(b, NumSlots(b)), 0)
    ensures |r| == NumSlots(b)
  {
    DataAt(b, Slots(b, NumSlots(b)))
  }

  /** Everything in the header but the slot counters. */
  predicate SameHeader(b: Bytes, c: Bytes)
    requires |b| == PAGE_SIZE && |c| == PAGE_SIZE
  {
    b[..NUM_SLOTS_AT] == c[..NUM_SLOTS_AT] && b[PARENT_AT..PAGE_HEADER_SIZE] == c[PARENT_AT..PAGE_HEADER_SIZE]
  }

  /** A well-formed page whose records are `recs`. */
  ghost predicate Represents(b: Bytes, recs: seq<Bytes>) {
    WellFormed(b) && Records(b) == recs
  }

  // ---------------------------------------------------------------- steps of page.c

  /** The three slot counters written over the header. */
  function PutCounters(b: Bytes, n: nat, off: nat, free: nat): (r: Bytes)
    requires |b| == PAGE_SIZE
    ensures |r| == PAGE_SIZE
  {
    PutU16(PutU16(PutU16(b, NUM_SLOTS_AT, n), FREE_OFFSET_AT, off), FREE_SIZE_AT, free)
  }

  lemma PutCounterKeeps(b: Bytes, at: nat, v: nat)
    requires |b| == PAGE_SIZE && NUM_SLOTS_AT <= at <= FREE_SIZE_AT
    ensures SameHeader(b, PutU16(b, at, v)) && PutU16(b, at, v)[PAGE_HEADER_SIZE..] == b[PAGE_HEADER_SIZE..]
  {
    SpliceRead(b, at, U16Bytes(v), 0, NUM_SLOTS_AT);
    SpliceRead(b, at, U16Bytes(v), PARENT_AT, PAGE_HEADER_SIZE);
    SpliceRead(b, at, U16Bytes(v), PAGE_HEADER_SIZE, PAGE_SIZE);
  }

  lemma PutCountersReads(b: Bytes, n: nat, off: nat, free: nat)
    requires |b| == PAGE_SIZE && n < 65536 && off < 65536
    ensures var r := PutCounters(b, n, off, free);
      && NumSlots(r) == n && RecordsAt(r) == off && FreeSize(r) == free % 65536
      && SameHeader(b, r) && r[PAGE_HEADER_SIZE..] == b[PAGE_HEADER_SIZE..]
  {
    hide U16;
    var b1 := PutU16(b, NUM_SLOTS_AT, n);
    var b2 := PutU16(b1, FREE_OFFSET_AT, off);
    PutU16Read(b, NUM_SLOTS_AT, n, NUM_SLOTS_AT);
    PutU16Read(b1, FREE_OFFSET_AT, off, NUM_SLOTS_AT);
    PutU16Read(b2, FREE_SIZE_AT, free, NUM_SLOTS_AT);
    PutU16Read(b2, FREE_SIZE_AT, free, FREE_OFFSET_AT);
    PutCounterKeeps(b, NUM_SLOTS_AT, n);
    PutCounterKeeps(b1, FREE_OFFSET_AT, off);
    PutCounterKeeps(b2, FREE_SIZE_AT, free);
  }

  /** A new slot in the directory: the slots from `i` on move up, the new one is written. */
  function OpenSlot(b: Bytes, n: nat, i: nat, s: Slot): (r: Bytes)
    requires i <= n && |b| == PAGE_SIZE && SlotAt(n) + SLOT_SIZE <= PAGE_SIZE
    ensures |r| == PAGE_SIZE
  {
    Splice(Splice(b, SlotAt(i) + SLOT_SIZE, b[SlotAt(i)..SlotAt(n)]), SlotAt(i), SlotBytes(s))
  }

  lemma OpenSlotAt(b: Bytes, n: nat, i: nat, s: Slot, k: nat)
    requires i <= n && |b| == PAGE_SIZE && SlotAt(n) + SLOT_SIZE <= PAGE_SIZE && s.offset < 65536 && s.length < 65536
    requires k <= n
    ensures ReadSlot(OpenSlot(b, n, i, s), k) ==
      if k < i then ReadSlot(b, k) else if k == i then s else ReadSlot(b, k - 1)
  {
    hide ReadSlot, SlotBytes;
    var r := OpenSlot(b, n, i, s);
    var m := b[SlotAt(i)..SlotAt(n)];
    var b1 := Splice(b, SlotAt(i) + SLOT_SIZE, m);
    SpliceRead(b1, SlotAt(i), SlotBytes(s), SlotAt(k), SlotAt(k) + SLOT_SIZE);
    if k < i {
      SpliceRead(b, SlotAt(i) + SLOT_SIZE, m, SlotAt(k), SlotAt(k) + SLOT_SIZE);
      ReadSlotSlice(r, b, k, k);
    } else if k == i {
      ReadSlotBytes(r, k, s);
    } else {
      SpliceCopy(b, SlotAt(i) + SLOT_SIZE, SlotAt(i), SlotAt(n), SlotAt(k), SlotAt(k) + SLOT_SIZE);
      ReadSlotSlice(r, b, k, k - 1);
    }
  }

  lemma OpenSlotReads(b: Bytes, n: nat, i: nat, s: Slot)
    requires i <= n && |b| == PAGE_SIZE && SlotAt(n) + SLOT_SIZE <= PAGE_SIZE && s.offset < 65536 && s.length < 65536
    ensures var r := OpenSlot(b, n, i, s);
      && SlotAt(n + 1) <= PAGE_SIZE
      && Slots(r, n + 1) == InsertAt(Slots(b, n), i, s)
      && r[..PAGE_HEADER_SIZE] == b[..PAGE_HEADER_SIZE] && r[SlotAt(n) + SLOT_SIZE..] == b[SlotAt(n) + SLOT_SIZE..]
  {
    hide ReadSlot, SlotBytes;
    assert OpenSlot(b, n, i, s)[..PAGE_HEADER_SIZE] == b[..PAGE_HEADER_SIZE];
    assert OpenSlot(b, n, i, s)[SlotAt(n) + SLOT_SIZE..] == b[SlotAt(n) + SLOT_SIZE..];
    hide OpenSlot;
    forall k | 0 <= k <= n
      ensures Slots(OpenSlot(b, n, i, s), n + 1)[k] == InsertAt(Slots(b, n), i, s)[k]
    {
      OpenSlotAt(b, n, i, s, k);
    }
  }

  /** Slot `i` dropped from the directory: the slots after it move down. */
  function CloseSlot(b: Bytes, n: nat, i: nat): (r: Bytes)
    requires i < n && |b| == PAGE_SIZE && SlotAt(n) <= PAGE_SIZE
    ensures |r| == PAGE_SIZE
  {
    Splice(b, SlotAt(i), b[SlotAt(i) + SLOT_SIZE..SlotAt(n)])
  }

  lemma CloseSlotReads(b: Bytes, n: nat, i: nat)
    requires i < n && |b| == PAGE_SIZE && SlotAt(n) <= PAGE_SIZE
    ensures var r := CloseSlot(b, n, i);
      && Slots(r, n - 1) == RemoveAt(Slots(b, n), i)
      && r[..PAGE_HEADER_SIZE] == b[..PAGE_HEADER_SIZE] && r[SlotAt(n)..] == b[SlotAt(n)..]
  {
    hide ReadSlot;
    var r := CloseSlot(b, n, i);
    forall k | 0 <= k < n - 1
      ensures Slots(r, n - 1)[k] == RemoveAt(Slots(b, n), i)[k]
    {
      if k < i {
        SpliceRead(b, SlotAt(i), b[SlotAt(i) + SLOT_SIZE..SlotAt(n)], SlotAt(k), SlotAt(k) + SLOT_SIZE);
        ReadSlotSlice(r, b, k, k);
      } else {
        SpliceCopy(b, SlotAt(i), SlotAt(i) + SLOT_SIZE, SlotAt(n), SlotAt(k), SlotAt(k) + SLOT_SIZE);
        ReadSlotSlice(r, b, k, k + 1);
      }
    }
  }

  /** Slots are read from the directory only. */
  lemma SlotsSame(b: Bytes, c: Bytes, n: nat)
    requires SlotAt(n) <= |b| && SlotAt(n) <= |c| && b[PAGE_HEADER_SIZE..SlotAt(n)] == c[PAGE_HEADER_SIZE..SlotAt(n)]
    ensures Slots(b, n) == Slots(c, n)
  {
    hide ReadSlot;
    var x, y := b[PAGE_HEADER_SIZE..SlotAt(n)], c[PAGE_HEADER_SIZE..SlotAt(n)];
    forall k | 0 <= k < n
      ensures ReadSlot(b, k) == ReadSlot(c, k)
    {
      SliceSlice(b, PAGE_HEADER_SIZE, SlotAt(n), SLOT_SIZE * k, SLOT_SIZE * k + SLOT_SIZE);
      SliceSlice(c, PAGE_HEADER_SIZE, SlotAt(n), SLOT_SIZE * k, SLOT_SIZE * k + SLOT_SIZE);
      ReadSlotSlice(b, c, k, k);
    }
  }

  // ---------------------------------------------------------------- insertion

  lemma FlatInsert(recs: seq<Bytes>, i: nat, d: Bytes)
    requires i <= |recs|
    ensures |Flat(InsertAt(recs, i, d))| == |Flat(recs)| + |d|
  {
    hide Flat;
    FlatConcat(recs[..i] + [d], recs[i..]);
    FlatConcat(recs[..i], [d]);
    FlatConcat(recs[..i], recs[i..]);
    FlatOne(d);
    assert recs == recs[..i] + recs[i..];
  }

  lemma FlatRemove(recs: seq<Bytes>, i: nat)
    requires i < |recs|
    ensures |Flat(RemoveAt(recs, i))| == |Flat(recs)| - |recs[i]|
  {
    hide Flat;
    FlatInsert(RemoveAt(recs, i), i, recs[i]);
    assert InsertAt(RemoveAt(recs, i), i, recs[i]) == recs;
  }

  /** The bytes after `d` was put below the records and into a new slot `i`. */
  function InsertBytes(b: Bytes, i: nat, d: Bytes): (r: Bytes)
    requires |b| == PAGE_SIZE && i <= NumSlots(b) && SlotAt(NumSlots(b)) + SLOT_SIZE <= PAGE_SIZE
    requires |d| <= RecordsAt(b) <= PAGE_SIZE
    ensures |r| == PAGE_SIZE
  {
    var n, off := NumSlots(b), RecordsAt(b) - |d|;
    var free := (off - SlotAt(n) - SLOT_SIZE) % 65536;
    PutCounters(OpenSlot(Splice(b, off, d), n, i, Slot(off, |d|)), n + 1, off, free)
  }

  /** With room for record and slot, insertion splices the record into the record sequence
      and leaves the rest of the header alone; without it the page is no longer well formed. */
  lemma InsertKeeps(b: Bytes, i: nat, d: Bytes)
    requires WellFormed(b) && i <= NumSlots(b) && SlotAt(NumSlots(b)) + SLOT_SIZE <= PAGE_SIZE
    requires SlotAt(NumSlots(b)) + |d| <= RecordsAt(b)
    ensures var r := InsertBytes(b, i, d);
      && SameHeader(b, r) && NumSlots(r) == NumSlots(b) + 1
      && (WellFormed(r) <==> SlotAt(NumSlots(b)) + SLOT_SIZE + |d| <= RecordsAt(b))
      && (WellFormed(r) ==> Records(r) == InsertAt(Records(b), i, d))
  {
    hide ReadSlot, U16, Slots, Flat, PutCounters, OpenSlot;
    var n, off := NumSlots(b), RecordsAt(b) - |d|;
    var free := (off - SlotAt(n) - SLOT_SIZE) % 65536;
    var b1 := Splice(b, off, d);
    var s := Slot(off, |d|);
    var b2 := OpenSlot(b1, n, i, s);
    var r := PutCounters(b2, n + 1, off, free);
    SpliceRead(b, off, d, 0, PAGE_HEADER_SIZE);
    assert b1[..PAGE_HEADER_SIZE] == b[..PAGE_HEADER_SIZE];
    OpenSlotReads(b1, n, i, s);
    PutCountersReads(b2, n + 1, off, free);
    HeaderSlices(b, b2);
    assert SameHeader(b, r);
    if SlotAt(n) + SLOT_SIZE <= off {
      assert b1[PAGE_HEADER_SIZE..SlotAt(n)] == b[PAGE_HEADER_SIZE..SlotAt(n)];
      SlotsSame(b, b1, n);
      assert r[PAGE_HEADER_SIZE..SlotAt(n + 1)] == b2[PAGE_HEADER_SIZE..SlotAt(n + 1)] by {
        assert r[PAGE_HEADER_SIZE..][..SlotAt(n + 1) - PAGE_HEADER_SIZE] ==
          b2[PAGE_HEADER_SIZE..][..SlotAt(n + 1) - PAGE_HEADER_SIZE];
      }
      SlotsSame(r, b2, n + 1);
      TailSlices(b1, b2, r, n);
      InsertedRecords(b, r, i, d);
    }
  }

  /** Appending where fewer than four bytes are left for the slot: the slot is written over the
      first bytes of the new record, and all else is as it should be. */
  lemma AppendOver(b: Bytes, d: Bytes)
    requires WellFormed(b) && SLOT_SIZE <= |d| && SlotAt(NumSlots(b)) + SLOT_SIZE <= PAGE_SIZE
    requires SlotAt(NumSlots(b)) + |d| <= RecordsAt(b) < SlotAt(NumSlots(b)) + SLOT_SIZE + |d|
    ensures var c, n, off := InsertBytes(b, NumSlots(b), d), NumSlots(b), RecordsAt(b) - |d|;
      var gap := off - SlotAt(n);
      && NumSlots(c) == n + 1 && SlotAt(n + 1) <= PAGE_SIZE
      && Slots(c, n + 1) == Slots(b, n) + [Slot(off, |d|)]
      && (forall i :: 0 <= i < n ==> DataOf(c, Slots(b, n)[i]) == Records(b)[i])
      && DataOf(c, Slot(off, |d|)) == SlotBytes(Slot(off, |d|))[gap..] + d[SLOT_SIZE - gap..]
  {
    hide ReadSlot, U16, Slots, Flat, PutCounters, OpenSlot, Splice, SlotBytes;
    var n, off := NumSlots(b), RecordsAt(b) - |d|;
    var gap, s := off - SlotAt(n), Slot(off, |d|);
    var b1 := Splice(b, off, d);
    var b2 := OpenSlot(b1, n, n, s);
    var c := PutCounters(b2, n + 1, off, (off - SlotAt(n) - SLOT_SIZE) % 65536);
    OpenSlotReads(b1, n, n, s);
    PutCountersReads(b2, n + 1, off, (off - SlotAt(n) - SLOT_SIZE) % 65536);
    SpliceRead(b, off, d, PAGE_HEADER_SIZE, SlotAt(n));
    SlotsSame(b, b1, n);
    TailPart(b2, c, PAGE_HEADER_SIZE, PAGE_HEADER_SIZE, SlotAt(n + 1));
    SlotsSame(b2, c, n + 1);
    assert Slots(c, n + 1) == Slots(b, n) + [s];
    forall i | 0 <= i < n
      ensures DataOf(c, Slots(b, n)[i]) == Records(b)[i]
    {
      var x := Slots(b, n)[i];
      TailSlices(b1, b2, c, n);
      TailPart(b1, c, SlotAt(n) + SLOT_SIZE, x.offset, x.offset + x.length);
      SpliceRead(b, off, d, x.offset, x.offset + x.length);
    }
    OverRecord(b, d, b1, b2, c, n, off, s);
  }

  lemma TailPart(b: Bytes, c: Bytes, at: nat, i: nat, j: nat)
    requires |b| == |c| && at <= i <= j <= |b| && b[at..] == c[at..]
    ensures b[i..j] == c[i..j]
  {
    forall k | i <= k < j
      ensures b[k] == c[k]
    {
      assert b[k] == b[at..][k - at] && c[k] == c[at..][k - at];
    }
  }

  /** The bytes of the record after its slot was written over their beginning. */
  lemma OverRecord(b: Bytes, d: Bytes, b1: Bytes, b2: Bytes, c: Bytes, n: nat, off: nat, s: Slot)
    requires |b| == |b1| == |b2| == |c| == PAGE_SIZE && SlotAt(n) + SLOT_SIZE <= PAGE_SIZE && SLOT_SIZE <= |d|
    requires SlotAt(n) <= off < SlotAt(n) + SLOT_SIZE && off + |d| <= PAGE_SIZE && s == Slot(off, |d|)
    requires b1 == Splice(b, off, d) && b2 == OpenSlot(b1, n, n, s) && c[PAGE_HEADER_SIZE..] == b2[PAGE_HEADER_SIZE..]
    ensures DataOf(c, s) == SlotBytes(s)[off - SlotAt(n)..] + d[SLOT_SIZE - (off - SlotAt(n))..]
  {
    hide U16Bytes, SlotBytes;
    var gap := off - SlotAt(n);
    assert b2 == Splice(b1, SlotAt(n), SlotBytes(s)) by { SpliceNothing(b1, SlotAt(n) + SLOT_SIZE, SlotAt(n)); }
    hide Splice, OpenSlot;
    TailPart(b2, c, PAGE_HEADER_SIZE, off, off + |d|);
    SpliceRead(b1, SlotAt(n), SlotBytes(s), off, SlotAt(n) + SLOT_SIZE);
    SpliceRead(b1, SlotAt(n), SlotBytes(s), SlotAt(n) + SLOT_SIZE, off + |d|);
    SpliceRead(b, off, d, SlotAt(n) + SLOT_SIZE, off + |d|);
    assert b2[off..off + |d|] == b2[off..SlotAt(n) + SLOT_SIZE] + b2[SlotAt(n) + SLOT_SIZE..off + |d|];
  }

  /** The counters of a well-formed page, in terms of its records. */
  lemma Sizes(b: Bytes)
    requires WellFormed(b)
    ensures |b| == PAGE_SIZE && NumSlots(b) == |Records(b)| && RecordsAt(b) == PAGE_SIZE - |Flat(Records(b))|
    ensures SlotAt(NumSlots(b)) <= RecordsAt(b)
  {
  }

  lemma HeaderSlices(b: Bytes, c: Bytes)
    requires |b| == PAGE_SIZE && |c| == PAGE_SIZE && b[..PAGE_HEADER_SIZE] == c[..PAGE_HEADER_SIZE]
    ensures SameHeader(b, c)
  {
    var x, y := b[..PAGE_HEADER_SIZE], c[..PAGE_HEADER_SIZE];
    assert b[..NUM_SLOTS_AT] == x[..NUM_SLOTS_AT] && c[..NUM_SLOTS_AT] == y[..NUM_SLOTS_AT];
    assert b[PARENT_AT..PAGE_HEADER_SIZE] == x[PARENT_AT..] && c[PARENT_AT..PAGE_HEADER_SIZE] == y[PARENT_AT..];
  }

  lemma TailSlices(b1: Bytes, b2: Bytes, r: Bytes, n: nat)
    requires |b1| == |b2| == |r| == PAGE_SIZE && SlotAt(n) + SLOT_SIZE <= PAGE_SIZE
    requires r[PAGE_HEADER_SIZE..] == b2[PAGE_HEADER_SIZE..]
    requires b2[SlotAt(n) + SLOT_SIZE..] == b1[SlotAt(n) + SLOT_SIZE..]
    ensures r[SlotAt(n) + SLOT_SIZE..] == b1[SlotAt(n) + SLOT_SIZE..]
  {
    var k := SlotAt(n) + SLOT_SIZE - PAGE_HEADER_SIZE;
    assert r[SlotAt(n) + SLOT_SIZE..] == r[PAGE_HEADER_SIZE..][k..];
    assert b2[SlotAt(n) + SLOT_SIZE..] == b2[PAGE_HEADER_SIZE..][k..];
  }

  lemma InsertedRecords(b: Bytes, r: Bytes, i: nat, d: Bytes)
    requires WellFormed(b) && |r| == PAGE_SIZE && i <= NumSlots(b)
    requires SlotAt(NumSlots(b)) + SLOT_SIZE + |d| <= RecordsAt(b)
    requires NumSlots(r) == NumSlots(b) + 1 && RecordsAt(r) == RecordsAt(b) - |d|
    requires FreeSize(r) == RecordsAt(r) - SlotAt(NumSlots(r))
    requires Slots(r, NumSlots(r)) == InsertAt(Slots(b, NumSlots(b)), i, Slot(RecordsAt(r), |d|))
    requires var at := SlotAt(NumSlots(b)) + SLOT_SIZE;
      r[at..] == Splice(b, RecordsAt(r), d)[at..]
    ensures WellFormed(r) && Records(r) == InsertAt(Records(b), i, d)
  {
    hide ReadSlot, U16, Slots, Flat, Splice;
    ApartInsert(Slots(b, NumSlots(b)), i, Slot(RecordsAt(r), |d|), RecordsAt(b));
    InsertedData(b, r, i, d, Slots(b, NumSlots(b)));
    FlatInsert(Records(b), i, d);
  }

  lemma InsertedData(b: Bytes, r: Bytes, i: nat, d: Bytes, slots: seq<Slot>)
    requires |b| == PAGE_SIZE && |r| == PAGE_SIZE && i <= |slots| && SlotsIn(slots, RecordsAt(b))
    requires SlotAt(|slots|) + SLOT_SIZE + |d| <= RecordsAt(b) <= PAGE_SIZE
    requires var at := SlotAt(|slots|) + SLOT_SIZE;
      r[at..] == Splice(b, RecordsAt(b) - |d|, d)[at..]
    ensures var now := InsertAt(slots, i, Slot(RecordsAt(b) - |d|, |d|));
      SlotsIn(now, RecordsAt(b) - |d|) && DataAt(r, now) == InsertAt(DataAt(b, slots), i, d)
  {
    hide U16, Splice;
    var at := SlotAt(|slots|) + SLOT_SIZE;
    var s := Slot(RecordsAt(b) - |d|, |d|);
    var now := InsertAt(slots, i, s);
    TailNew(b, r, d, at);
    forall k | 0 <= k < |now|
      ensures DataAt(r, now)[k] == InsertAt(DataAt(b, slots), i, d)[k]
    {
      if k != i {
        TailData(b, r, d, at, now[k]);
      }
    }
  }

  lemma ApartInsert(slots: seq<Slot>, i: nat, s: Slot, from: nat)
    requires i <= |slots| && Apart(slots) && SlotsIn(slots, from) && s.offset + s.length <= from
    ensures Apart(InsertAt(slots, i, s))
  {
  }

  lemma TailData(b: Bytes, r: Bytes, d: Bytes, at: nat, s: Slot)
    requires |b| == PAGE_SIZE == |r| && at + |d| <= RecordsAt(b) <= s.offset && s.offset + s.length <= PAGE_SIZE
    requires r[at..] == Splice(b, RecordsAt(b) - |d|, d)[at..]
    ensures DataOf(r, s) == DataOf(b, s)
  {
    var c := Splice(b, RecordsAt(b) - |d|, d);
    assert r[s.offset..s.offset + s.length] == r[at..][s.offset - at..s.offset + s.length - at];
    assert c[s.offset..s.offset + s.length] == c[at..][s.offset - at..s.offset + s.length - at];
    SpliceRead(b, RecordsAt(b) - |d|, d, s.offset, s.offset + s.length);
  }

  lemma TailNew(b: Bytes, r: Bytes, d: Bytes, at: nat)
    requires |b| == PAGE_SIZE == |r| && at + |d| <= RecordsAt(b) <= PAGE_SIZE
    requires r[at..] == Splice(b, RecordsAt(b) - |d|, d)[at..]
    ensures r[RecordsAt(b) - |d|..RecordsAt(b)] == d
  {
    var c, o := Splice(b, RecordsAt(b) - |d|, d), RecordsAt(b) - |d|;
    assert r[o..o + |d|] == r[at..][o - at..o + |d| - at];
    assert c[o..o + |d|] == c[at..][o - at..o + |d| - at];
  }

  // ---------------------------------------------------------------- removal

  lemma FlatStep(rs: seq<Bytes>, k: nat)
    requires k < |rs|
    ensures Flat(rs[..k + 1]) == Flat(rs[..k]) + rs[k]
    ensures |Flat(rs[..k + 1])| <= |Flat(rs)|
  {
    hide Flat;
    FlatConcat(rs[..k], [rs[k]]);
    FlatOne(rs[k]);
    assert rs[..k + 1] == rs[..k] + [rs[k]];
    FlatConcat(rs[..k + 1], rs[k + 1..]);
    assert rs == rs[..k + 1] + rs[k + 1..];
  }

  lemma FlatPrefix(rs: seq<Bytes>, j: nat, k: nat)
    requires j <= k <= |rs|
    ensures |Flat(rs[..j])| <= |Flat(rs[..k])| <= |Flat(rs)|
  {
    hide Flat;
    FlatConcat(rs[..j], rs[j..k]);
    FlatConcat(rs[..k], rs[k..]);
    assert rs[..k] == rs[..j] + rs[j..k];
    assert rs == rs[..k] + rs[k..];
  }

  /** Where compaction puts record `k`: below the records before it. */
  ghost function Place(rs: seq<Bytes>, k: nat): (r: nat)
    requires k < |rs| && |Flat(rs)| <= PAGE_SIZE
    ensures r + |rs[k]| <= PAGE_SIZE
  {
    FlatStep(rs, k);
    PAGE_SIZE - |Flat(rs[..k + 1])|
  }

  /** The records lie in slot order from the end of the page down, each below the one before. */
  ghost predicate FromTheEnd(b: Bytes, n: nat) {
    && SlotAt(n) <= |b|
    && (n > 0 ==> ReadSlot(b, 0).offset + ReadSlot(b, 0).length == PAGE_SIZE)
    && forall j, k :: 0 <= j < n && 0 <= k < n && k == j + 1 ==>
         ReadSlot(b, k).offset + ReadSlot(b, k).length == ReadSlot(b, j).offset
  }

  /** The first `i` records are in their compacted places; the other slots still have
      the right lengths. */
  ghost predicate Compacting(b: Bytes, rs: seq<Bytes>, i: nat) {
    && |b| == PAGE_SIZE && i <= |rs| && SlotAt(|rs|) + |Flat(rs)| <= PAGE_SIZE
    && (forall k :: 0 <= k < |rs| ==> ReadSlot(b, k).length == |rs[k]|)
    && (forall k :: 0 <= k < i ==> InPlace(b, rs, k))
  }

  ghost predicate InPlace(b: Bytes, rs: seq<Bytes>, k: nat)
    requires |b| == PAGE_SIZE && k < |rs| && SlotAt(|rs|) + |Flat(rs)| <= PAGE_SIZE
  {
    ReadSlot(b, k) == Slot(Place(rs, k), |rs[k]|) && DataOf(b, ReadSlot(b, k)) == rs[k]
  }

  /** The bytes after one round of the write-back loop. */
  ghost function WriteBack(b: Bytes, rs: seq<Bytes>, i: nat): Bytes
    requires |b| == PAGE_SIZE && i < |rs| && SlotAt(|rs|) + |Flat(rs)| <= PAGE_SIZE
  {
    PutU16(Splice(b, Place(rs, i), rs[i]), SlotAt(i), Place(rs, i))
  }

  lemma WriteBackAbove(b: Bytes, rs: seq<Bytes>, i: nat)
    requires |b| == PAGE_SIZE && i < |rs| && SlotAt(|rs|) + |Flat(rs)| <= PAGE_SIZE
    ensures SlotAt(|rs|) <= Place(rs, i)
  {
    FlatPrefix(rs, i + 1, |rs|);
  }

  /** Slots other than `i` keep offset and length, slot `i` its length. */
  lemma WriteBackSlots(b: Bytes, rs: seq<Bytes>, i: nat, k: nat)
    requires |b| == PAGE_SIZE && i < |rs| && k < |rs| && SlotAt(|rs|) + |Flat(rs)| <= PAGE_SIZE
    ensures var r := WriteBack(b, rs, i);
      ReadSlot(r, k) == if k == i then Slot(Place(rs, i), ReadSlot(b, i).length) else ReadSlot(b, k)
  {
    hide U16, Flat, Place, PutU16;
    WriteBackAbove(b, rs, i);
    var at := Place(rs, i);
    var b1 := Splice(b, at, rs[i]);
    assert SlotAt(k) + SLOT_SIZE <= SlotAt(|rs|);
    SpliceRead(b, at, rs[i], SlotAt(k), SlotAt(k) + SLOT_SIZE);
    ReadSlotSlice(b1, b, k, k);
    PutU16Read(b1, SlotAt(i), at, SlotAt(k));
    PutU16Read(b1, SlotAt(i), at, SlotAt(k) + 2);
  }

  lemma WriteBackData(b: Bytes, rs: seq<Bytes>, i: nat, k: nat)
    requires Compacting(b, rs, i) && k <= i < |rs|
    ensures var r := WriteBack(b, rs, i);
      r[Place(rs, k)..Place(rs, k) + |rs[k]|] == rs[k]
  {
    hide U16, Flat, ReadSlot;
    WriteBackAbove(b, rs, k);
    WriteBackAbove(b, rs, i);
    var at := Place(rs, i);
    var b1 := Splice(b, at, rs[i]);
    SpliceRead(b1, SlotAt(i), U16Bytes(at), Place(rs, k), Place(rs, k) + |rs[k]|);
    if k < i {
      FlatStep(rs, i);
      FlatPrefix(rs, k + 1, i);
      assert InPlace(b, rs, k);
      SpliceRead(b, at, rs[i], Place(rs, k), Place(rs, k) + |rs[k]|);
    } else {
      SpliceRead(b, at, rs[i], at, at + |rs[i]|);
    }
  }

  lemma WriteBackStep(b: Bytes, rs: seq<Bytes>, i: nat)
    requires Compacting(b, rs, i) && i < |rs|
    ensures Compacting(WriteBack(b, rs, i), rs, i + 1)
    ensures WriteBack(b, rs, i)[..PAGE_HEADER_SIZE] == b[..PAGE_HEADER_SIZE]
  {
    assert WriteBack(b, rs, i)[..PAGE_HEADER_SIZE] == b[..PAGE_HEADER_SIZE] by {
      hide Flat, Place;
      WriteBackAbove(b, rs, i);
    }
    hide U16, Flat, ReadSlot, PutU16, Place, WriteBack;
    var r := WriteBack(b, rs, i);
    forall k | 0 <= k < |rs|
      ensures ReadSlot(r, k).length == |rs[k]|
      ensures k <= i ==> InPlace(r, rs, k)
    {
      WriteBackSlots(b, rs, i, k);
      if k <= i {
        assert k < i ==> InPlace(b, rs, k);
        WriteBackData(b, rs, i, k);
      }
    }
  }

  /** Once every record is written back and the counters say so, the page is well formed. */
  lemma Compacted(b: Bytes, rs: seq<Bytes>)
    requires Compacting(b, rs, |rs|)
    requires NumSlots(b) == |rs| && RecordsAt(b) == PAGE_SIZE - |Flat(rs)| && FreeSize(b) == RecordsAt(b) - SlotAt(|rs|)
    ensures WellFormed(b) && Records(b) == rs
  {
    hide U16, Flat, ReadSlot;
    forall k | 0 <= k < |rs|
      ensures ReadSlot(b, k) == Slot(Place(rs, k), |rs[k]|) && DataOf(b, ReadSlot(b, k)) == rs[k]
      ensures Place(rs, k) >= RecordsAt(b)
    {
      assert InPlace(b, rs, k);
      FlatPrefix(rs, k + 1, |rs|);
    }
    forall j, k | 0 <= j < k < |rs|
      ensures Place(rs, k) + |rs[k]| <= Place(rs, j)
    {
      FlatStep(rs, k);
      FlatPrefix(rs, j + 1, k);
    }
    assert DataAt(b, Slots(b, |rs|)) == rs;
  }

  /** Each record lies right below the one before. */
  lemma CompactedDown(b: Bytes, rs: seq<Bytes>)
    requires Compacting(b, rs, |rs|)
    ensures FromTheEnd(b, |rs|)
  {
    hide U16, Flat, ReadSlot;
    forall k | 0 <= k < |rs|
      ensures ReadSlot(b, k).length == |rs[k]| && ReadSlot(b, k).offset == PAGE_SIZE - |Flat(rs[..k + 1])|
    {
      assert InPlace(b, rs, k);
    }
    forall j, k | 0 <= j < |rs| && 0 <= k < |rs| && k == j + 1
      ensures ReadSlot(b, k).offset + ReadSlot(b, k).length == ReadSlot(b, j).offset
    {
      FlatStep(rs, k);
    }
    if |rs| > 0 {
      FlatStep(rs, 0);
      assert |Flat(rs[..0])| == 0 by { FlatNone(rs); }
    }
  }

  lemma FlatNone(rs: seq<Bytes>)
    ensures Flat(rs[..0]) == []
  {
  }

  /** Dropping a slot from the directory leaves the other records readable. */
  lemma CloseSlotKeeps(b: Bytes, i: nat)
    requires WellFormed(b) && i < NumSlots(b)
    ensures var rs := RemoveAt(Records(b), i);
      && Holds(CloseSlot(b, NumSlots(b), i), NumSlots(b) - 1, rs)
      && SlotAt(|rs|) + |Flat(rs)| <= PAGE_SIZE
  {
    hide U16, Flat, ReadSlot, Slots, CloseSlot;
    var n := NumSlots(b);
    var c := CloseSlot(b, n, i);
    CloseSlotReads(b, n, i);
    var was := Slots(b, n);
    forall k | 0 <= k < n
      ensures DataOf(c, was[k]) == DataOf(b, was[k])
    {
      TailSame(b, c, SlotAt(n), was[k]);
    }
    assert DataAt(c, RemoveAt(was, i)) == RemoveAt(Records(b), i);
    FlatRemove(Records(b), i);
  }

  lemma TailSame(b: Bytes, c: Bytes, at: nat, s: Slot)
    requires |b| == |c| && at <= s.offset && s.offset + s.length <= |b| && b[at..] == c[at..]
    ensures DataOf(b, s) == DataOf(c, s)
  {
    SliceSlice(b, at, |b|, s.offset - at, s.offset + s.length - at);
    SliceSlice(c, at, |c|, s.offset - at, s.offset + s.length - at);
  }

  lemma HoldsCompacting(b: Bytes, rs: seq<Bytes>)
    requires Holds(b, |rs|, rs) && SlotAt(|rs|) + |Flat(rs)| <= PAGE_SIZE
    ensures Compacting(b, rs, 0)
  {
    hide U16, Flat, ReadSlot;
    forall k | 0 <= k < |rs|
      ensures ReadSlot(b, k).length == |rs[k]|
    {
      assert DataAt(b, Slots(b, |rs|))[k] == DataOf(b, Slots(b, |rs|)[k]);
    }
  }

  /** The records of a page do not depend on its header. */
  lemma TailHolds(b: Bytes, c: Bytes, rs: seq<Bytes>)
    requires Holds(b, |rs|, rs) && |c| == PAGE_SIZE && b[PAGE_HEADER_SIZE..] == c[PAGE_HEADER_SIZE..]
    ensures Holds(c, |rs|, rs)
  {
    hide ReadSlot, Slots;
    var k := SlotAt(|rs|) - PAGE_HEADER_SIZE;
    SliceSlice(b, PAGE_HEADER_SIZE, PAGE_SIZE, 0, k);
    SliceSlice(c, PAGE_HEADER_SIZE, PAGE_SIZE, 0, k);
    SlotsSame(b, c, |rs|);
    var slots := Slots(b, |rs|);
    forall i | 0 <= i < |rs|
      ensures DataAt(c, slots)[i] == DataAt(b, slots)[i]
    {
      TailSame(b, c, PAGE_HEADER_SIZE, slots[i]);
    }
    assert DataAt(c, slots) == DataAt(b, slots);
  }

  lemma TailCompacting(b: Bytes, c: Bytes, rs: seq<Bytes>, i: nat)
    requires Compacting(b, rs, i) && |c| == PAGE_SIZE && b[PAGE_HEADER_SIZE..] == c[PAGE_HEADER_SIZE..]
    ensures Compacting(c, rs, i)
  {
    hide ReadSlot, Place, Flat;
    forall k | 0 <= k < |rs|
      ensures ReadSlot(c, k) == ReadSlot(b, k)
      ensures k < i ==> InPlace(c, rs, k)
    {
      var o := SlotAt(k) - PAGE_HEADER_SIZE;
      SliceSlice(b, PAGE_HEADER_SIZE, PAGE_SIZE, o, o + SLOT_SIZE);
      SliceSlice(c, PAGE_HEADER_SIZE, PAGE_SIZE, o, o + SLOT_SIZE);
      ReadSlotSlice(b, c, k, k);
      if k < i {
        assert InPlace(b, rs, k);
        PlaceAbove(rs, k);
        TailSame(b, c, PAGE_HEADER_SIZE, ReadSlot(b, k));
      }
    }
  }

  lemma PlaceAbove(rs: seq<Bytes>, k: nat)
    requires k < |rs| && SlotAt(|rs|) + |Flat(rs)| <= PAGE_SIZE
    ensures PAGE_HEADER_SIZE <= Place(rs, k)
  {
    FlatPrefix(rs, k + 1, |rs|);
  }

  /** The number of slots written after the directory was closed up. */
  lemma CountSlots(b: Bytes, n: nat, rs: seq<Bytes>)
    requires Holds(b, n, rs) && SlotAt(|rs|) + |Flat(rs)| <= PAGE_SIZE
    ensures var r := PutU16(b, NUM_SLOTS_AT, n);
      Holds(r, n, rs) && Compacting(r, rs, 0) && NumSlots(r) == n && SameHeader(b, r)
  {
    hide PutU16, U16, Slots, ReadSlot, Flat;
    PutU16Read(b, NUM_SLOTS_AT, n, NUM_SLOTS_AT);
    PutCounterKeeps(b, NUM_SLOTS_AT, n);
    TailHolds(b, PutU16(b, NUM_SLOTS_AT, n), rs);
    HoldsCompacting(PutU16(b, NUM_SLOTS_AT, n), rs);
  }

  /** The last two writes of a removal make the compacted page well formed. */
  lemma FinishRemoval(b: Bytes, rs: seq<Bytes>)
    requires Compacting(b, rs, |rs|) && NumSlots(b) == |rs|
    ensures var off := PAGE_SIZE - |Flat(rs)|;
      var r := PutU16(PutU16(b, FREE_OFFSET_AT, off), FREE_SIZE_AT, off - SlotAt(|rs|));
      Represents(r, rs) && SameHeader(b, r) && FromTheEnd(r, |rs|)
  {
    hide PutU16, U16, Slots, ReadSlot, Flat, Compacting;
    CompactingFits(b, rs, |rs|);
    var off := PAGE_SIZE - |Flat(rs)|;
    var b1 := PutU16(b, FREE_OFFSET_AT, off);
    var free := off - SlotAt(|rs|);
    var r := PutU16(b1, FREE_SIZE_AT, free);
    PutU16Read(b, FREE_OFFSET_AT, off, NUM_SLOTS_AT);
    PutU16Read(b1, FREE_SIZE_AT, free, NUM_SLOTS_AT);
    PutU16Read(b1, FREE_SIZE_AT, free, FREE_OFFSET_AT);
    PutCounterKeeps(b, FREE_OFFSET_AT, off);
    PutCounterKeeps(b1, FREE_SIZE_AT, free);
    TailCompacting(b, r, rs, |rs|);
    Compacted(r, rs);
    CompactedDown(r, rs);
  }

  lemma CompactingFits(b: Bytes, rs: seq<Bytes>, i: nat)
    requires Compacting(b, rs, i)
    ensures |b| == PAGE_SIZE && SlotAt(|rs|) + |Flat(rs)| <= PAGE_SIZE
  {
  }

  lemma SameHeaderSelf(b: Bytes)
    requires |b| == PAGE_SIZE
    ensures SameHeader(b, b)
  {
  }

  lemma SameHeaderTrans(a: Bytes, b: Bytes, c: Bytes)
    requires |a| == PAGE_SIZE && |b| == PAGE_SIZE && |c| == PAGE_SIZE && SameHeader(a, b) && SameHeader(b, c)
    ensures SameHeader(a, c)
  {
  }

  /** A copy of no bytes. */
  lemma SpliceNothing(b: Bytes, at: nat, from: nat)
    requires at <= |b| && from <= |b|
    ensures Splice(b, at, b[from..from]) == b
  {
  }

  lemma CloseSlotHeader(b: Bytes, n: nat, i: nat)
    requires i < n && |b| == PAGE_SIZE && SlotAt(n) <= PAGE_SIZE
    ensures SameHeader(b, CloseSlot(b, n, i))
  {
    hide ReadSlot, CloseSlot, SameHeader;
    CloseSlotReads(b, n, i);
    HeaderSlices(b, CloseSlot(b, n, i));
  }

  lemma HeaderCount(b: Bytes, c: Bytes)
    requires |b| == PAGE_SIZE && |c| == PAGE_SIZE && b[..PAGE_HEADER_SIZE] == c[..PAGE_HEADER_SIZE]
    ensures NumSlots(b) == NumSlots(c)
  {
    hide U16;
    SliceSlice(b, 0, PAGE_HEADER_SIZE, NUM_SLOTS_AT, NUM_SLOTS_AT + 2);
    SliceSlice(c, 0, PAGE_HEADER_SIZE, NUM_SLOTS_AT, NUM_SLOTS_AT + 2);
    U16Slice(b, c, NUM_SLOTS_AT, NUM_SLOTS_AT);
  }

  /** Without records there is nothing to compact. */
  lemma AllWritten(b: Bytes, rs: seq<Bytes>)
    requires rs == [] && Compacting(b, rs, 0) && NumSlots(b) == 0
    ensures var r := PutU16(PutU16(b, FREE_OFFSET_AT, PAGE_SIZE), FREE_SIZE_AT, PAGE_SIZE - PAGE_HEADER_SIZE);
      Represents(r, rs) && SameHeader(b, r) && FromTheEnd(r, |rs|)
  {
    hide PutU16, Compacting, SameHeader, Represents;
    FinishRemoval(b, rs);
  }

  lemma InitFields(b: Bytes, pid: nat)
    requires |b| == PAGE_SIZE && pid < 0x1_0000_0000 && b[..4] == U32Bytes(pid)
    requires forall k {:trigger b[k]} :: TYPE_AT < k < PAGE_SIZE ==> b[k] == 0
    ensures var r := PutCounters(b, 0, PAGE_SIZE, PAGE_SIZE - PAGE_HEADER_SIZE);
      && Represents(r, []) && U32(r, 0) == pid && r[TYPE_AT] == b[TYPE_AT]
      && U32(r, PARENT_AT) == U32(r, PREV_AT) == U32(r, NEXT_AT) == U32(r, FIRST_CHILD_AT) == 0
  {
    hide PutCounters, U16, U32Bytes;
    var r := PutCounters(b, 0, PAGE_SIZE, PAGE_SIZE - PAGE_HEADER_SIZE);
    PutCountersReads(b, 0, PAGE_SIZE, PAGE_SIZE - PAGE_HEADER_SIZE);
    SliceSlice(b, 0, NUM_SLOTS_AT, 0, 4);
    SliceSlice(r, 0, NUM_SLOTS_AT, 0, 4);
    assert U32Bytes(pid)[0..4] == U32Bytes(pid);
    U32Slice(r, U32Bytes(pid), 0, 0);
    U32OfBytes(pid);
    assert r[TYPE_AT] == r[..NUM_SLOTS_AT][TYPE_AT] == b[TYPE_AT];
    forall k | PARENT_AT <= k < PAGE_HEADER_SIZE
      ensures r[k] == 0
    {
      assert r[k] == r[PARENT_AT..PAGE_HEADER_SIZE][k - PARENT_AT] == b[k];
    }
  }

  lemma CompactingLength(b: Bytes, rs: seq<Bytes>, i: nat, k: nat)
    requires Compacting(b, rs, i) && k < |rs|
    ensures SlotAt(k) + SLOT_SIZE <= PAGE_SIZE == |b|
    ensures U16(b, SlotAt(k) + 2) == |rs[k]|
  {
    hide U16, Flat;
    assert ReadSlot(b, k).length == |rs[k]|;
  }

  lemma NoneWritten(rs: seq<Bytes>)
    ensures |Flat(rs[..0])| == 0 && Flat(rs[..0]) == []
    ensures rs[..|rs|] == rs
  {
  }

  /** Record `i` within all records laid end to end. */
  lemma FlatPiece(t: Bytes, rs: seq<Bytes>, i: nat)
    requires i < |rs| && |Flat(rs)| <= |t| && t[..|Flat(rs)|] == Flat(rs)
    ensures |Flat(rs[..i])| + |rs[i]| <= |Flat(rs)|
    ensures t[|Flat(rs[..i])|..|Flat(rs[..i])| + |rs[i]|] == rs[i]
  {
    hide Flat;
    FlatSplit(rs, i);
    var p := |Flat(rs[..i])|;
    SliceSlice(t, 0, |Flat(rs)|, p, p + |rs[i]|);
    assert Flat(rs)[p..p + |rs[i]|] == rs[i];
  }

  lemma HeldRecord(b: Bytes, n: nat, rs: seq<Bytes>, i: nat)
    requires Holds(b, n, rs) && i < n
    ensures SlotAt(i) + SLOT_SIZE <= PAGE_SIZE == |b|
    ensures var o, l := U16(b, SlotAt(i)), U16(b, SlotAt(i) + 2); o + l <= |b| && b[o..o + l] == rs[i]
  {
    hide U16;
    assert DataAt(b, Slots(b, n))[i] == DataOf(b, Slots(b, n)[i]);
  }

  /** Writing right after a prefix extends it. */
  lemma SpliceJoins(t: Bytes, at: nat, d: Bytes)
    requires at + |d| <= |t|
    ensures Splice(t, at, d)[..at + |d|] == t[..at] + d
  {
  }
}
