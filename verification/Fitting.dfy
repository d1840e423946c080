/** When a split keeps every record (src/btree.c:524-584, 694-754): the records are
    halved by number, not by size, and page_alloc_slot's refusals go unnoticed. */
module Fitting {
  import opened Comparator
  import opened Pages
  import opened Levels
  import opened Search
  import opened Descent

  /** Slot and record bytes of a list of records. */
  function Used(recs: seq<Rec>): nat {
    SLOT_SIZE * |recs| + DataSize(recs)
  }

  const PAGE_ROOM := PAGE_SIZE - PAGE_HEADER_SIZE

  lemma UsedConcat(a: seq<Rec>, b: seq<Rec>)
    ensures Used(a + b) == Used(a) + Used(b)
  {
    DataSizeConcat(a, b);
  }

  lemma UsedOne(r: Rec)
    ensures Used([r]) == SLOT_SIZE + RecSize(r)
  {
    assert [r][..|[r]| - 1] == [];
    assert DataSize([r]) == DataSize([]) + RecSize(r);
  }

  // ---------------------------------------------------------------- refilling a page

  /** The records appended one by one with page_alloc_slot, whatever it answers. */
  function Fill(p: Page, recs: seq<Rec>): Page {
    if recs == [] then p else AllocSlot(Fill(p, recs[..|recs| - 1]), recs[|recs| - 1])
  }

  lemma {:induction false} FillKeeps(p: Page, recs: seq<Rec>)
    requires Fits(p.recs + recs)
    ensures Fill(p, recs) == p.(recs := p.recs + recs)
  {
    if recs == [] {
      assert p.recs + recs == p.recs;
    } else {
      var n := |recs| - 1;
      assert p.recs + recs == p.recs + recs[..n] + [recs[n]];
      assert p.recs + recs[..n] + [recs[n]] + [] == p.recs + recs;
      FitsPart(p.recs + recs[..n], [recs[n]], []);
      FillKeeps(p, recs[..n]);
      AllocSlotFits(p.(recs := p.recs + recs[..n]), recs[n]);
    }
  }

  lemma {:induction false} FillShort(p: Page, recs: seq<Rec>)
    ensures |Fill(p, recs).recs| <= |p.recs| + |recs|
    ensures |Fill(p, recs).recs| == |p.recs| + |recs| ==> Fill(p, recs).recs == p.recs + recs
  {
    if recs != [] {
      var n := |recs| - 1;
      FillShort(p, recs[..n]);
      assert p.recs + recs == p.recs + recs[..n] + [recs[n]];
    } else {
      assert p.recs + recs == p.recs;
    }
  }

  /** Refilling an empty page has three outcomes. Up to 4064 bytes everything is kept;
      in the next four the directory runs into the last record, because
      page_alloc_slot does not count its slot; beyond that records are lost. */
  lemma FillOutcome(kind: Kind, recs: seq<Rec>)
    ensures Fits(recs) <==> Used(recs) <= PAGE_ROOM
    ensures Used(recs) <= PAGE_ROOM ==> Fill(InitPage(kind), recs).recs == recs
    ensures Fill(InitPage(kind), recs).recs == recs ==> Used(recs) <= PAGE_ROOM + SLOT_SIZE
    ensures |Fill(InitPage(kind), recs).recs| < |recs| <==> Fill(InitPage(kind), recs).recs != recs
  {
    var p := InitPage(kind);
    assert p.recs + recs == recs;
    if Used(recs) <= PAGE_ROOM {
      FillKeeps(p, recs);
    }
    FillShort(p, recs);
    if recs != [] && Fill(p, recs).recs == recs {
      FillLast(kind, recs);
    }
  }

  /** A page that took all records had room for the last one without its slot. */
  lemma FillLast(kind: Kind, recs: seq<Rec>)
    requires recs != [] && Fill(InitPage(kind), recs).recs == recs
    ensures Used(recs) <= PAGE_ROOM + SLOT_SIZE
  {
    var p, n := InitPage(kind), |recs| - 1;
    FillShort(p, recs[..n]);
    assert p.recs + recs[..n] == recs[..n];
    assert AllocAccepts(recs[..n], recs[n]);
  }

  /** What is left of the records after refilling an empty page with them. */
  function Kept(recs: seq<Rec>): seq<Rec> {
    Fill(InitPage(LeafPage), recs).recs
  }

  /** A refusal does not end the refilling: each record is taken exactly if the room that the
      records taken before it have left is enough for it, its slot not counted. */
  lemma KeptStep(recs: seq<Rec>, r: Rec)
    ensures Kept([]) == []
    ensures var kept := Kept(recs);
      Kept(recs + [r]) == if 4 * |kept| + DataSize(kept) + RecSize(r) <= 4064 then kept + [r] else kept
  {
    assert (recs + [r])[..|recs|] == recs;
  }

  /** Some of the records, all of them in order if it is as many. */
  predicate Shortened(part: seq<Rec>, whole: seq<Rec>) {
    |part| <= |whole| && (|part| == |whole| ==> part == whole)
  }

  /** At most the last record kept lacks room for its slot, by one to four bytes: the slot then
      lies over the record's first bytes, and what can be read there is said by
      PackedRecords.SlotOverRecord. */
  lemma KeptFacts(recs: seq<Rec>)
    ensures Shortened(Kept(recs), recs)
    ensures Fits(recs) ==> Kept(recs) == recs
    ensures !Fits(Kept(recs)) ==> var n := |Kept(recs)| - 1;
      n >= 0 && Fits(Kept(recs)[..n]) && PAGE_ROOM < Used(Kept(recs)) <= PAGE_ROOM + SLOT_SIZE
  {
    KeptOverlap(recs);
    var p := InitPage(LeafPage);
    FillShort(p, recs);
    assert p.recs + recs == recs;
    if Fits(recs) {
      FillKeeps(p, recs);
    }
  }

  lemma {:induction false} KeptOverlap(recs: seq<Rec>)
    ensures Fits(recs) <==> Used(recs) <= PAGE_ROOM
    ensures !Fits(Kept(recs)) ==> var n := |Kept(recs)| - 1;
      n >= 0 && Fits(Kept(recs)[..n]) && PAGE_ROOM < Used(Kept(recs)) <= PAGE_ROOM + SLOT_SIZE
  {
    if recs != [] {
      var n := |recs| - 1;
      KeptOverlap(recs[..n]);
      var kept := Kept(recs[..n]);
      if AllocAccepts(kept, recs[n]) {
        assert Kept(recs) == kept + [recs[n]];
        UsedConcat(kept, [recs[n]]);
        UsedOne(recs[n]);
      }
    }
  }

  /** What is kept was there before. */
  lemma {:induction false} KeptMember(recs: seq<Rec>, t: nat)
    requires t < |Kept(recs)|
    ensures Kept(recs)[t] in recs
  {
    if recs != [] {
      var n := |recs| - 1;
      if t < |Kept(recs[..n])| {
        KeptMember(recs[..n], t);
      } else {
        assert Kept(recs)[t] == recs[n];
      }
    }
  }

  /** If something is lost, some record is nowhere in what is kept. */
  lemma {:induction false} DroppedRecord(recs: seq<Rec>) returns (t: nat)
    requires Kept(recs) != recs && forall i, j :: 0 <= i < j < |recs| ==> recs[i] != recs[j]
    ensures t < |recs| && recs[t] !in Kept(recs)
  {
    KeptFacts(recs);
    var n := |recs| - 1;
    assert recs == recs[..n] + [recs[n]];
    assert Kept(recs) == Kept(recs[..n]) || Kept(recs) == Kept(recs[..n]) + [recs[n]];
    if Kept(recs[..n]) != recs[..n] {
      t := DroppedRecord(recs[..n]);
    } else {
      t := n;
    }
  }

  /** Refilling touches the records only, and kind and links do not matter for it. */
  lemma {:induction false} FillIsKept(p: Page, recs: seq<Rec>)
    requires p.recs == []
    ensures Fill(p, recs) == p.(recs := Kept(recs))
  {
    if recs != [] {
      FillIsKept(p, recs[..|recs| - 1]);
    }
  }

  // ---------------------------------------------------------------- splits along a path

  predicate LeafHalvesFit(all: seq<Rec>) {
    Fits(all[..|all| / 2]) && Fits(all[|all| / 2..])
  }

  /** Besides fitting, both halves of an internal page keep a separator. */
  predicate InternalHalvesFit(all: seq<Rec>) {
    |all| >= 3 && Fits(all[..|all| / 2]) && Fits(all[|all| / 2 + 1..])
  }

  /** Taking up page `pid` with separator `sep` at entry `level` of the path, and
      what that causes further up, loses no record. Pages are numbered in the order
      in which they are allocated. */
  predicate AscentFits(cmp: Cmp, s: seq<Page>, path: seq<PageId>, level: int, sep: Key, pid: PageId)
    requires -1 <= level < |path|
    decreases level
  {
    var r := ChildRec(sep, pid);
    if level < 0 then Fits([r])
    else
      var recs := PageAt(s, path[level]).recs;
      var all := InsertAt(recs, UpperPos(cmp, recs, sep), r);
      InsertFits(recs, r) || (InternalHalvesFit(all)
        && AscentFits(cmp, s, path, level - 1, all[|all| / 2].key, pid + 1))
  }

  /** What becomes of the records a page is refilled with: all of them fit with their slots; or
      some are refused; or the slot of the last one taken lies over that record's first bytes,
      which page_alloc_slot lets happen when fewer than four bytes are left for the slot. */
  datatype Fate = Whole | Drops | Overlaps

  function Refilled(recs: seq<Rec>): Fate {
    if Fits(recs) then Whole else if Fits(Kept(recs)) then Drops else Overlaps
  }

  function Worse(f: Fate, g: Fate): Fate {
    if f == Overlaps || g == Overlaps then Overlaps else if f == Drops then Drops else g
  }

  /** The two halves of a leaf. */
  function LeafRefilled(all: seq<Rec>): Fate {
    Worse(Refilled(all[..|all| / 2]), Refilled(all[|all| / 2..]))
  }

  /** The two halves of an internal page, with the median between them. */
  function InternalRefilled(all: seq<Rec>): Fate
    requires all != []
  {
    Worse(Refilled(all[..|all| / 2]), Refilled(all[|all| / 2 + 1..]))
  }

  /** The same way up as in AscentFits: the worst that happens to a page on it. */
  function AscentRefills(cmp: Cmp, s: seq<Page>, path: seq<PageId>, level: int, sep: Key, pid: PageId): Fate
    requires -1 <= level < |path|
    decreases level
  {
    var r := ChildRec(sep, pid);
    if level < 0 then Refilled([r])
    else
      var recs := PageAt(s, path[level]).recs;
      var all := InsertAt(recs, UpperPos(cmp, recs, sep), r);
      if InsertFits(recs, r) then Whole
      else Worse(InternalRefilled(all), AscentRefills(cmp, s, path, level - 1, all[|all| / 2].key, pid + 1))
  }

  lemma {:induction false} RefillsFrame(cmp: Cmp, s: seq<Page>, s': seq<Page>, path: seq<PageId>, level: int, sep: Key,
                                        pid: PageId)
    requires -1 <= level < |path|
    requires forall l :: 0 <= l <= level ==> PageAt(s', path[l]).recs == PageAt(s, path[l]).recs
    ensures AscentRefills(cmp, s', path, level, sep, pid) == AscentRefills(cmp, s, path, level, sep, pid)
    decreases level
  {
    if level >= 0 {
      var recs := PageAt(s, path[level]).recs;
      var all := InsertAt(recs, UpperPos(cmp, recs, sep), ChildRec(sep, pid));
      RefillsFrame(cmp, s, s', path, level - 1, all[|all| / 2].key, pid + 1);
    }
  }

  lemma RefillsUnfold(cmp: Cmp, s: seq<Page>, path: seq<PageId>, level: int, sep: Key, pid: PageId)
    requires -1 <= level < |path|
    ensures level < 0 ==> AscentRefills(cmp, s, path, level, sep, pid) == Refilled([ChildRec(sep, pid)])
    ensures level >= 0 ==>
      var recs := PageAt(s, path[level]).recs; var r := ChildRec(sep, pid);
      var all := InsertAt(recs, UpperPos(cmp, recs, sep), r);
      AscentRefills(cmp, s, path, level, sep, pid) ==
        if InsertFits(recs, r) then Whole
        else Worse(InternalRefilled(all), AscentRefills(cmp, s, path, level - 1, all[|all| / 2].key, pid + 1))
  {
  }

  /** What the three outcomes say about the records kept. */
  lemma RefilledFacts(recs: seq<Rec>)
    ensures Refilled(recs) == Whole ==> Kept(recs) == recs
    ensures Refilled(recs) == Drops ==> Kept(recs) != recs
  {
    KeptFacts(recs);
  }

  function KeyPos(recs: seq<Rec>, k: Key): (i: nat)
    ensures i <= |recs| && (i < |recs| ==> recs[i].key == k)
    ensures forall t :: 0 <= t < i ==> recs[t].key != k
  {
    if recs == [] || recs[0].key == k then 0 else 1 + KeyPos(recs[1..], k)
  }

  function WithoutKey(recs: seq<Rec>, k: Key): seq<Rec> {
    if KeyPos(recs, k) < |recs| then RemoveAt(recs, KeyPos(recs, k)) else recs
  }

  /** The records of a leaf after a put. */
  function Upserted(cmp: Cmp, recs: seq<Rec>, r: Rec): seq<Rec> {
    var base := WithoutKey(recs, r.key);
    InsertAt(base, UpperPos(cmp, base, r.key), r)
  }

  /** Every page that a put has to split can be split by halving its records: a
      condition on the path of the key, which the caller can compute beforehand. */
  predicate PutFits(cmp: Cmp, s: seq<Page>, root: PageId, k: Key, v: seq<byte>) {
    var path := FullPath(cmp, s, root, k);
    var recs := PageAt(s, path[|path| - 1]).recs;
    var r := LeafRec(k, v, false);
    var all := Upserted(cmp, recs, r);
    InsertFits(WithoutKey(recs, k), r)
    || (LeafHalvesFit(all) && AscentFits(cmp, s, path, |path| - 2, all[|all| / 2].key, |s|))
  }

  /** What becomes of the pages that a put has to split, which the caller can also compute
      beforehand. */
  function PutRefills(cmp: Cmp, s: seq<Page>, root: PageId, k: Key, v: seq<byte>): Fate {
    var path := FullPath(cmp, s, root, k);
    var recs := PageAt(s, path[|path| - 1]).recs;
    var r := LeafRec(k, v, false);
    var all := Upserted(cmp, recs, r);
    if InsertFits(WithoutKey(recs, k), r) then Whole
    else Worse(LeafRefilled(all), AscentRefills(cmp, s, path, |path| - 2, all[|all| / 2].key, |s|))
  }

  /** Only the records along the rest of the path matter. */
  lemma {:induction false} AscentFrame(cmp: Cmp, s: seq<Page>, s': seq<Page>, path: seq<PageId>, level: int, sep: Key,
                                       pid: PageId)
    requires -1 <= level < |path|
    requires forall l :: 0 <= l <= level ==> PageAt(s', path[l]).recs == PageAt(s, path[l]).recs
    ensures AscentFits(cmp, s', path, level, sep, pid) == AscentFits(cmp, s, path, level, sep, pid)
    decreases level
  {
    if level >= 0 {
      var recs := PageAt(s, path[level]).recs;
      var all := InsertAt(recs, UpperPos(cmp, recs, sep), ChildRec(sep, pid));
      AscentFrame(cmp, s, s', path, level - 1, all[|all| / 2].key, pid + 1);
    }
  }

  /** A put that leaves a tree refills no page with more than it has room for. */
  lemma PutFitsWhole(cmp: Cmp, s: seq<Page>, root: PageId, k: Key, v: seq<byte>)
    requires PutFits(cmp, s, root, k, v)
    ensures PutRefills(cmp, s, root, k, v) == Whole
  {
    hide Kept, Fits, InsertFits, AscentFits, AscentRefills, WithoutKey;
    var path := FullPath(cmp, s, root, k);
    var all := Upserted(cmp, PageAt(s, path[|path| - 1]).recs, LeafRec(k, v, false));
    if AscentFits(cmp, s, path, |path| - 2, all[|all| / 2].key, |s|) {
      AscentFitsWhole(cmp, s, path, |path| - 2, all[|all| / 2].key, |s|);
    }
  }

  lemma {:induction false} AscentFitsWhole(cmp: Cmp, s: seq<Page>, path: seq<PageId>, level: int, sep: Key, pid: PageId)
    requires -1 <= level < |path| && AscentFits(cmp, s, path, level, sep, pid)
    ensures AscentRefills(cmp, s, path, level, sep, pid) == Whole
    decreases level
  {
    hide Kept, Fits, InsertFits;
    if level >= 0 {
      var recs := PageAt(s, path[level]).recs;
      var all := InsertAt(recs, UpperPos(cmp, recs, sep), ChildRec(sep, pid));
      if !InsertFits(recs, ChildRec(sep, pid)) {
        AscentFitsWhole(cmp, s, path, level - 1, all[|all| / 2].key, pid + 1);
      }
    }
  }

  // ---------------------------------------------------------------- even entries fit when halved

  /** What a record costs a page: its bytes and its slot. */
  function Cost(r: Rec): nat {
    SLOT_SIZE + RecSize(r)
  }

  predicate Costs(recs: seq<Rec>, low: nat, high: nat) {
    forall t :: 0 <= t < |recs| ==> low <= Cost(recs[t]) <= high
  }

  lemma {:induction false} UsedAtLeast(recs: seq<Rec>, low: nat, high: nat)
    requires Costs(recs, low, high)
    ensures |recs| * low <= Used(recs)
  {
    if recs != [] {
      var n := |recs| - 1;
      UsedAtLeast(recs[..n], low, high);
      UsedLast(recs);
      assert |recs| * low == n * low + low;
    }
  }

  lemma UsedLast(recs: seq<Rec>)
    requires recs != []
    ensures Used(recs) == Used(recs[..|recs| - 1]) + Cost(recs[|recs| - 1])
  {
  }

  lemma UsedRemoved(all: seq<Rec>, i: nat)
    requires i < |all|
    ensures Used(all) == Used(RemoveAt(all, i)) + Cost(all[i])
  {
    hide Used;
    var a, b := all[..i], all[i + 1..];
    assert all == a + [all[i]] + b;
    UsedConcat(a + [all[i]], b);
    UsedConcat(a, [all[i]]);
    UsedConcat(a, b);
    UsedOne(all[i]);
  }

  /** What is left of a page that held all but one of the records, once enough of them leave. */
  lemma PartFits(all: seq<Rec>, i: nat, part: seq<Rec>, gone: seq<Rec>, low: nat, high: nat)
    requires i < |all| && Fits(RemoveAt(all, i)) && Costs(all, low, high) && Costs(gone, low, high)
    requires Used(all) == Used(part) + Used(gone) && |gone| >= |all| / 2 && |all| / 2 * low >= high
    ensures Fits(part)
  {
    hide Used, Cost, Fits, RemoveAt;
    UsedRemoved(all, i);
    UsedAtLeast(gone, low, high);
    MoreCosts(|all| / 2, |gone|, low);
    UsedFits(RemoveAt(all, i));
    UsedFits(part);
  }

  lemma MoreCosts(m: nat, n: nat, low: nat)
    requires m <= n
    ensures m * low <= n * low
  {
  }

  lemma UsedFits(recs: seq<Rec>)
    ensures Fits(recs) <==> Used(recs) <= PAGE_ROOM
  {
  }

  /** If every entry costs between `low` and `high` bytes and half of them cost at least as much
      as the dearest one, both halves by number of a leaf with one record too many fit. */
  lemma EvenLeafHalves(all: seq<Rec>, i: nat, low: nat, high: nat)
    requires i < |all| && Fits(RemoveAt(all, i))
    requires Costs(all, low, high) && |all| / 2 * low >= high
    ensures LeafHalvesFit(all)
  {
    hide Used, Cost, Fits, RemoveAt;
    var a, b := all[..|all| / 2], all[|all| / 2..];
    assert all == a + b;
    UsedConcat(a, b);
    PartFits(all, i, a, b, low, high);
    PartFits(all, i, b, a, low, high);
  }

  /** The same for an internal page, where the median goes up. */
  lemma EvenInternalHalves(all: seq<Rec>, i: nat, low: nat, high: nat)
    requires i < |all| && Fits(RemoveAt(all, i)) && |all| >= 3
    requires Costs(all, low, high) && |all| / 2 * low >= high
    ensures InternalHalvesFit(all)
  {
    hide Used, Cost, Fits, RemoveAt;
    var mid := |all| / 2;
    var a, m, b := all[..mid], [all[mid]], all[mid + 1..];
    assert all == a + m + b && all == a + (m + b);
    UsedConcat(a + m, b);
    UsedConcat(a, m + b);
    PartFits(all, i, a, m + b, low, high);
    PartFits(all, i, b, a + m, low, high);
  }

  /** More than 4064 bytes of entries are many entries when none costs much. */
  lemma {:induction false} UsedAtMost(recs: seq<Rec>, low: nat, high: nat)
    requires Costs(recs, low, high)
    ensures Used(recs) <= |recs| * high
  {
    if recs != [] {
      var n := |recs| - 1;
      UsedAtMost(recs[..n], low, high);
      UsedLast(recs);
      assert |recs| * high == n * high + high;
    }
  }

  /** Costs so close that half of any page with one entry too many outweighs an entry. The
      fewest entries that can fill a page are decisive. */
  predicate Even(low: nat, high: nat) {
    && 0 < high
    && var n := PAGE_ROOM / high + 1;
       n >= 3 && n / 2 * low >= high
  }

  lemma EvenMany(recs: seq<Rec>, low: nat, high: nat)
    requires Costs(recs, low, high) && Even(low, high) && !Fits(recs)
    ensures |recs| >= 3 && |recs| / 2 * low >= high
  {
    hide Used, Cost, Fits;
    UsedAtMost(recs, low, high);
    UsedFits(recs);
    var n := PAGE_ROOM / high + 1;
    assert (n - 1) * high <= PAGE_ROOM;
    if |recs| < n {
      MoreCosts(|recs|, n - 1, high);
      assert false;
    }
    MoreCosts(n / 2, |recs| / 2, low);
  }

  /** On a path of even entries, everything that one put causes on its way up fits. */
  lemma {:induction false} EvenAscent(cmp: Cmp, s: seq<Page>, path: seq<PageId>, level: int, sep: Key, pid: PageId,
                                      low: nat, high: nat)
    requires -1 <= level < |path| && Even(low, high) && low <= Cost(ChildRec(sep, pid)) <= high
    requires forall l :: 0 <= l <= level ==> EvenPage(PageAt(s, path[l]).recs, low, high)
    ensures AscentFits(cmp, s, path, level, sep, pid)
    decreases level
  {
    hide AscentFits, InternalHalvesFit, InsertFits, UpperPos, Even, EvenPage, Cost;
    AscentUnfold(cmp, s, path, level, sep, pid);
    if level < 0 {
      OneFits(ChildRec(sep, pid), low, high);
    } else {
      var recs := PageAt(s, path[level]).recs;
      var pos := UpperPos(cmp, recs, sep);
      var all := InsertAt(recs, pos, ChildRec(sep, pid));
      if !InsertFits(recs, ChildRec(sep, pid)) {
        EvenTaken(recs, pos, ChildRec(sep, pid), low, high);
        SameCost(all[|all| / 2], pid + 1);
        EvenAscent(cmp, s, path, level - 1, all[|all| / 2].key, pid + 1, low, high);
      }
    }
  }

  /** An internal page of even entries. */
  ghost predicate EvenPage(recs: seq<Rec>, low: nat, high: nat) {
    ChildRecs(recs) && Costs(recs, low, high) && Fits(recs)
  }

  lemma OneFits(r: Rec, low: nat, high: nat)
    requires Even(low, high) && Cost(r) <= high
    ensures Fits([r])
  {
    UsedOne(r);
    UsedFits([r]);
  }

  /** The number of the child does not matter for what a separator costs. */
  lemma SameCost(r: Rec, pid: PageId)
    requires r.ChildRec?
    ensures Cost(ChildRec(r.key, pid)) == Cost(r)
  {
  }

  lemma EvenTaken(recs: seq<Rec>, pos: nat, r: Rec, low: nat, high: nat)
    requires pos <= |recs| && EvenPage(recs, low, high) && Even(low, high)
    requires !InsertFits(recs, r) && r.ChildRec? && low <= Cost(r) <= high
    ensures var all := InsertAt(recs, pos, r);
      InternalHalvesFit(all) && all[|all| / 2].ChildRec? && low <= Cost(all[|all| / 2]) <= high
  {
    hide Cost, Even, Fits, InternalHalvesFit, InsertFits;
    var all := InsertAt(recs, pos, r);
    RemoveInserted(recs, pos, r);
    InsertFitsIffFits(recs, pos, r);
    forall t | 0 <= t < |all|
      ensures all[t].ChildRec? && low <= Cost(all[t]) <= high
    {
      assert all[t] == if t < pos then recs[t] else if t == pos then r else recs[t - 1];
    }
    EvenMany(all, low, high);
    EvenInternalHalves(all, pos, low, high);
  }

  lemma RemoveInserted<T>(s: seq<T>, i: nat, x: T)
    requires i <= |s|
    ensures InsertAt(s, i, x)[i] == x && RemoveAt(InsertAt(s, i, x), i) == s
  {
  }

  lemma AscentUnfold(cmp: Cmp, s: seq<Page>, path: seq<PageId>, level: int, sep: Key, pid: PageId)
    requires -1 <= level < |path|
    ensures level < 0 ==> (AscentFits(cmp, s, path, level, sep, pid) <==> Fits([ChildRec(sep, pid)]))
    ensures level >= 0 ==>
      var recs := PageAt(s, path[level]).recs; var r := ChildRec(sep, pid);
      var all := InsertAt(recs, UpperPos(cmp, recs, sep), r);
      AscentFits(cmp, s, path, level, sep, pid) <==>
        InsertFits(recs, r) || (InternalHalvesFit(all)
          && AscentFits(cmp, s, path, level - 1, all[|all| / 2].key, pid + 1))
  {
  }

  // ---------------------------------------------------------------- small entries always fit

  const MAX_PAYLOAD := 126

  predicate Small(r: Rec) {
    match r
    case LeafRec(key, val, _) => |key| + |val| <= MAX_PAYLOAD
    case ChildRec(key, _) => |key| <= MAX_PAYLOAD
  }

  predicate AllSmall(recs: seq<Rec>) {
    forall t :: 0 <= t < |recs| ==> Small(recs[t])
  }

  ghost predicate SmallStore(s: seq<Page>) {
    forall x :: 0 <= x < |s| ==> AllSmall(s[x].recs)
  }

  /** Small leaf entries cost 9 to 135 bytes, small separators 10 to 136: both are even. */
  lemma SmallCosts(recs: seq<Rec>)
    requires AllSmall(recs)
    ensures LeafRecs(recs) ==> Costs(recs, 9, 135)
    ensures ChildRecs(recs) ==> Costs(recs, 10, 136)
    ensures Even(9, 135) && Even(10, 136)
  {
  }

  /** Any mix of small leaf records: if one too many, either half fits. */
  lemma SmallLeafHalves(all: seq<Rec>, i: nat)
    requires i < |all| && Fits(RemoveAt(all, i)) && !Fits(all)
    requires AllSmall(all) && LeafRecs(all)
    ensures LeafHalvesFit(all)
  {
    SmallCosts(all);
    EvenMany(all, 9, 135);
    EvenLeafHalves(all, i, 9, 135);
  }

  lemma SmallInternalHalves(all: seq<Rec>, i: nat)
    requires i < |all| && Fits(RemoveAt(all, i)) && !Fits(all)
    requires AllSmall(all) && ChildRecs(all)
    ensures InternalHalvesFit(all)
  {
    SmallCosts(all);
    EvenMany(all, 10, 136);
    EvenInternalHalves(all, i, 10, 136);
  }

  /** Halving by number can lose records when their sizes are very uneven: here two
      tiny and two large records fill a leaf, and a third large one splits it. */
  lemma UnevenSplitLoses(big: seq<byte>)
    requires |big| == 2000
    ensures var recs := [LeafRec([1], [], false), LeafRec([2], [], false), LeafRec([3], big, false),
      LeafRec([4], big, false)];
            var r := LeafRec([5], big, false);
            var all := InsertAt(recs, 4, r);
            && Fits(recs) && !InsertFits(recs, r) && !LeafHalvesFit(all)
            && Fill(InitPage(LeafPage), all[|all| / 2..]).recs != all[|all| / 2..]
  {
    var a, b, c, d, e := LeafRec([1], [], false), LeafRec([2], [], false), LeafRec([3], big, false),
      LeafRec([4], big, false), LeafRec([5], big, false);
    assert [a, b, c, d] == [a] + [b] + [c] + [d];
    UsedConcat([a] + [b] + [c], [d]);
    UsedConcat([a] + [b], [c]);
    UsedConcat([a], [b]);
    UsedOne(a);
    UsedOne(b);
    UsedOne(c);
    UsedOne(d);
    UsedOne(e);
    var all := InsertAt([a, b, c, d], 4, e);
    assert all[|all| / 2..] == [c] + [d] + [e];
    UsedConcat([c] + [d], [e]);
    UsedConcat([c], [d]);
    FillOutcome(LeafPage, [c] + [d] + [e]);
  }
}
