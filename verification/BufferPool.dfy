/** The write-back page cache between the tree and the store (src/buffer_pool.c). */
module BufferPools {
  import opened Pages
  import opened Bits
  import opened HashTables
  import opened Recency
  import opened PoolSteps
  import opened Storage

  const BP_DEFAULT_CAPACITY := 128

  /** Multiplicative hashing of 32-bit page numbers. */
  function BpHash(pid: PageId): nat {
    pid * 2654435761 % WORD
  }

  datatype Access<T> = Reading(pid: PageId) | Writing(pid: PageId, page: T)

  class BufferPool<T> {
    const frames: array<Frame<T>>
    const table: HashTable
    /** The pages of the storage layer below. */
    var store: seq<T>
    var counter: nat
    var hits: nat
    var misses: nat
    /** What the storage layer fills gaps with. */
    const zero: T
    /** Every page ever used, most recently used first. */
    ghost var stack: seq<PageId>

    ghost predicate Valid()
      reads this, frames, table, table.slots
    {
      && table.Valid()
      && 0 < frames.Length < table.slots.Length
      && Cached(frames[..], table.entries, store)
    }

    /** The pages as the layer above has written them, which is what flushing everything
        would leave in the store. */
    ghost function Contents(): seq<T>
      reads this, frames, table, table.slots
      requires Valid()
    {
      View(frames[..], table.entries, store, zero)
    }

    /** Only existing pages are cached: the tree never writes past the end of the store. */
    ghost predicate NoGaps()
      reads this, table
    {
      Dense(table.entries, store)
    }

    /** The frames hold the most recently used pages. */
    ghost predicate InOrder()
      reads this, frames, table
    {
      Lru(frames[..], table.entries, stack, counter)
    }

    /** bp_create. */
    constructor (capacity: nat, store: seq<T>, zero: T)
      requires capacity <= 0x4000_0000
      ensures Valid() && InOrder() && NoGaps() && stack == []
      ensures fresh(frames) && fresh(table) && fresh(table.slots)
      ensures this.store == store && Contents() == store && counter == hits == misses == 0
      ensures frames.Length == if capacity == 0 then 128 else capacity
      ensures LeastPow2(2 * frames.Length, table.slots.Length)
      ensures 2 * frames.Length <= table.slots.Length < 4 * frames.Length && table.hash == BpHash
    {
      var c := if capacity == 0 then BP_DEFAULT_CAPACITY else capacity;
      var size := NextPow2(c * 2);
      ghost var k: nat :| size == Pow2(k);
      frames := new Frame<T>[c](_ => Frame(zero, 0, false, false, 0));
      table := new HashTable(size, k, BpHash);
      this.store := store;
      this.zero := zero;
      counter, hits, misses := 0, 0, 0;
      stack := [];
      new;
      AllClean(frames[..], map[], store, zero);
    }

    /** evict_one: a frame to use next. */
    method EvictOne() returns (v: nat)
      requires Valid()
      modifies this, frames, table, table.slots
      ensures Valid() && Contents() == old(Contents())
      ensures Evicts(old(frames[..]), old(table.entries), old(store), v, frames[..], table.entries, store, zero)
      ensures v < frames.Length && !frames[v].used
      ensures (exists i :: 0 <= i < frames.Length && !old(frames[i].used)) ==>
        && frames[..] == old(frames[..]) && store == old(store) && table.entries == old(table.entries)
        && forall i :: 0 <= i < v ==> old(frames[i].used)
      ensures (forall i :: 0 <= i < frames.Length ==> old(frames[i].used)) ==>
        var f := old(frames[v]);
        && (forall i :: 0 <= i < frames.Length ==> f.stamp <= old(frames[i].stamp))
        && (forall i :: 0 <= i < v ==> f.stamp < old(frames[i].stamp))
        && frames[..] == old(frames[..])[v := f.(used := false, dirty := false, stamp := 0)]
        && store == (if f.dirty then StoreWrite(old(store), f.pid, f.page, zero) else old(store))
        && table.entries == old(table.entries) - {f.pid}
      ensures counter == old(counter) && hits == old(hits) && misses == old(misses) && stack == old(stack)
      ensures old(NoGaps()) ==> NoGaps()
    {
      hide View, Cached, Indexed, TableOk, Dense, StoreWrite, HashTable.Valid;
      ghost var fs, m, s := frames[..], table.entries, store;
      for i := 0 to frames.Length
        invariant forall k :: 0 <= k < i ==> frames[k].used
      {
        if !frames[i].used {
          assert fs[i] == frames[i];
          return i;
        }
      }
      v := 0;
      var oldest := frames[0].stamp;
      for i := 1 to frames.Length
        invariant v < i && oldest == frames[v].stamp
        invariant forall k :: 0 <= k < i ==> oldest <= frames[k].stamp
        invariant forall k :: 0 <= k < v ==> oldest < frames[k].stamp
      {
        if frames[i].stamp < oldest {
          oldest := frames[i].stamp;
          v := i;
        }
      }
      if frames[v].dirty {
        store := StoreWrite(store, frames[v].pid, frames[v].page, zero);
      }
      table.Remove(frames[v].pid);
      frames[v] := frames[v].(used := false, dirty := false, stamp := 0);
      assert frames[..] == fs[v := fs[v].(used := false, dirty := false, stamp := 0)];
      EvictsKeeps(fs, m, s, v, frames[..], table.entries, store, zero);
      EvictsDense(fs, m, s, v, frames[..], table.entries, store, zero);
    }

    /** A cached page is used: its frame gets the next stamp. */
    method UseFrame(fi: nat, page: T, dirty: bool)
      requires Valid() && fi < frames.Length && frames[fi].used
      requires dirty || (page == frames[fi].page && !frames[fi].dirty)
      modifies this, frames
      ensures Valid() && frames[fi].pid == old(frames[fi].pid)
      ensures frames[fi].pid < |old(Contents())| && Contents() == old(Contents())[frames[fi].pid := page]
      ensures hits == old(hits) && misses == old(misses) && counter == (old(counter) + 1) % WORD && store == old(store)
      ensures frames[..] == old(frames[..])[fi := Frame(page, old(frames[fi].pid), true, dirty, counter)]
      ensures old(InOrder()) && old(counter) + 1 < WORD ==> InOrder() && stack == Touch(old(stack), frames[fi].pid)
    {
      hide Lru, Touch, View, TableOk, HashTable.Valid;
      ghost var fs := frames[..];
      ghost var tick := counter + 1;
      counter := (counter + 1) % WORD;
      frames[fi] := frames[fi].(page := page, dirty := dirty, stamp := counter);
      ghost var f := frames[fi];
      AsUpdate(frames, fs, fi, f);
      assert f.pid in table.entries && table.entries[f.pid] == fi by { assert fs[fi].used; }
      HitKeeps(fs, table.entries, store, zero, stack, tick, f.pid, f);
      stack := Touch(stack, f.pid);
    }

    /** A page enters the frame that eviction gave up; `fs`, `m` and `s` are what there was
        before the eviction. */
    method FillFrame(v: nat, pid: PageId, page: T, dirty: bool, ghost fs: seq<Frame<T>>, ghost m: map<PageId, nat>,
                     ghost s: seq<T>)
      requires Valid() && v < frames.Length && !frames[v].used && pid !in table.entries
      requires dirty || (pid < |store| && page == store[pid])
      requires Cached(fs, m, s) && Evicts(fs, m, s, v, frames[..], table.entries, store, zero) && pid !in m
      modifies this, frames, table, table.slots
      ensures Valid() && Contents() == StoreWrite(old(Contents()), pid, page, zero)
      ensures old(NoGaps()) && pid < |store| ==> NoGaps()
      ensures hits == old(hits) && misses == old(misses) && counter == (old(counter) + 1) % WORD && store == old(store)
      ensures frames[..] == old(frames[..])[v := Frame(page, pid, true, dirty, counter)]
      ensures table.entries == old(table.entries)[pid := v]
      ensures Lru(fs, m, old(stack), old(counter)) && old(counter) + 1 < WORD ==>
        InOrder() && stack == Touch(old(stack), pid)
    {
      hide Lru, Evicts, Cached, Indexed, Touch, View, TableOk, HashTable.Valid;
      ghost var fs1, m1 := frames[..], table.entries;
      ghost var tick := counter + 1;
      counter := (counter + 1) % WORD;
      ghost var f := Frame(page, pid, true, dirty, counter);
      frames[v] := Frame(page, pid, true, dirty, counter);
      AsUpdate(frames, fs1, v, f);
      SmallTable(fs1, m1, store);
      table.Insert(pid, v);
      MissKeeps(fs, m, s, stack, tick, v, fs1, m1, store, zero, pid, f);
      stack := Touch(stack, pid);
    }

    /** bp_read. A read finds exactly the pages that are cached or stored; without gaps those
        are all pages that exist. */
    method Read(pid: PageId) returns (err: Error, page: T)
      requires Valid()
      modifies this, frames, table, table.slots
      ensures Valid() && Contents() == old(Contents())
      ensures err == if pid in old(table.entries) || pid < |store| then Ok else IoError
      ensures old(NoGaps()) ==> NoGaps() && err == if pid < |Contents()| then Ok else IoError
      ensures err == Ok ==> pid < |Contents()| && page == Contents()[pid]
      ensures hits == (if pid in old(table.entries) then (old(hits) + 1) % WORD else old(hits))
      ensures misses == (if pid in old(table.entries) then old(misses) else (old(misses) + 1) % WORD)
      ensures err == Ok ==> counter == (old(counter) + 1) % WORD
      ensures err == Ok && old(InOrder()) && old(counter) + 1 < WORD ==> InOrder() && stack == Touch(old(stack), pid)
      ensures pid in old(table.entries) ==>
        var fi := old(table.entries)[pid];
        && fi < frames.Length && store == old(store) && table.entries == old(table.entries)
        && frames[..] == old(frames[..])[fi := old(frames[fi]).(stamp := counter)]
      ensures pid !in old(table.entries) && err == Ok ==>
        exists v :: 0 <= v < frames.Length && Replaced(old(frames[..]), old(store), frames[..], store, v, zero)
          && frames[v] == Frame(page, pid, true, false, counter)
    {
      hide Lru, Evicts, Cached, Indexed, Touch, View, TableOk, HashTable.Valid, Dense, StoreWrite, Replaced;
      ghost var fs, m, s := frames[..], table.entries, store;
      FrameOf(fs, m, s, pid);
      DenseExtent(fs, m, s);
      var fi := table.Lookup(pid);
      if fi >= 0 {
        hits := (hits + 1) % WORD;
        ViewAt(fs, m, s, zero, pid);
        page := frames[fi].page;
        UseFrame(fi, page, frames[fi].dirty);
        return Ok, page;
      }
      misses := (misses + 1) % WORD;
      var v := EvictOne();
      ghost var fs1, m1, s1 := frames[..], table.entries, store;
      EvictsFacts(fs, m, s, v, fs1, m1, s1, zero, pid);
      DenseExtent(fs1, m1, s1);
      if pid >= |store| {
        return IoError, zero;
      }
      MissReads(fs1, m1, s1, zero, pid);
      page := store[pid];
      FillFrame(v, pid, page, false, fs, m, s);
      ReplacedIs(fs, m, s, v, fs1, m1, s1, zero, frames[v]);
      SameWrite(View(fs1, m1, s1, zero), pid, zero);
      return Ok, page;
    }

    /** bp_write: the page is cached as modified; the store sees it later. To the layer above
        it is as if the store had been written. */
    method Write(pid: PageId, page: T)
      requires Valid()
      modifies this, frames, table, table.slots
      ensures Valid() && Contents() == StoreWrite(old(Contents()), pid, page, zero)
      ensures old(NoGaps()) && pid < |old(Contents())| ==> NoGaps()
      ensures hits == old(hits) && misses == old(misses) && counter == (old(counter) + 1) % WORD
      ensures old(InOrder()) && old(counter) + 1 < WORD ==> InOrder() && stack == Touch(old(stack), pid)
      ensures pid in old(table.entries) ==>
        var fi := old(table.entries)[pid];
        && fi < frames.Length && store == old(store) && table.entries == old(table.entries)
        && frames[..] == old(frames[..])[fi := Frame(page, pid, true, true, counter)]
      ensures pid !in old(table.entries) ==>
        exists v :: 0 <= v < frames.Length && Replaced(old(frames[..]), old(store), frames[..], store, v, zero)
          && frames[v] == Frame(page, pid, true, true, counter)
    {
      hide Lru, Evicts, Cached, Indexed, Touch, View, TableOk, HashTable.Valid, Dense, Replaced;
      ghost var fs, m, s := frames[..], table.entries, store;
      FrameOf(fs, m, s, pid);
      DenseExtent(fs, m, s);
      var fi := table.Lookup(pid);
      if fi >= 0 {
        UseFrame(fi, page, true);
      } else {
        var v := EvictOne();
        ghost var fs1, m1, s1 := frames[..], table.entries, store;
        EvictsFacts(fs, m, s, v, fs1, m1, s1, zero, pid);
        DenseExtent(fs1, m1, s1);
        FillFrame(v, pid, page, true, fs, m, s);
        ReplacedIs(fs, m, s, v, fs1, m1, s1, zero, frames[v]);
      }
    }

    /** One access of a trace. */
    method Perform(op: Access<T>) returns (reply: T)
      requires Valid() && NoGaps() && op.pid < |Contents()|
      modifies this, frames, table, table.slots
      ensures Valid() && NoGaps()
      ensures Contents() == (if op.Writing? then old(Contents())[op.pid := op.page] else old(Contents()))
      ensures reply == Contents()[op.pid]
      ensures hits == (if op.Reading? && op.pid in old(table.entries) then (old(hits) + 1) % WORD else old(hits))
      ensures counter == (old(counter) + 1) % WORD
      ensures old(InOrder()) && old(counter) + 1 < WORD ==> InOrder() && stack == Touch(old(stack), op.pid)
    {
      hide Lru, Touch, View, Cached, HashTable.Valid, Dense;
      match op {
        case Reading(pid) =>
          var err, page := Read(pid);
          reply := page;
        case Writing(pid, page) =>
          Write(pid, page);
          reply := page;
      }
    }

    /** bp_alloc: goes to the store, which appends a page. Without gaps the view gets it too;
        a page cached beyond the end of the store would hide it. */
    method Alloc(page: T) returns (pid: PageId)
      requires Valid()
      modifies this
      ensures Valid() && pid == |old(store)| && store == old(store) + [page]
      ensures Contents() == if pid in table.entries then old(Contents()) else StoreWrite(old(Contents()), pid, page,
        zero)
      ensures old(NoGaps()) ==> NoGaps() && Contents() == old(Contents()) + [page] && pid == |old(Contents())|
      ensures frames[..] == old(frames[..]) && table.entries == old(table.entries)
      ensures stack == old(stack) && counter == old(counter) && hits == old(hits) && misses == old(misses)
    {
      hide View, Cached, TableOk;
      DenseExtent(frames[..], table.entries, store) by { FrameOf(frames[..], table.entries, store, 0); }
      ExtentGrown(frames[..], table.entries, store, page, zero);
      pid := |store|;
      store := store + [page];
    }

    /** bp_flush: afterwards the store has the page as it was written. */
    method Flush(pid: PageId)
      requires Valid()
      modifies this, frames
      ensures Valid() && Contents() == old(Contents())
      ensures pid in table.entries || pid < |old(store)| ==>
        pid < |store| <= |Contents()| && store[pid] == Contents()[pid]
      ensures store == old(store) || (pid < |Contents()| && store == StoreWrite(old(store), pid, Contents()[pid], zero))
      ensures old(NoGaps()) ==> NoGaps()
      ensures old(InOrder()) ==> InOrder()
      ensures stack == old(stack) && counter == old(counter) && hits == old(hits) && misses == old(misses)
      ensures table.entries == old(table.entries)
      ensures pid !in table.entries ==> store == old(store) && frames[..] == old(frames[..])
      ensures pid in table.entries ==>
        var fi := table.entries[pid];
        && fi < frames.Length && frames[..] == old(frames[..])[fi := old(frames[fi]).(dirty := false)]
        && store == if old(frames[fi].dirty) then StoreWrite(old(store), pid, old(frames[fi].page),
          zero) else old(store)
    {
      hide Lru, View, Cached, Indexed, TableOk, StoreWrite, HashTable.Valid, Extent;
      ghost var fs, m, s := frames[..], table.entries, store;
      FrameOf(fs, m, s, pid);
      ViewReach(fs, m, s, zero, pid);
      var fi := table.Lookup(pid);
      if fi < 0 {
        return;
      }
      CleanIsStored(fs, m, s, pid);
      if frames[fi].dirty {
        Cleaned(fs, m, s, fi, zero);
        store := StoreWrite(store, pid, frames[fi].page, zero);
        frames[fi] := frames[fi].(dirty := false);
        AsUpdate(frames, fs, fi, fs[fi].(dirty := false));
        CleanOrder(fs, m, stack, counter, fi);
        DenseGrows(m, s, store);
        ViewReach(frames[..], m, store, zero, pid);
      }
    }

    /** bp_flush_all: afterwards the store is what readers see, and no page is modified. */
    method FlushAll()
      requires Valid()
      modifies this, frames
      ensures Valid() && Contents() == old(Contents()) && store == Contents()
      ensures forall i :: 0 <= i < frames.Length && frames[i].used ==> !frames[i].dirty
      ensures forall i :: 0 <= i < frames.Length ==>
        frames[i] == (if old(frames[i].used) then old(frames[i]).(dirty := false) else old(frames[i]))
      ensures table.entries == old(table.entries) && NoGaps()
      ensures old(InOrder()) ==> InOrder()
      ensures stack == old(stack) && counter == old(counter) && hits == old(hits) && misses == old(misses)
    {
      hide Lru, View, Indexed, TableOk, StoreWrite, HashTable.Valid, Extent, Dense;
      for i := 0 to frames.Length
        invariant Valid() && Contents() == old(Contents())
        invariant forall k :: 0 <= k < i && frames[k].used ==> !frames[k].dirty
        invariant forall k :: 0 <= k < frames.Length ==>
          frames[k] == (if k < i && old(frames[k].used) then old(frames[k]).(dirty := false) else old(frames[k]))
        invariant table.entries == old(table.entries)
        invariant old(InOrder()) ==> InOrder()
        invariant stack == old(stack) && counter == old(counter) && hits == old(hits) && misses == old(misses)
      {
        if frames[i].used && frames[i].dirty {
          ghost var fs := frames[..];
          Cleaned(fs, table.entries, store, i, zero);
          CleanOrder(fs, table.entries, stack, counter, i);
          store := StoreWrite(store, frames[i].pid, frames[i].page, zero);
          frames[i] := frames[i].(dirty := false);
          AsUpdate(frames, fs, i, fs[i].(dirty := false));
        }
      }
      AllClean(frames[..], table.entries, store, zero);
      DenseExtent(frames[..], table.entries, store);
    }
  }

  // ---------------------------------------------------------------- steps, put together

  lemma FrameOf<T>(fs: seq<Frame<T>>, m: map<PageId, nat>, s: seq<T>, p: PageId)
    requires Cached(fs, m, s)
    ensures Indexed(fs, m)
    ensures p in m ==> m[p] < |fs| && fs[m[p]].used && fs[m[p]].pid == p
  {
  }

  lemma EvictsFacts<T>(fs: seq<Frame<T>>, m: map<PageId, nat>, s: seq<T>, v: nat,
                       fs1: seq<Frame<T>>, m1: map<PageId, nat>, s1: seq<T>, zero: T, p: PageId)
    requires Cached(fs, m, s) && Evicts(fs, m, s, v, fs1, m1, s1, zero)
    ensures |fs1| == |fs| && (p in m1 ==> p in m)
    ensures Cached(fs1, m1, s1) && Indexed(fs1, m1)
  {
    EvictsKeeps(fs, m, s, v, fs1, m1, s1, zero);
  }

  lemma EvictsDense<T>(fs: seq<Frame<T>>, m: map<PageId, nat>, s: seq<T>, v: nat,
                       fs1: seq<Frame<T>>, m1: map<PageId, nat>, s1: seq<T>, zero: T)
    requires Cached(fs, m, s) && Evicts(fs, m, s, v, fs1, m1, s1, zero)
    ensures Dense(m, s) ==> Dense(m1, s1)
  {
    if Dense(m, s) {
      forall p {:trigger m1[p]} | p in m1
        ensures p < |s1|
      {
        assert m1[p] == m[p];
      }
    }
  }

  /** The page table never fills up. */
  lemma SmallTable<T>(fs: seq<Frame<T>>, m: map<PageId, nat>, s: seq<T>)
    requires Cached(fs, m, s)
    ensures |m| <= |fs|
  {
    CountFrames(fs, m);
  }

  lemma MissReads<T>(fs: seq<Frame<T>>, m: map<PageId, nat>, s: seq<T>, zero: T, p: PageId)
    requires Cached(fs, m, s) && p < |s| && p !in m
    ensures p < |View(fs, m, s, zero)| && View(fs, m, s, zero)[p] == s[p]
  {
    ExtentIs(fs, |fs|, |s|);
  }

  lemma SameWrite<T>(s: seq<T>, p: PageId, zero: T)
    requires p < |s|
    ensures StoreWrite(s, p, s[p], zero) == s
  {
  }

  lemma HitKeeps<T>(fs: seq<Frame<T>>, m: map<PageId, nat>, s: seq<T>, zero: T, stack: seq<PageId>, tick: nat,
                    p: PageId, f: Frame<T>)
    requires Cached(fs, m, s) && p in m && m[p] < |fs| && tick > 0
    requires f.used && f.pid == p && f.stamp == tick % WORD && (f.dirty || (f.page == fs[m[p]].page && !fs[m[p]].dirty))
    ensures Cached(fs[m[p] := f], m, s)
    ensures p < |View(fs, m, s, zero)| && View(fs[m[p] := f], m, s, zero) == View(fs, m, s, zero)[p := f.page]
    ensures Lru(fs, m, stack, tick - 1) && tick < WORD ==> Lru(fs[m[p] := f], m, Touch(stack, p), tick)
  {
    hide Lru, Touch, View;
    FrameOf(fs, m, s, p);
    CleanIsStored(fs, m, s, p);
    Updated(fs, m, s, m[p], f, zero);
    if Lru(fs, m, stack, tick - 1) && tick < WORD {
      LruHit(fs, m, stack, tick - 1, p, f);
    }
  }

  lemma CleanIsStored<T>(fs: seq<Frame<T>>, m: map<PageId, nat>, s: seq<T>, p: PageId)
    requires Cached(fs, m, s) && p in m
    ensures m[p] < |fs| && (!fs[m[p]].dirty ==> p < |s| && fs[m[p]].page == s[p])
  {
  }

  lemma ViewAt<T>(fs: seq<Frame<T>>, m: map<PageId, nat>, s: seq<T>, zero: T, p: PageId)
    requires Cached(fs, m, s) && p in m
    ensures m[p] < |fs| && p < |View(fs, m, s, zero)| && View(fs, m, s, zero)[p] == fs[m[p]].page
  {
    ExtentIs(fs, |fs|, |s|);
    assert fs[m[p]].pid == p;
  }

  /** What the store holds of the view. */
  lemma ViewReach<T>(fs: seq<Frame<T>>, m: map<PageId, nat>, s: seq<T>, zero: T, p: PageId)
    requires Cached(fs, m, s)
    ensures |s| <= |View(fs, m, s, zero)|
    ensures p in m ==> m[p] < |fs| && p < |View(fs, m, s, zero)| && View(fs, m, s, zero)[p] == fs[m[p]].page
    ensures p !in m && p < |s| ==> View(fs, m, s, zero)[p] == s[p]
  {
    ExtentIs(fs, |fs|, |s|);
    if p in m {
      ViewAt(fs, m, s, zero, p);
    }
  }

  lemma DenseGrows<T>(m: map<PageId, nat>, s: seq<T>, s': seq<T>)
    requires |s| <= |s'|
    ensures Dense(m, s) ==> Dense(m, s')
  {
  }

  lemma MissKeeps<T>(fs: seq<Frame<T>>, m: map<PageId, nat>, s: seq<T>, stack: seq<PageId>, tick: nat, v: nat,
                     fs1: seq<Frame<T>>, m1: map<PageId, nat>, s1: seq<T>, zero: T, p: PageId, f: Frame<T>)
    requires Cached(fs, m, s) && Evicts(fs, m, s, v, fs1, m1, s1, zero) && Cached(fs1, m1, s1) && p !in m && tick > 0
    requires v < |fs1| && !fs1[v].used && p !in m1
    requires f.used && f.pid == p && f.stamp == tick % WORD && (!f.dirty ==> p < |s1| && f.page == s1[p])
    ensures Cached(fs1[v := f], m1[p := v], s1)
    ensures View(fs1[v := f], m1[p := v], s1, zero) == StoreWrite(View(fs1, m1, s1, zero), p, f.page, zero)
    ensures Dense(m1, s1) && p < |s1| ==> Dense(m1[p := v], s1)
    ensures Lru(fs, m, stack, tick - 1) && tick < WORD ==> Lru(fs1[v := f], m1[p := v], Touch(stack, p), tick)
  {
    hide Lru, Touch, View, Evicts, StoreWrite;
    PlacedInFrame(fs1, m1, s1, v, f, zero);
    if Lru(fs, m, stack, tick - 1) && tick < WORD {
      LruMiss(fs, m, s, stack, tick - 1, v, fs1, m1, s1, zero, p, f);
    }
  }

  /** Cleaning a page does not change the order of use. */
  lemma CleanOrder<T>(fs: seq<Frame<T>>, m: map<PageId, nat>, stack: seq<PageId>, counter: nat, v: nat)
    requires v < |fs|
    ensures Lru(fs, m, stack, counter) ==> Lru(fs[v := fs[v].(dirty := false)], m, stack, counter)
  {
    hide Resident;
    if Lru(fs, m, stack, counter) {
      OrderedSame(fs, fs[v := fs[v].(dirty := false)], m, Resident(stack, |fs|), counter);
    }
  }

  lemma OrderedSame<T>(fs: seq<Frame<T>>, fs': seq<Frame<T>>, m: map<PageId, nat>, r: seq<PageId>, counter: nat)
    requires Ordered(fs, m, r, counter)
    requires |fs'| == |fs| && forall i :: 0 <= i < |fs| ==> fs'[i].stamp == fs[i].stamp
    ensures Ordered(fs', m, r, counter)
  {
  }

  /** A page came into frame `v`: a free one if there was one, else that with the least stamp,
      written back if it was modified. Nothing else changed. */
  ghost predicate Replaced<T>(fs: seq<Frame<T>>, s: seq<T>, fs': seq<Frame<T>>, s': seq<T>, v: nat, zero: T) {
    && v < |fs| == |fs'| && fs' == fs[v := fs'[v]]
    && if exists i :: 0 <= i < |fs| && !fs[i].used then !fs[v].used && s' == s
       else
         && (forall i :: 0 <= i < |fs| ==> fs[v].stamp <= fs[i].stamp)
         && s' == if fs[v].dirty then StoreWrite(s, fs[v].pid, fs[v].page, zero) else s
  }

  lemma ReplacedIs<T>(fs: seq<Frame<T>>, m: map<PageId, nat>, s: seq<T>, v: nat, fs1: seq<Frame<T>>,
                      m1: map<PageId, nat>, s1: seq<T>, zero: T, f: Frame<T>)
    requires Evicts(fs, m, s, v, fs1, m1, s1, zero) && v < |fs|
    ensures |fs1| == |fs| && Replaced(fs, s, fs1[v := f], s1, v, zero)
  {
    hide StoreWrite;
  }

  /** The hash is a bijection on 32-bit page numbers: multiplying by the inverse undoes it. */
  lemma BpHashInverse(pid: PageId)
    requires pid < 0x1_0000_0000
    ensures BpHash(pid) < 0x1_0000_0000 && BpHash(pid) * 244002641 % 0x1_0000_0000 == pid
  {
    var h, q := BpHash(pid), pid * 2654435761 / WORD;
    assert pid * 2654435761 == q * WORD + h;
    assert 2654435761 * 244002641 == 150801925 * WORD + 1;
    var d := pid * 150801925 - q * 244002641;
    assert h * 244002641 == d * WORD + pid;
    assert d >= 0;
    DivModUnique(h * 244002641, WORD, d, pid);
  }

  // ---------------------------------------------------------------- whole runs

  function Asked<T>(ops: seq<Access<T>>): (r: seq<PageId>)
    ensures |r| == |ops|
  {
    seq(|ops|, i requires 0 <= i < |ops| => ops[i].pid)
  }

  /** Reads are counted as hits or misses, writes are not. */
  function Counted<T>(ops: seq<Access<T>>): (r: seq<bool>)
    ensures |r| == |ops|
  {
    seq(|ops|, i requires 0 <= i < |ops| => ops[i].Reading?)
  }

  /** The pages after the first `n` operations, without any cache. */
  function PlainPages<T>(s: seq<T>, ops: seq<Access<T>>, n: nat): (r: seq<T>)
    requires n <= |ops| && forall i :: 0 <= i < |ops| ==> ops[i].pid < |s|
    ensures |r| == |s|
  {
    if n == 0 then s
    else
      var before := PlainPages(s, ops, n - 1);
      match ops[n - 1]
      case Reading(_) => before
      case Writing(pid, page) => before[pid := page]
  }

  /** A page is as it was last written, or as it was at the start. */
  lemma {:induction false} LastWrite<T>(s: seq<T>, ops: seq<Access<T>>, n: nat, p: PageId, j: int)
    requires n <= |ops| && p < |s| && forall i :: 0 <= i < |ops| ==> ops[i].pid < |s|
    requires -1 <= j < n && (j >= 0 ==> ops[j].Writing? && ops[j].pid == p)
    requires forall h :: j < h < n && ops[h].Writing? ==> ops[h].pid != p
    ensures PlainPages(s, ops, n)[p] == if j >= 0 then ops[j].page else s[p]
  {
    if n > 0 && j < n - 1 {
      LastWrite(s, ops, n - 1, p, j);
    }
  }

  lemma PrefixTrace<T>(ops: seq<Access<T>>, n: nat)
    requires n < |ops|
    ensures Asked(ops[..n + 1])[..n] == Asked(ops[..n]) && Counted(ops[..n + 1])[..n] == Counted(ops[..n])
    ensures Recent(Asked(ops[..n + 1])) == Touch(Recent(Asked(ops[..n])), ops[n].pid)
  {
    assert Asked(ops[..n + 1])[..n] == Asked(ops[..n]);
  }

  lemma HitsStep<T>(ops: seq<Access<T>>, n: nat, c: nat)
    requires n < |ops|
    ensures var before := Hits(Asked(ops[..n]), Counted(ops[..n]), c);
      Hits(Asked(ops[..n + 1]), Counted(ops[..n + 1]), c)
      == before + if ops[n].Reading? && ops[n].pid in Resident(Recent(Asked(ops[..n])), c) then 1 else 0
  {
    hide Resident, Recent;
    PrefixTrace(ops, n);
  }

  /** The cached pages are the most recently used ones. */
  lemma CachedIffResident<T>(pool: BufferPool<T>, p: PageId)
    requires pool.InOrder()
    ensures p in pool.table.entries <==> p in Resident(pool.stack, pool.frames.Length)
  {
    hide Resident;
  }

  /** A whole run through a new pool: every read sees what a plain array of pages would give,
      the pool ends up with the most recently used pages, and its hit counter is the number of
      reads whose page was among the most recently used ones. */
  method Serve<T>(ops: seq<Access<T>>, capacity: nat, store: seq<T>, zero: T)
    returns (pool: BufferPool<T>, replies: seq<T>)
    requires 0 < capacity <= 0x4000_0000 && |ops| < WORD
    requires forall i :: 0 <= i < |ops| ==> ops[i].pid < |store|
    ensures fresh(pool) && fresh(pool.frames) && fresh(pool.table) && fresh(pool.table.slots)
    ensures pool.Valid() && pool.NoGaps() && pool.Contents() == PlainPages(store, ops, |ops|)
    ensures |replies| == |ops|
    ensures forall i :: 0 <= i < |ops| ==> replies[i] == PlainPages(store, ops, i + 1)[ops[i].pid]
    ensures forall i, j ::
      (0 <= j <= i < |ops| && ops[j].Writing? && ops[j].pid == ops[i].pid
       && forall h :: j < h <= i && ops[h].Writing? ==> ops[h].pid != ops[i].pid) ==>
      replies[i] == ops[j].page
    ensures forall i :: 0 <= i < |ops| && (forall h :: 0 <= h <= i && ops[h].Writing? ==> ops[h].pid != ops[i].pid) ==>
      replies[i] == store[ops[i].pid]
    ensures forall p :: p in pool.table.entries <==> p in Resident(Recent(Asked(ops)), capacity)
    ensures pool.hits == Hits(Asked(ops), Counted(ops), capacity)
  {
    hide Lru, Resident, Recent, Touch, Hits, Cached, Indexed, View, Asked, Counted, HashTable.Valid, LeastPow2,
      PlainPages, BufferPool.InOrder, BufferPool.Contents, BufferPool.Valid, BufferPool.NoGaps;
    pool := new BufferPool(capacity, store, zero);
    replies := [];
    NoOps(store, ops, capacity);
    for n := 0 to |ops|
      invariant fresh(pool) && fresh(pool.frames) && fresh(pool.table) && fresh(pool.table.slots)
      invariant pool.Valid() && pool.NoGaps() && pool.InOrder() && pool.frames.Length == capacity
      invariant pool.stack == Recent(Asked(ops[..n])) && pool.counter == n
      invariant pool.Contents() == PlainPages(store, ops, n)
      invariant pool.hits == Hits(Asked(ops[..n]), Counted(ops[..n]), capacity) <= n
      invariant |replies| == n
      invariant forall i :: 0 <= i < n ==> replies[i] == PlainPages(store, ops, i + 1)[ops[i].pid]
    {
      PrefixTrace(ops, n);
      HitsStep(ops, n, capacity);
      PlainStep(store, ops, n);
      CachedIffResident(pool, ops[n].pid);
      var reply := pool.Perform(ops[n]);
      replies := replies + [reply];
    }
    assert ops[..|ops|] == ops;
    forall p
      ensures p in pool.table.entries <==> p in Resident(Recent(Asked(ops)), capacity)
    {
      CachedIffResident(pool, p);
    }
    forall i, j | 0 <= j <= i < |ops| && ops[j].Writing? && ops[j].pid == ops[i].pid
      && (forall h :: j < h <= i && ops[h].Writing? ==> ops[h].pid != ops[i].pid)
      ensures replies[i] == ops[j].page
    {
      LastWrite(store, ops, i + 1, ops[i].pid, j);
    }
    forall i | 0 <= i < |ops| && (forall h :: 0 <= h <= i && ops[h].Writing? ==> ops[h].pid != ops[i].pid)
      ensures replies[i] == store[ops[i].pid]
    {
      LastWrite(store, ops, i + 1, ops[i].pid, -1);
    }
  }

  lemma PlainStep<T>(s: seq<T>, ops: seq<Access<T>>, n: nat)
    requires n < |ops| && forall i :: 0 <= i < |ops| ==> ops[i].pid < |s|
    ensures PlainPages(s, ops, n + 1) ==
      if ops[n].Writing? then PlainPages(s, ops, n)[ops[n].pid := ops[n].page] else PlainPages(s, ops, n)
  {
  }

  lemma NoOps<T>(s: seq<T>, ops: seq<Access<T>>, c: nat)
    requires forall i :: 0 <= i < |ops| ==> ops[i].pid < |s|
    ensures PlainPages(s, ops, 0) == s
    ensures Recent(Asked(ops[..0])) == [] && Hits(Asked(ops[..0]), Counted(ops[..0]), c) == 0
  {
  }

  /** The same run through two pools: the larger one never has fewer hits, and holds every
      page the smaller one holds. */
  method Compare<T>(ops: seq<Access<T>>, c: nat, d: nat, store: seq<T>, zero: T)
    returns (small: BufferPool<T>, large: BufferPool<T>)
    requires 0 < c <= d <= 0x4000_0000 && |ops| < WORD
    requires forall i :: 0 <= i < |ops| ==> ops[i].pid < |store|
    ensures fresh(small) && fresh(large) && small.Valid() && large.Valid() && small.Contents() == large.Contents()
    ensures small.hits == Hits(Asked(ops), Counted(ops), c) && large.hits == Hits(Asked(ops), Counted(ops), d)
    ensures small.hits <= large.hits
    ensures forall p :: p in small.table.entries ==> p in large.table.entries
  {
    hide Hits, Recent, Resident, Asked, Counted, PlainPages, BufferPool.Contents, BufferPool.Valid;
    var replies;
    small, replies := Serve(ops, c, store, zero);
    large, replies := Serve(ops, d, store, zero);
    HitsMonotone(Asked(ops), Counted(ops), c, d);
    forall p | p in small.table.entries
      ensures p in large.table.entries
    {
      Inclusion(Recent(Asked(ops)), c, d, p);
    }
  }
}
