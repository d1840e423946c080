/** States of the buffer pool and its steps, on values: frames, the page table, the store
    below and the least-recently-used order (src/buffer_pool.c, src/storage.c). */
module PoolSteps {
  import opened Pages
  import opened Recency
  import opened Storage

  datatype Frame<T> = Frame(page: T, pid: PageId, used: bool, dirty: bool, stamp: nat)

  /** Table and frames name each other. */
  ghost predicate Indexed<T>(fs: seq<Frame<T>>, m: map<PageId, nat>) {
    && (forall i {:trigger fs[i]} :: 0 <= i < |fs| && fs[i].used ==> fs[i].pid in m && m[fs[i].pid] == i)
    && (forall p {:trigger m[p]} :: p in m ==> m[p] < |fs| && fs[m[p]].used && fs[m[p]].pid == p)
  }

  /** The unmodified cached pages are as stored. */
  ghost predicate Cached<T>(fs: seq<Frame<T>>, m: map<PageId, nat>, store: seq<T>) {
    && Indexed(fs, m)
    && (forall i {:trigger fs[i]} :: 0 <= i < |fs| && fs[i].used && !fs[i].dirty ==>
          fs[i].pid < |store| && fs[i].page == store[fs[i].pid])
  }

  /** How far store and cached pages reach, looking at the first `n` frames. */
  ghost function Extent<T>(fs: seq<Frame<T>>, n: nat, size: nat): nat
    requires n <= |fs|
  {
    if n == 0 then size
    else
      var e := Extent(fs, n - 1, size);
      if fs[n - 1].used && fs[n - 1].pid >= e then fs[n - 1].pid + 1 else e
  }

  /** The pages as the layer above has written them: the cached copy, else the stored page.
      A page beyond the end of the store that was skipped over is a zero page, which is what
      the store makes of it once a page after it is written back. */
  ghost function View<T>(fs: seq<Frame<T>>, m: map<PageId, nat>, store: seq<T>, zero: T): (r: seq<T>)
    requires Indexed(fs, m)
    ensures |r| == Extent(fs, |fs|, |store|)
  {
    seq(Extent(fs, |fs|, |store|), p requires 0 <= p =>
      if p in m then fs[m[p]].page else if p < |store| then store[p] else zero)
  }

  /** The least size that covers store and cached pages. */
  ghost predicate IsExtent<T>(fs: seq<Frame<T>>, n: nat, size: nat, e: nat)
    requires n <= |fs|
  {
    && size <= e
    && (forall i {:trigger fs[i]} :: 0 <= i < n && fs[i].used ==> fs[i].pid < e)
    && (e == size || exists i {:trigger fs[i]} :: 0 <= i < n && fs[i].used && fs[i].pid + 1 == e)
  }

  lemma {:induction false} ExtentIs<T>(fs: seq<Frame<T>>, n: nat, size: nat)
    requires n <= |fs|
    ensures IsExtent(fs, n, size, Extent(fs, n, size))
  {
    if n > 0 {
      ExtentIs(fs, n - 1, size);
    }
  }

  lemma ExtentUnique<T>(fs: seq<Frame<T>>, size: nat, e: nat)
    requires IsExtent(fs, |fs|, size, e)
    ensures Extent(fs, |fs|, size) == e
  {
    ExtentIs(fs, |fs|, size);
  }

  // ---------------------------------------------------------------- eviction

  /** What evict_one does: nothing when a frame is free; otherwise the frame with the least
      stamp is written back if dirty, and given up. */
  ghost predicate Evicts<T>(fs: seq<Frame<T>>, m: map<PageId, nat>, s: seq<T>, v: nat,
                            fs': seq<Frame<T>>, m': map<PageId, nat>, s': seq<T>, zero: T)
  {
    && v < |fs|
    && if exists i :: 0 <= i < |fs| && !fs[i].used then !fs[v].used && fs' == fs && m' == m && s' == s
       else
         && (forall i :: 0 <= i < |fs| ==> fs[v].stamp <= fs[i].stamp)
         && fs' == fs[v := fs[v].(used := false, dirty := false, stamp := 0)]
         && m' == m - {fs[v].pid}
         && s' == if fs[v].dirty then StoreWrite(s, fs[v].pid, fs[v].page, zero) else s
  }

  /** Eviction is invisible: the view is the same page for page. */
  lemma EvictsKeeps<T>(fs: seq<Frame<T>>, m: map<PageId, nat>, s: seq<T>, v: nat,
                       fs': seq<Frame<T>>, m': map<PageId, nat>, s': seq<T>, zero: T)
    requires Cached(fs, m, s) && Evicts(fs, m, s, v, fs', m', s', zero)
    ensures Cached(fs', m', s') && View(fs', m', s', zero) == View(fs, m, s, zero) && !fs'[v].used
  {
    if !(exists i :: 0 <= i < |fs| && !fs[i].used) {
      assert fs[v].used;
      var p := fs[v].pid;
      assert p in m && m[p] == v;
      StillIndexed(fs, m, v, fs', m');
      forall i {:trigger fs'[i]} | 0 <= i < |fs'| && fs'[i].used && !fs'[i].dirty
        ensures fs'[i].pid < |s'| && fs'[i].page == s'[fs'[i].pid]
      {
        assert fs'[i] == fs[i] && m[fs[i].pid] == i;
      }
      EvictExtent(fs, s, v, fs', s', zero);
      forall q | 0 <= q < Extent(fs, |fs|, |s|)
        ensures View(fs', m', s', zero)[q] == View(fs, m, s, zero)[q]
      {
        assert q in m ==> m[q] < |fs| && fs[m[q]].pid == q;
      }
    }
  }

  lemma StillIndexed<T>(fs: seq<Frame<T>>, m: map<PageId, nat>, v: nat, fs': seq<Frame<T>>, m': map<PageId, nat>)
    requires Indexed(fs, m) && v < |fs| && fs[v].used
    requires fs' == fs[v := fs[v].(used := false, dirty := false, stamp := 0)] && m' == m - {fs[v].pid}
    ensures Indexed(fs', m')
  {
    forall i {:trigger fs'[i]} | 0 <= i < |fs'| && fs'[i].used
      ensures fs'[i].pid in m' && m'[fs'[i].pid] == i
    {
      assert fs'[i] == fs[i];
    }
    forall p {:trigger m'[p]} | p in m'
      ensures m'[p] < |fs'| && fs'[m'[p]].used && fs'[m'[p]].pid == p
    {
      assert m'[p] == m[p];
    }
  }

  lemma EvictExtent<T>(fs: seq<Frame<T>>, s: seq<T>, v: nat, fs': seq<Frame<T>>, s': seq<T>, zero: T)
    requires v < |fs| && fs[v].used && (!fs[v].dirty ==> fs[v].pid < |s|)
    requires fs' == fs[v := fs[v].(used := false, dirty := false, stamp := 0)]
    requires s' == if fs[v].dirty then StoreWrite(s, fs[v].pid, fs[v].page, zero) else s
    ensures Extent(fs', |fs'|, |s'|) == Extent(fs, |fs|, |s|)
  {
    hide Extent, StoreWrite;
    GivenUpExtent(fs, |s|, v, fs', |s'|);
  }

  lemma GivenUpExtent<T>(fs: seq<Frame<T>>, size: nat, v: nat, fs': seq<Frame<T>>, size': nat)
    requires v < |fs| && fs[v].used && (!fs[v].dirty ==> fs[v].pid < size)
    requires fs' == fs[v := fs[v].(used := false, dirty := false, stamp := 0)]
    requires size' == if fs[v].dirty && fs[v].pid >= size then fs[v].pid + 1 else size
    ensures Extent(fs', |fs'|, size') == Extent(fs, |fs|, size)
  {
    hide Extent;
    var e := Extent(fs, |fs|, size);
    ExtentIs(fs, |fs|, size);
    forall i {:trigger fs'[i]} | 0 <= i < |fs'| && fs'[i].used
      ensures fs'[i].pid < e
    {
      assert fs'[i] == fs[i];
    }
    if e != size' {
      var i :| 0 <= i < |fs| && fs[i].used && fs[i].pid + 1 == e;
      assert i != v && fs'[i] == fs[i];
    }
    ExtentUnique(fs', size', e);
  }

  /** A page put into a free frame: the view changes as a write of that page would change it. */
  lemma PlacedInFrame<T>(fs: seq<Frame<T>>, m: map<PageId, nat>, s: seq<T>, v: nat, f: Frame<T>, zero: T)
    requires Cached(fs, m, s) && v < |fs| && !fs[v].used && f.used && f.pid !in m
    requires !f.dirty ==> f.pid < |s| && f.page == s[f.pid]
    ensures Cached(fs[v := f], m[f.pid := v], s)
    ensures View(fs[v := f], m[f.pid := v], s, zero) == StoreWrite(View(fs, m, s, zero), f.pid, f.page, zero)
  {
    hide Extent;
    var fs', m' := fs[v := f], m[f.pid := v];
    PlacedIndexed(fs, m, v, f);
    PlaceExtent(fs, s, v, f);
    var l, r := View(fs', m', s, zero), StoreWrite(View(fs, m, s, zero), f.pid, f.page, zero);
    ExtentIs(fs, |fs|, |s|);
    forall p | 0 <= p < |l|
      ensures l[p] == r[p]
    {
      assert p in m ==> m[p] < |fs| && fs[m[p]].used && fs[m[p]].pid == p;
    }
  }

  lemma PlacedIndexed<T>(fs: seq<Frame<T>>, m: map<PageId, nat>, v: nat, f: Frame<T>)
    requires Indexed(fs, m) && v < |fs| && !fs[v].used && f.used && f.pid !in m
    ensures Indexed(fs[v := f], m[f.pid := v])
  {
    var fs', m' := fs[v := f], m[f.pid := v];
    forall p {:trigger m'[p]} | p in m'
      ensures m'[p] < |fs'| && fs'[m'[p]].used && fs'[m'[p]].pid == p
    {
      assert p != f.pid ==> m'[p] == m[p];
    }
  }

  lemma PlaceExtent<T>(fs: seq<Frame<T>>, s: seq<T>, v: nat, f: Frame<T>)
    requires v < |fs| && !fs[v].used && f.used
    ensures var e := Extent(fs, |fs|, |s|);
      Extent(fs[v := f], |fs|, |s|) == if f.pid < e then e else f.pid + 1
  {
    hide Extent;
    var e, fs' := Extent(fs, |fs|, |s|), fs[v := f];
    var e' := if f.pid < e then e else f.pid + 1;
    ExtentIs(fs, |fs|, |s|);
    forall i {:trigger fs'[i]} | 0 <= i < |fs'| && fs'[i].used
      ensures fs'[i].pid < e'
    {
      assert i != v ==> fs'[i] == fs[i];
    }
    assert fs'[v] == f;
    if e' == e && e != |s| {
      var i :| 0 <= i < |fs| && fs[i].used && fs[i].pid + 1 == e;
      assert fs'[i] == fs[i];
    }
    ExtentUnique(fs', |s|, e');
  }

  /** Frames that hold the same pages reach equally far. */
  lemma SameExtent<T>(fs: seq<Frame<T>>, fs': seq<Frame<T>>, size: nat, n: nat)
    requires |fs| == |fs'| && n <= |fs|
    requires forall i :: 0 <= i < |fs| ==> fs[i].used == fs'[i].used && fs[i].pid == fs'[i].pid
    ensures Extent(fs', n, size) == Extent(fs, n, size)
  {
  }

  /** A cached page changed in place: the view changes at that page only. */
  lemma Updated<T>(fs: seq<Frame<T>>, m: map<PageId, nat>, s: seq<T>, v: nat, f: Frame<T>, zero: T)
    requires Cached(fs, m, s) && v < |fs| && fs[v].used && f.used && f.pid == fs[v].pid
    requires !f.dirty ==> f.pid < |s| && f.page == s[f.pid]
    ensures Cached(fs[v := f], m, s)
    ensures f.pid < |View(fs, m, s, zero)| && View(fs[v := f], m, s, zero) == View(fs, m, s, zero)[f.pid := f.page]
  {
    var fs' := fs[v := f];
    assert f.pid in m && m[f.pid] == v;
    forall p {:trigger m[p]} | p in m
      ensures m[p] < |fs'| && fs'[m[p]].used && fs'[m[p]].pid == p
    {
    }
    SameExtent(fs, fs', |s|, |fs|);
    ExtentIs(fs, |fs|, |s|);
    forall p | 0 <= p < Extent(fs, |fs|, |s|)
      ensures View(fs', m, s, zero)[p] == View(fs, m, s, zero)[f.pid := f.page][p]
    {
      assert p in m ==> m[p] < |fs| && fs[m[p]].pid == p;
    }
  }

  /** Writing a cached page back to the store and marking it clean changes no page. */
  lemma Cleaned<T>(fs: seq<Frame<T>>, m: map<PageId, nat>, s: seq<T>, v: nat, zero: T)
    requires Cached(fs, m, s) && v < |fs| && fs[v].used
    ensures var s', fs' := StoreWrite(s, fs[v].pid, fs[v].page, zero), fs[v := fs[v].(dirty := false)];
      Cached(fs', m, s') && View(fs', m, s', zero) == View(fs, m, s, zero)
  {
    var p := fs[v].pid;
    var s' := StoreWrite(s, p, fs[v].page, zero);
    var fs' := fs[v := fs[v].(dirty := false)];
    assert p in m && m[p] == v;
    forall i {:trigger fs'[i]} | 0 <= i < |fs'| && fs'[i].used
      ensures fs'[i].pid in m && m[fs'[i].pid] == i
      ensures !fs'[i].dirty ==> fs'[i].pid < |s'| && fs'[i].page == s'[fs'[i].pid]
    {
      assert fs[i].pid in m && m[fs[i].pid] == i;
    }
    forall q {:trigger m[q]} | q in m
      ensures m[q] < |fs'| && fs'[m[q]].used && fs'[m[q]].pid == q
    {
    }
    CleanExtent(fs, s, v, zero);
    forall q | 0 <= q < Extent(fs, |fs|, |s|)
      ensures View(fs', m, s', zero)[q] == View(fs, m, s, zero)[q]
    {
      assert q in m ==> m[q] < |fs| && fs[m[q]].pid == q;
    }
  }

  lemma CleanExtent<T>(fs: seq<Frame<T>>, s: seq<T>, v: nat, zero: T)
    requires v < |fs| && fs[v].used
    ensures Extent(fs[v := fs[v].(dirty := false)], |fs|, |StoreWrite(s, fs[v].pid, fs[v].page, zero)|) ==
      Extent(fs, |fs|, |s|)
  {
    hide Extent, StoreWrite;
    var e, fs' := Extent(fs, |fs|, |s|), fs[v := fs[v].(dirty := false)];
    var s' := StoreWrite(s, fs[v].pid, fs[v].page, zero);
    ExtentIs(fs, |fs|, |s|);
    assert fs[v].pid < e;
    forall i {:trigger fs'[i]} | 0 <= i < |fs'| && fs'[i].used
      ensures fs'[i].pid < e
    {
      assert fs'[i].pid == fs[i].pid && fs[i].used;
    }
    if e != |s'| {
      var i :| 0 <= i < |fs| && fs[i].used && fs[i].pid + 1 == e;
      assert fs'[i].used && fs'[i].pid == fs[i].pid;
    }
    ExtentUnique(fs', |s'|, e);
  }

  /** With no modified page in the cache, the store is the view. */
  lemma AllClean<T>(fs: seq<Frame<T>>, m: map<PageId, nat>, s: seq<T>, zero: T)
    requires Cached(fs, m, s) && forall i :: 0 <= i < |fs| && fs[i].used ==> !fs[i].dirty
    ensures View(fs, m, s, zero) == s
  {
    ExtentUnique(fs, |s|, |s|);
    forall p | 0 <= p < |s|
      ensures View(fs, m, s, zero)[p] == s[p]
    {
      assert p in m ==> m[p] < |fs| && fs[m[p]].used && fs[m[p]].pid == p;
    }
  }

  /** A page appended to the store: the view gets it, unless a page of that number is cached. */
  lemma ExtentGrown<T>(fs: seq<Frame<T>>, m: map<PageId, nat>, s: seq<T>, page: T, zero: T)
    requires Cached(fs, m, s)
    ensures Cached(fs, m, s + [page])
    ensures View(fs, m, s + [page], zero) ==
      if |s| in m then View(fs, m, s, zero) else StoreWrite(View(fs, m, s, zero), |s|, page, zero)
  {
    var l := View(fs, m, s + [page], zero);
    var r := if |s| in m then View(fs, m, s, zero) else StoreWrite(View(fs, m, s, zero), |s|, page, zero);
    GrowExtent(fs, |s|);
    ExtentIs(fs, |fs|, |s|);
    if |s| in m {
      assert fs[m[|s|]].pid == |s|;
    }
    forall p | 0 <= p < |l|
      ensures l[p] == r[p]
    {
    }
  }

  lemma GrowExtent<T>(fs: seq<Frame<T>>, size: nat)
    ensures var e := Extent(fs, |fs|, size);
      Extent(fs, |fs|, size + 1) == if e > size then e else size + 1
  {
    hide Extent;
    var e := Extent(fs, |fs|, size);
    ExtentIs(fs, |fs|, size);
    ExtentUnique(fs, size + 1, if e > size then e else size + 1);
  }

  /** Every cached page exists in the store, as when only existing pages are written. */
  ghost predicate Dense<T>(m: map<PageId, nat>, s: seq<T>) {
    forall p {:trigger m[p]} :: p in m ==> p < |s|
  }

  lemma DenseExtent<T>(fs: seq<Frame<T>>, m: map<PageId, nat>, s: seq<T>)
    requires Indexed(fs, m)
    ensures Dense(m, s) <==> Extent(fs, |fs|, |s|) == |s|
  {
    ExtentIs(fs, |fs|, |s|);
    if Dense(m, s) {
      forall i {:trigger fs[i]} | 0 <= i < |fs| && fs[i].used
        ensures fs[i].pid < |s|
      {
        assert m[fs[i].pid] == i;
      }
      ExtentUnique(fs, |s|, |s|);
    } else {
      var p :| p in m && p >= |s|;
      assert fs[m[p]].pid == p;
    }
  }

  // ---------------------------------------------------------------- counting frames

  ghost function UsedPids<T>(fs: seq<Frame<T>>, n: nat): set<PageId>
    requires n <= |fs|
  {
    if n == 0 then {} else if fs[n - 1].used then UsedPids(fs, n - 1) + {fs[n - 1].pid} else UsedPids(fs, n - 1)
  }

  lemma {:induction false} UsedAre<T>(fs: seq<Frame<T>>, m: map<PageId, nat>, n: nat, p: PageId)
    requires n <= |fs| && Indexed(fs, m)
    ensures p in UsedPids(fs, n) <==> p in m && m[p] < n
  {
    if n > 0 {
      UsedAre(fs, m, n - 1, p);
      assert fs[n - 1].used ==> m[fs[n - 1].pid] == n - 1;
      assert p in m ==> fs[m[p]].pid == p && fs[m[p]].used;
    }
  }

  lemma {:induction false} UsedCount<T>(fs: seq<Frame<T>>, m: map<PageId, nat>, n: nat)
    requires n <= |fs| && Indexed(fs, m)
    ensures |UsedPids(fs, n)| <= n
    ensures |UsedPids(fs, n)| == n <==> forall i :: 0 <= i < n ==> fs[i].used
  {
    if n > 0 {
      UsedCount(fs, m, n - 1);
      UsedAre(fs, m, n - 1, fs[n - 1].pid);
      assert fs[n - 1].used ==> m[fs[n - 1].pid] == n - 1;
    }
  }

  /** There are no more cached pages than frames, and as many exactly when no frame is free. */
  lemma CountFrames<T>(fs: seq<Frame<T>>, m: map<PageId, nat>)
    requires Indexed(fs, m)
    ensures |m| <= |fs|
    ensures |m| == |fs| <==> forall i :: 0 <= i < |fs| ==> fs[i].used
  {
    UsedCount(fs, m, |fs|);
    forall p
      ensures p in UsedPids(fs, |fs|) <==> p in m.Keys
    {
      UsedAre(fs, m, |fs|, p);
    }
    assert UsedPids(fs, |fs|) == m.Keys;
    assert |m.Keys| == |m|;
  }

  // ---------------------------------------------------------------- LRU order

  /** The cached pages are exactly `r`, the one with the latest stamp first. */
  ghost predicate Ordered<T>(fs: seq<Frame<T>>, m: map<PageId, nat>, r: seq<PageId>, counter: nat) {
    && NoRepeats(r)
    && (forall p :: p in m <==> p in r)
    && (forall i {:trigger r[i]} :: 0 <= i < |r| ==> m[r[i]] < |fs| && fs[m[r[i]]].stamp <= counter)
    && (forall i, j :: 0 <= i < j < |r| ==> fs[m[r[i]]].stamp > fs[m[r[j]]].stamp)
  }

  lemma OrderedSize<T>(fs: seq<Frame<T>>, m: map<PageId, nat>, r: seq<PageId>, counter: nat)
    requires Ordered(fs, m, r, counter)
    ensures |m| == |r|
  {
    FirstSize(r, |r|);
    forall p
      ensures p in First(r, |r|) <==> p in m.Keys
    {
      FirstAre(r, |r|, p);
    }
    assert First(r, |r|) == m.Keys;
    assert |m.Keys| == |m|;
  }

  /** A page leaves the cache. */
  lemma OrderedDrop<T>(fs: seq<Frame<T>>, m: map<PageId, nat>, r: seq<PageId>, counter: nat, a: nat, f: Frame<T>)
    requires Indexed(fs, m) && Ordered(fs, m, r, counter) && a < |r|
    ensures r[a] in m && m[r[a]] < |fs| && Ordered(fs[m[r[a]] := f], m - {r[a]}, RemoveAt(r, a), counter)
  {
    hide RemoveAt;
    var q := r[a];
    assert q in m;
    var fs', m', r' := fs[m[q] := f], m - {q}, RemoveAt(r, a);
    DropAt(r, a);
    forall i {:trigger r'[i]} | 0 <= i < |r'|
      ensures r'[i] in m' && m'[r'[i]] < |fs'| && fs'[m'[r'[i]]] == fs[m[r[Shifted(a, i)]]]
    {
      OtherFrame(fs, m, r, a, Shifted(a, i));
    }
  }

  lemma OtherFrame<T>(fs: seq<Frame<T>>, m: map<PageId, nat>, r: seq<PageId>, a: nat, i: nat)
    requires Indexed(fs, m) && NoRepeats(r) && a < |r| && i < |r| && i != a && r[a] in m && r[i] in m
    ensures r[i] != r[a] && m[r[i]] != m[r[a]]
  {
    assert fs[m[r[i]]].pid == r[i] && fs[m[r[a]]].pid == r[a];
  }

  lemma DropAt(r: seq<PageId>, a: nat)
    requires NoRepeats(r) && a < |r|
    ensures NoRepeats(RemoveAt(r, a))
    ensures forall i {:trigger RemoveAt(r, a)[i]} :: 0 <= i < |r| - 1 ==> RemoveAt(r, a)[i] == r[Shifted(a, i)]
    ensures forall p :: p in RemoveAt(r, a) <==> p in r && p != r[a]
  {
    forall p
      ensures p in RemoveAt(r, a) <==> p in r && p != r[a]
    {
      if p in r && p != r[a] {
        var i :| 0 <= i < |r| && r[i] == p;
        assert RemoveAt(r, a)[if i < a then i else i - 1] == p;
      }
    }
  }

  function Shifted(a: nat, i: nat): (r: nat)
    ensures r != a && (r < a <==> i < a)
  {
    if i < a then i else i + 1
  }

  /** A page enters the cache, in a frame of its own, with a new stamp. */
  lemma OrderedPush<T>(fs: seq<Frame<T>>, m: map<PageId, nat>, r: seq<PageId>, counter: nat, p: PageId, v: nat,
                       f: Frame<T>)
    requires Ordered(fs, m, r, counter) && p !in m && v < |fs| && f.stamp == counter + 1
    requires forall q :: q in m ==> m[q] != v
    ensures Ordered(fs[v := f], m[p := v], [p] + r, counter + 1)
  {
    var fs', m', r' := fs[v := f], m[p := v], [p] + r;
    forall i {:trigger r'[i]} | 0 < i < |r'|
      ensures r'[i] == r[i - 1] && r'[i] != p && m'[r'[i]] == m[r[i - 1]] && fs'[m'[r'[i]]] == fs[m[r[i - 1]]]
    {
      assert r[i - 1] in m;
    }
    forall q
      ensures q in m' <==> q in r'
    {
      if q in r && q != p {
        assert q in m;
      }
    }
  }

  /** The cache holds the most recently used pages, as many as it has frames, and the stamps
      tell their order. */
  ghost predicate Lru<T>(fs: seq<Frame<T>>, m: map<PageId, nat>, stack: seq<PageId>, counter: nat) {
    NoRepeats(stack) && Ordered(fs, m, Resident(stack, |fs|), counter)
  }

  lemma LruHit<T>(fs: seq<Frame<T>>, m: map<PageId, nat>, stack: seq<PageId>, counter: nat, p: PageId, f: Frame<T>)
    requires Indexed(fs, m) && Lru(fs, m, stack, counter) && p in m && f.stamp == counter + 1
    ensures m[p] < |fs| && Lru(fs[m[p] := f], m, Touch(stack, p), counter + 1)
  {
    hide Touch, Position, Resident, Ordered, RemoveAt;
    var r := Resident(stack, |fs|);
    OrderedMembers(fs, m, r, counter, p);
    ResidentHit(stack, |fs|, p);
    TouchDistinct(stack, p);
    var a := Position(stack, p);
    OrderedDrop(fs, m, r, counter, a, f);
    var fs1, m1 := fs[m[p] := f], m - {p};
    forall q {:trigger m1[q]} | q in m1
      ensures m1[q] != m[p]
    {
      assert m[q] < |fs| && fs[m[q]].pid == q;
    }
    OrderedPush(fs1, m1, RemoveAt(r, a), counter, p, m[p], f);
    assert fs1[m[p] := f] == fs1;
    assert m1[p := m[p]] == m;
  }

  lemma OrderedMembers<T>(fs: seq<Frame<T>>, m: map<PageId, nat>, r: seq<PageId>, counter: nat, p: PageId)
    requires Ordered(fs, m, r, counter)
    ensures p in m <==> p in r
  {
  }

  /** In a full cache the frame with the least stamp holds the page unused for longest. */
  lemma VictimIsLast<T>(fs: seq<Frame<T>>, m: map<PageId, nat>, r: seq<PageId>, counter: nat, v: nat)
    requires Indexed(fs, m) && Ordered(fs, m, r, counter) && v < |fs| && fs[v].used
    requires forall i :: 0 <= i < |fs| ==> fs[v].stamp <= fs[i].stamp
    ensures |r| > 0 && r[|r| - 1] == fs[v].pid
  {
    var p := fs[v].pid;
    assert p in m && m[p] == v;
    var i :| 0 <= i < |r| && r[i] == p;
    assert fs[m[r[|r| - 1]]].stamp >= fs[v].stamp;
  }

  lemma LruMiss<T>(fs: seq<Frame<T>>, m: map<PageId, nat>, s: seq<T>, stack: seq<PageId>, counter: nat, v: nat,
                   fs1: seq<Frame<T>>, m1: map<PageId, nat>, s1: seq<T>, zero: T, p: PageId, f: Frame<T>)
    requires Indexed(fs, m) && Lru(fs, m, stack, counter) && Evicts(fs, m, s, v, fs1, m1, s1, zero)
    requires p !in m && f.stamp == counter + 1
    ensures Lru(fs1[v := f], m1[p := v], Touch(stack, p), counter + 1)
  {
    hide Touch, Position, Ordered, RemoveAt;
    var r := Resident(stack, |fs|);
    OrderedMembers(fs, m, r, counter, p);
    OrderedSize(fs, m, r, counter);
    CountFrames(fs, m);
    ResidentMiss(stack, |fs|, p);
    TouchDistinct(stack, p);
    if exists i :: 0 <= i < |fs| && !fs[i].used {
      FreeFrame(fs, m, v);
      OrderedPush(fs1, m1, r, counter, p, v, f);
    } else {
      VictimReplaced(fs, m, r, counter, v, fs1, m1, p, f);
    }
  }

  /** The victim is the last of the most recently used pages, and the new page comes first. */
  lemma VictimReplaced<T>(fs: seq<Frame<T>>, m: map<PageId, nat>, r: seq<PageId>, counter: nat, v: nat,
                          fs1: seq<Frame<T>>, m1: map<PageId, nat>, p: PageId, f: Frame<T>)
    requires Indexed(fs, m) && Ordered(fs, m, r, counter) && |r| == |fs| && v < |fs|
    requires forall i :: 0 <= i < |fs| ==> fs[i].used && fs[v].stamp <= fs[i].stamp
    requires fs1 == fs[v := fs[v].(used := false, dirty := false, stamp := 0)] && m1 == m - {fs[v].pid}
    requires p !in m && f.stamp == counter + 1
    ensures Ordered(fs1[v := f], m1[p := v], [p] + RemoveAt(r, |fs| - 1), counter + 1)
  {
    hide Ordered, RemoveAt;
    VictimIsLast(fs, m, r, counter, v);
    var a := |fs| - 1;
    assert r[a] == fs[v].pid;
    assert m[r[a]] == v;
    OrderedDrop(fs, m, r, counter, a, fs1[v]);
    forall q {:trigger m1[q]} | q in m1
      ensures m1[q] != v
    {
      assert m[q] < |fs| && fs[m[q]].pid == q;
    }
    OrderedPush(fs1, m1, RemoveAt(r, a), counter, p, v, f);
  }

  lemma FreeFrame<T>(fs: seq<Frame<T>>, m: map<PageId, nat>, v: nat)
    requires Indexed(fs, m) && v < |fs| && !fs[v].used
    ensures forall q {:trigger m[q]} :: q in m ==> m[q] != v
  {
  }
}
