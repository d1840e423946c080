/** The page-level redo log and its recovery (src/wal.c). */
module WriteAhead {
  import opened Pages
  import opened Lists
  import opened PageBytes
  import opened Storage

  const WAL_HEADER_SIZE := 32
  const WAL_ENTRY_SIZE := 4100

  /** A page image, as logged and as written to the store. */
  datatype PageImage = PageImage(pid: PageId, page: Bytes)

  predicate Proper(e: PageImage) {
    e.pid < 0x1_0000_0000 && |e.page| == PAGE_SIZE
  }

  predicate AllProper(es: seq<PageImage>) {
    forall i :: 0 <= i < |es| ==> Proper(es[i])
  }

  /** "WAL1", version 1 and reserved bytes. */
  function FileHeader(): (r: Bytes)
    ensures |r| == WAL_HEADER_SIZE
  {
    U32Bytes(0x314C4157) + U32Bytes(1) + seq(24, _ => 0)
  }

  /** 32 bytes: "WAL1", the number 1 in four bytes, low byte first, and zeros. */
  predicate Fresh(log: Bytes) {
    && |log| == 32 && log[..4] == [0x57, 0x41, 0x4C, 0x31] && log[4..8] == [1, 0, 0, 0]
    && forall i :: 8 <= i < 32 ==> log[i] == 0
  }

  lemma FreshHeader()
    ensures Fresh(FileHeader())
    ensures FileHeader()[..8] == [0x57, 0x41, 0x4C, 0x31, 1, 0, 0, 0] && FileHeader()[8..] == seq(24, _ => 0)
  {
    assert U32Bytes(0x314C4157) == [0x57, 0x41, 0x4C, 0x31];
    assert U32Bytes(1) == [1, 0, 0, 0];
  }

  function EntryBytes(e: PageImage): (r: Bytes)
    requires Proper(e)
    ensures |r| == WAL_ENTRY_SIZE
  {
    U32Bytes(e.pid) + e.page
  }

  function ZeroPage(): (r: Bytes)
    ensures |r| == PAGE_SIZE
  {
    seq(PAGE_SIZE, _ => 0)
  }

  // ---------------------------------------------------------------- reading a log

  /** How many complete entries a log of this many bytes has. */
  function Complete(size: nat): (r: nat)
    ensures r > 0 ==> WAL_HEADER_SIZE + WAL_ENTRY_SIZE * r <= size
    ensures size < WAL_HEADER_SIZE + WAL_ENTRY_SIZE * (r + 1)
  {
    if size <= WAL_HEADER_SIZE then 0 else (size - WAL_HEADER_SIZE) / WAL_ENTRY_SIZE
  }

  /** The bytes after the last complete entry. */
  function Remainder(size: nat): (r: nat)
    ensures r < WAL_ENTRY_SIZE
  {
    if size <= WAL_HEADER_SIZE then 0 else (size - WAL_HEADER_SIZE) % WAL_ENTRY_SIZE
  }

  function EntryStart(i: nat): nat {
    WAL_HEADER_SIZE + WAL_ENTRY_SIZE * i
  }

  function EntryAt(log: Bytes, i: nat): (r: PageImage)
    requires EntryStart(i) + WAL_ENTRY_SIZE <= |log|
    ensures Proper(r)
  {
    PageImage(U32(log, EntryStart(i)), log[EntryStart(i) + 4..EntryStart(i) + WAL_ENTRY_SIZE])
  }

  /** The complete entries of a log, oldest first. */
  function Entries(log: Bytes): (r: seq<PageImage>)
    ensures |r| == Complete(|log|) && AllProper(r)
  {
    seq(Complete(|log|), i requires 0 <= i < Complete(|log|) => EntryAt(log, i))
  }

  /** Where an entry lies in the file. */
  lemma EntryLayout(log: Bytes, i: nat)
    requires i < |Entries(log)|
    ensures var o := 32 + 4100 * i;
      && o + 4100 <= |log|
      && Entries(log)[i].pid == U32(log, o) && Entries(log)[i].page == log[o + 4..o + 4100]
  {
  }

  lemma EntryAtSame(log: Bytes, other: Bytes, i: nat)
    requires EntryStart(i) + WAL_ENTRY_SIZE <= |log| && EntryStart(i) + WAL_ENTRY_SIZE <= |other|
    requires log[EntryStart(i)..EntryStart(i) + WAL_ENTRY_SIZE] == other[EntryStart(i)..EntryStart(i) + WAL_ENTRY_SIZE]
    ensures EntryAt(log, i) == EntryAt(other, i)
  {
    var o, n := EntryStart(i), EntryStart(i) + WAL_ENTRY_SIZE;
    SliceSlice(log, o, n, 0, 4);
    SliceSlice(other, o, n, 0, 4);
    SliceSlice(log, o, n, 4, WAL_ENTRY_SIZE);
    SliceSlice(other, o, n, 4, WAL_ENTRY_SIZE);
    U32Slice(log, other, o, o);
  }

  /** A log cut at any byte still gives exactly the entries that were complete before the cut. */
  lemma CutEntries(log: Bytes, cut: nat)
    requires cut <= |log|
    ensures Complete(cut) <= Complete(|log|)
    ensures Entries(log[..cut]) == Entries(log)[..Complete(cut)]
  {
    hide U32;
    forall i | 0 <= i < Complete(cut)
      ensures EntryAt(log[..cut], i) == EntryAt(log, i)
    {
      SliceSlice(log, 0, cut, EntryStart(i), EntryStart(i) + WAL_ENTRY_SIZE);
      EntryAtSame(log[..cut], log, i);
    }
  }

  /** The log ends with a complete entry, or with its header. */
  predicate Whole(log: Bytes) {
    |log| >= WAL_HEADER_SIZE && Remainder(|log|) == 0
  }

  /** Fewer bytes than an entry, appended to a whole log, add no entry. */
  lemma PartialEntry(log: Bytes, t: Bytes)
    requires Whole(log) && |t| < WAL_ENTRY_SIZE
    ensures Entries(log + t) == Entries(log)
  {
    CutEntries(log + t, |log|);
    assert (log + t)[..|log|] == log;
  }

  /** An entry appended to a whole log is read back. */
  lemma AppendEntry(log: Bytes, e: PageImage)
    requires Whole(log) && Proper(e)
    ensures Whole(log + EntryBytes(e)) && Entries(log + EntryBytes(e)) == Entries(log) + [e]
  {
    hide U32, U32Bytes;
    var r, n := log + EntryBytes(e), Complete(|log|);
    CutEntries(r, |log|);
    assert r[..|log|] == log;
    assert |log| == EntryStart(n);
    DecodeEntry(r, n, e);
  }

  lemma DecodeEntry(r: Bytes, n: nat, e: PageImage)
    requires Proper(e) && EntryStart(n) + WAL_ENTRY_SIZE <= |r|
    requires r[EntryStart(n)..EntryStart(n) + WAL_ENTRY_SIZE] == EntryBytes(e)
    ensures EntryAt(r, n) == e
  {
    hide U32, U32Bytes;
    var o := EntryStart(n);
    SliceSlice(r, o, o + WAL_ENTRY_SIZE, 0, 4);
    SliceSlice(r, o, o + WAL_ENTRY_SIZE, 4, WAL_ENTRY_SIZE);
    assert EntryBytes(e)[0..4] == U32Bytes(e.pid) == U32Bytes(e.pid)[0..4];
    assert EntryBytes(e)[4..WAL_ENTRY_SIZE] == e.page;
    U32Slice(r, U32Bytes(e.pid), o, 0);
    U32OfBytes(e.pid);
  }

  // ---------------------------------------------------------------- replaying

  /** The store after writing the images in order. */
  function Replay(store: seq<Bytes>, es: seq<PageImage>): seq<Bytes> {
    if es == [] then store
    else
      var n := |es| - 1;
      StoreWrite(Replay(store, es[..n]), es[n].pid, es[n].page, ZeroPage())
  }

  /** The pages that the images make exist. */
  function Reach(es: seq<PageImage>): nat {
    if es == [] then 0
    else
      var n := |es| - 1;
      if es[n].pid >= Reach(es[..n]) then es[n].pid + 1 else Reach(es[..n])
  }

  /** The last image of a page. */
  function LastImage(es: seq<PageImage>, p: PageId): Stored<Bytes> {
    if es == [] then Absent
    else if es[|es| - 1].pid == p then Present(es[|es| - 1].page)
    else LastImage(es[..|es| - 1], p)
  }

  /** The last image of the page, else the stored page, else zeros. */
  function Restored(store: seq<Bytes>, es: seq<PageImage>, p: PageId): Bytes {
    match LastImage(es, p)
    case Present(page) => page
    case Absent => if p < |store| then store[p] else ZeroPage()
  }

  /** Replay page by page: the last image wins; pages without one keep what was stored, and
      pages that did not exist are zero. */
  lemma {:induction false} ReplayAt(store: seq<Bytes>, es: seq<PageImage>, p: PageId)
    ensures |Replay(store, es)| == if Reach(es) > |store| then Reach(es) else |store|
    ensures LastImage(es, p).Present? ==> p < Reach(es)
    ensures p < |Replay(store, es)| ==> Replay(store, es)[p] == Restored(store, es, p)
  {
    if es != [] {
      hide ZeroPage;
      ReplayAt(store, es[..|es| - 1], p);
    }
  }

  /** The same, entry by entry. */
  lemma ReplayPlain(store: seq<Bytes>, es: seq<PageImage>)
    ensures var r := Replay(store, es); forall i ::
      0 <= i < |es| && (forall j :: i < j < |es| ==> es[j].pid != es[i].pid) ==>
        es[i].pid < |r| && r[es[i].pid] == es[i].page
    ensures var r := Replay(store, es); forall p ::
      0 <= p < |r| && (forall j :: 0 <= j < |es| ==> es[j].pid != p) ==>
        r[p] == if p < |store| then store[p] else seq(4096, _ => 0)
  {
    hide Replay, LastImage, Reach;
    var r := Replay(store, es);
    forall i | 0 <= i < |es| && (forall j :: i < j < |es| ==> es[j].pid != es[i].pid)
      ensures es[i].pid < |r| && r[es[i].pid] == es[i].page
    {
      LastOf(es, i, es[i].pid);
      ReplayAt(store, es, es[i].pid);
    }
    forall p | 0 <= p < |r| && (forall j :: 0 <= j < |es| ==> es[j].pid != p)
      ensures r[p] == if p < |store| then store[p] else seq(4096, _ => 0)
    {
      NoImage(es, p);
      ReplayAt(store, es, p);
      assert ZeroPage() == seq(4096, _ => 0);
    }
  }

  lemma {:induction false} LastOf(es: seq<PageImage>, i: nat, p: PageId)
    requires i < |es| && es[i].pid == p && forall j :: i < j < |es| ==> es[j].pid != p
    ensures LastImage(es, p) == Present(es[i].page)
  {
    if i < |es| - 1 {
      assert es[..|es| - 1][i] == es[i];
      LastOf(es[..|es| - 1], i, p);
    }
  }

  lemma {:induction false} NoImage(es: seq<PageImage>, p: PageId)
    requires forall j :: 0 <= j < |es| ==> es[j].pid != p
    ensures LastImage(es, p) == Absent
  {
    if es != [] {
      NoImage(es[..|es| - 1], p);
    }
  }

  lemma {:induction false} LastImageConcat(a: seq<PageImage>, b: seq<PageImage>, p: PageId)
    ensures LastImage(a + b, p) == if LastImage(b, p).Present? then LastImage(b, p) else LastImage(a, p)
    ensures Reach(a + b) == if Reach(b) > Reach(a) then Reach(b) else Reach(a)
  {
    if b == [] {
      assert a + b == a;
    } else {
      var n := |b| - 1;
      assert (a + b)[..|a + b| - 1] == a + b[..n];
      LastImageConcat(a, b[..n], p);
    }
  }

  /** Replay is idempotent, and stays so when the earlier attempt stopped anywhere. */
  lemma ReplayAgain(store: seq<Bytes>, es: seq<PageImage>, k: nat)
    requires k <= |es|
    ensures Replay(Replay(store, es[..k]), es) == Replay(store, es)
  {
    hide Replay, LastImage, Reach, ZeroPage;
    var first := Replay(store, es[..k]);
    var l, r := Replay(first, es), Replay(store, es);
    assert es == es[..k] + es[k..];
    forall p: PageId
      ensures |l| == |r| && (p < |l| ==> l[p] == r[p])
    {
      ReplayAt(store, es[..k], p);
      ReplayAt(first, es, p);
      ReplayAt(store, es, p);
      LastImageConcat(es[..k], es[k..], p);
    }
    assert |l| == |r| by { ReplayAt(first, es, 0); ReplayAt(store, es, 0); }
  }

  lemma {:induction false} ReplayConcat(store: seq<Bytes>, a: seq<PageImage>, b: seq<PageImage>)
    ensures Replay(store, a + b) == Replay(Replay(store, a), b)
  {
    if b == [] {
      assert a + b == a;
    } else {
      var n := |b| - 1;
      assert (a + b)[..|a + b| - 1] == a + b[..n];
      ReplayConcat(store, a, b[..n]);
    }
  }

  // ---------------------------------------------------------------- the log file and the store

  class Wal {
    /** The bytes of the log file. */
    var log: Bytes
    /** The pages of the storage layer below. */
    var store: seq<Bytes>

    /** wal_create over an existing file, or over none: only an empty file gets a header. */
    constructor (log: Bytes, store: seq<Bytes>)
      ensures this.log == (if log == [] then FileHeader() else log) && this.store == store
      ensures log == [] ==> Fresh(this.log) && this.log[..8] == [0x57, 0x41, 0x4C, 0x31, 1, 0, 0, 0]
    {
      FreshHeader();
      this.log := if log == [] then FileHeader() else log;
      this.store := store;
    }

    /** wal_write: log first, then the store. */
    method Write(e: PageImage)
      requires Proper(e)
      modifies this
      ensures log == old(log) + EntryBytes(e)
      ensures store == StoreWrite(old(store), e.pid, e.page, ZeroPage())
      ensures Whole(old(log)) ==> Whole(log) && Entries(log) == old(Entries(log)) + [e]
      ensures var n := |old(log)|;
        && |log| == n + 4100 && log[..n] == old(log) && log[n + 4..] == e.page
        && log[n] == e.pid % 0x100 && log[n + 1] == e.pid / 0x100 % 0x100
        && log[n + 2] == e.pid / 0x1_0000 % 0x100 && log[n + 3] == e.pid / 0x100_0000
    {
      ghost var before := log;
      log := log + U32Bytes(e.pid);
      log := log + e.page;
      assert log == before + EntryBytes(e);
      store := StoreWrite(store, e.pid, e.page, ZeroPage());
      if Whole(before) {
        AppendEntry(before, e);
      }
    }

    /** wal_recover: replays exactly the complete entries. A remainder of four bytes or more
        means a torn entry and is reported, with the log left alone; otherwise the log is
        emptied, and a shorter remainder is lost with it. */
    method Recover() returns (err: Error, recovered: nat)
      modifies this
      ensures store == Replay(old(store), old(Entries(log)))
      ensures recovered == Complete(|old(log)|)
      ensures err == if Remainder(|old(log)|) >= 4 then Corrupted else Ok
      ensures log == if err == Ok then FileHeader() else old(log)
      ensures err == Ok ==> |log| == 32 && log[..8] == [0x57, 0x41, 0x4C, 0x31, 1, 0, 0, 0]
      ensures err == Ok ==> log[8..] == seq(24, _ => 0)
      ensures recovered == if |old(log)| < 32 then 0 else (|old(log)| - 32) / 4100
      ensures err == Corrupted <==> |old(log)| >= 32 && (|old(log)| - 32) % 4100 >= 4
      ensures var es := old(Entries(log)); forall i ::
        0 <= i < |es| && (forall j :: i < j < |es| ==> es[j].pid != es[i].pid) ==>
          es[i].pid < |store| && store[es[i].pid] == es[i].page
      ensures var es := old(Entries(log)); forall p ::
        0 <= p < |store| && (forall j :: 0 <= j < |es| ==> es[j].pid != p) ==>
          store[p] == if p < |old(store)| then old(store)[p] else seq(4096, _ => 0)
    {
      hide U32, StoreWrite, Replay, Entries, FileHeader, ZeroPage;
      ghost var es := Entries(log);
      ReplayNone(store, es);
      var pos := WAL_HEADER_SIZE;
      recovered := 0;
      while pos + 4 <= |log|
        invariant pos == EntryStart(recovered) && recovered <= |es|
        invariant log == old(log) && store == Replay(old(store), es[..recovered])
        decreases |log| - pos
      {
        var pid := U32(log, pos);
        if pos + 4 + PAGE_SIZE > |log| {
          TailRemainder(|log|, recovered);
          assert es[..recovered] == es;
          ReplayPlain(old(store), es);
          return Corrupted, recovered;
        }
        var page := log[pos + 4..pos + 4 + PAGE_SIZE];
        OneMore(|log|, recovered);
        ReplayNext(old(store), log, recovered);
        store := StoreWrite(store, pid, page, ZeroPage());
        pos := pos + 4 + PAGE_SIZE;
        recovered := recovered + 1;
      }
      TailRemainder(|log|, recovered);
      assert es[..recovered] == es;
      log := FileHeader();
      err := Ok;
      FreshHeader();
      ReplayPlain(old(store), es);
    }

    /** wal_num_entries: what a recovery now would replay. */
    method NumEntries() returns (n: nat)
      ensures n == |Entries(log)| % 0x1_0000_0000
    {
      if |log| <= WAL_HEADER_SIZE {
        return 0;
      }
      n := (|log| - WAL_HEADER_SIZE) / WAL_ENTRY_SIZE % 0x1_0000_0000;
    }
  }

  lemma ReplayNone(store: seq<Bytes>, es: seq<PageImage>)
    ensures Replay(store, es[..0]) == store
  {
  }

  /** The next complete entry of the log, replayed. */
  lemma ReplayNext(store: seq<Bytes>, log: Bytes, n: nat)
    requires EntryStart(n) + WAL_ENTRY_SIZE <= |log| && n < |Entries(log)|
    ensures var es, o := Entries(log), EntryStart(n);
      Replay(store, es[..n + 1]) ==
        StoreWrite(Replay(store, es[..n]), U32(log, o), log[o + 4..o + 4 + PAGE_SIZE], ZeroPage())
  {
    hide StoreWrite, U32;
    var es := Entries(log);
    assert es[..n + 1][..n] == es[..n] && es[..n + 1][n] == EntryAt(log, n);
  }

  lemma TailRemainder(size: nat, n: nat)
    requires n <= Complete(size) && size < EntryStart(n) + WAL_ENTRY_SIZE
    ensures n == Complete(size)
    ensures size >= EntryStart(n) ==> Remainder(size) == size - EntryStart(n)
    ensures size < EntryStart(n) ==> Remainder(size) == 0
  {
  }

  lemma OneMore(size: nat, n: nat)
    requires EntryStart(n) + WAL_ENTRY_SIZE <= size
    ensures n < Complete(size)
  {
  }

  // ---------------------------------------------------------------- crashes

  /** Where a run of wal_write calls stands: what is durable, how many of the writes reached
      the store, and how many bytes of the next one's entry reached the log. */
  datatype Progress = Progress(log: Bytes, store: seq<Bytes>, done: nat, logged: nat)

  /** One durable change: the next byte of the entry, or, after the last of them, the page. */
  ghost predicate Step(ws: seq<PageImage>, a: Progress, b: Progress)
    requires AllProper(ws)
  {
    && a.done < |ws|
    && if a.logged < WAL_ENTRY_SIZE then
         b == a.(log := a.log + [EntryBytes(ws[a.done])[a.logged]], logged := a.logged + 1)
       else
         b == Progress(a.log, StoreWrite(a.store, ws[a.done].pid, ws[a.done].page, ZeroPage()), a.done + 1, 0)
  }

  ghost predicate IsRun(ws: seq<PageImage>, log: Bytes, store: seq<Bytes>, run: seq<Progress>)
    requires AllProper(ws)
  {
    && |run| > 0 && run[0] == Progress(log, store, 0, 0)
    && (forall i :: 0 < i < |run| ==> StepAt(ws, run, i))
  }

  ghost predicate StepAt(ws: seq<PageImage>, run: seq<Progress>, i: nat)
    requires AllProper(ws) && 0 < i < |run|
  {
    Step(ws, run[i - 1], run[i])
  }

  function Encoded(ws: seq<PageImage>): (r: Bytes)
    requires AllProper(ws)
  {
    if ws == [] then [] else Encoded(ws[..|ws| - 1]) + EntryBytes(ws[|ws| - 1])
  }

  /** The writes whose log entry is complete. */
  function Promised(a: Progress): nat {
    if a.logged == WAL_ENTRY_SIZE then a.done + 1 else a.done
  }

  /** What every state of a run satisfies. */
  ghost predicate Reached(ws: seq<PageImage>, log: Bytes, store: seq<Bytes>, a: Progress)
    requires AllProper(ws)
  {
    && a.done <= |ws| && a.logged <= WAL_ENTRY_SIZE && (a.done == |ws| ==> a.logged == 0)
    && a.store == Replay(store, ws[..a.done])
    && a.log == log + Encoded(ws[..a.done]) + (if a.done < |ws| then EntryBytes(ws[a.done])[..a.logged] else [])
  }

  lemma StepReached(ws: seq<PageImage>, log: Bytes, store: seq<Bytes>, a: Progress, b: Progress)
    requires AllProper(ws) && Reached(ws, log, store, a) && Step(ws, a, b)
    ensures Reached(ws, log, store, b)
  {
    hide StoreWrite, EntryBytes, ZeroPage;
    var e := EntryBytes(ws[a.done]);
    if a.logged < WAL_ENTRY_SIZE {
      assert e[..a.logged + 1] == e[..a.logged] + [e[a.logged]];
    } else {
      assert e[..a.logged] == e;
      assert ws[..a.done + 1][..a.done] == ws[..a.done];
    }
  }

  lemma {:induction false} RunReached(ws: seq<PageImage>, log: Bytes, store: seq<Bytes>, run: seq<Progress>, k: nat)
    requires AllProper(ws) && IsRun(ws, log, store, run) && k < |run|
    ensures Reached(ws, log, store, run[k])
  {
    hide Reached, Step;
    if k == 0 {
      StartReached(ws, log, store);
    } else {
      RunReached(ws, log, store, run, k - 1);
      assert StepAt(ws, run, k);
      StepReached(ws, log, store, run[k - 1], run[k]);
    }
  }

  lemma StartReached(ws: seq<PageImage>, log: Bytes, store: seq<Bytes>)
    requires AllProper(ws)
    ensures Reached(ws, log, store, Progress(log, store, 0, 0))
  {
  }

  lemma {:induction false} EncodedEntries(log: Bytes, ws: seq<PageImage>)
    requires Whole(log) && AllProper(ws)
    ensures Whole(log + Encoded(ws)) && Entries(log + Encoded(ws)) == Entries(log) + ws
  {
    hide Entries, EntryBytes, Whole;
    if ws == [] {
      assert log + Encoded(ws) == log;
    } else {
      var n := |ws| - 1;
      EncodedEntries(log, ws[..n]);
      AppendEntry(log + Encoded(ws[..n]), ws[n]);
      assert log + Encoded(ws) == log + Encoded(ws[..n]) + EntryBytes(ws[n]);
    }
  }

  /** The entries a recovery finds at any moment of a run. */
  lemma ReachedEntries(ws: seq<PageImage>, log: Bytes, store: seq<Bytes>, a: Progress)
    requires AllProper(ws) && Whole(log) && Reached(ws, log, store, a)
    ensures Promised(a) <= |ws| && Entries(a.log) == Entries(log) + ws[..Promised(a)]
  {
    hide Entries, Replay, Encoded, Whole, EntryBytes;
    var d := a.done;
    EncodedEntries(log, ws[..d]);
    if d < |ws| {
      var e := EntryBytes(ws[d]);
      if a.logged == WAL_ENTRY_SIZE {
        assert e[..a.logged] == e;
        AppendEntry(log + Encoded(ws[..d]), ws[d]);
        assert ws[..d + 1] == ws[..d] + [ws[d]];
      } else {
        PartialEntry(log + Encoded(ws[..d]), e[..a.logged]);
      }
    } else {
      assert log + Encoded(ws[..d]) + [] == log + Encoded(ws[..d]);
    }
  }

  /** Write-ahead logging over a whole run. The run starts from a whole log that the store
      already reflects. Stop it anywhere, with the store as of that moment or of any earlier
      one: recovery gives the result of every completed write, and of the one in flight
      exactly when its entry was complete. */
  lemma CrashAnywhere(ws: seq<PageImage>, log: Bytes, store: seq<Bytes>, run: seq<Progress>, k: nat, j: nat)
    requires AllProper(ws) && Whole(log) && Replay(store, Entries(log)) == store
    requires IsRun(ws, log, store, run) && j <= k < |run|
    ensures run[k].done <= Promised(run[k]) <= run[k].done + 1 && Promised(run[k]) <= |ws|
    ensures Replay(run[j].store, Entries(run[k].log)) == Replay(store, ws[..Promised(run[k])])
  {
    hide Entries, Replay, Encoded, Whole, EntryBytes, IsRun;
    RunReached(ws, log, store, run, k);
    RunReached(ws, log, store, run, j);
    ReachedEntries(ws, log, store, run[k]);
    DoneGrows(ws, log, store, run, j, k);
    var was, c, d := Entries(log), Promised(run[k]), run[j].done;
    var es := was + ws[..c];
    ReplayConcat(store, was, ws[..d]);
    assert es[..|was| + d] == was + ws[..d];
    ReplayAgain(store, es, |was| + d);
    ReplayConcat(store, was, ws[..c]);
  }

  lemma {:induction false} DoneGrows(ws: seq<PageImage>, log: Bytes, store: seq<Bytes>, run: seq<Progress>, j: nat,
                                     k: nat)
    requires AllProper(ws) && IsRun(ws, log, store, run) && j <= k < |run|
    ensures run[j].done <= run[k].done
  {
    hide EntryBytes, StoreWrite;
    if j < k {
      DoneGrows(ws, log, store, run, j, k - 1);
      assert StepAt(ws, run, k);
    }
  }

  /** A recovery that is itself cut short and started again gives the same store. */
  lemma RecoveryRestarts(store: seq<Bytes>, log: Bytes, k: nat)
    requires k <= Complete(|log|)
    ensures Replay(Replay(store, Entries(log)[..k]), Entries(log)) == Replay(store, Entries(log))
  {
    ReplayAgain(store, Entries(log), k);
  }

  /** Appending to a log is safe exactly when the log is whole: after a torn header that
      wal_create kept, or a torn entry that recovery left in place, the next entry is not read
      back as it was written. */
  lemma AppendSafeIffWhole(log: Bytes)
    ensures Whole(log) <==> forall e: PageImage :: Proper(e) ==> Entries(log + EntryBytes(e)) == Entries(log) + [e]
  {
    if Whole(log) {
      forall e: PageImage | Proper(e)
        ensures Entries(log + EntryBytes(e)) == Entries(log) + [e]
      {
        AppendEntry(log, e);
      }
    } else {
      TornAppend(log);
    }
  }

  lemma TornAppend(log: Bytes)
    requires !Whole(log)
    ensures exists e: PageImage :: Proper(e) && Entries(log + EntryBytes(e)) != Entries(log) + [e]
  {
    hide U32Bytes, U32, ZeroPage;
    if |log| < WAL_HEADER_SIZE {
      var e := PageImage(0, ZeroPage());
      assert |Entries(log + EntryBytes(e))| == 0;
      return;
    }
    var n := Complete(|log|);
    var o := EntryStart(n);
    var first: int := log[o];
    var e := PageImage((first + 1) % 256, ZeroPage());
    var r := log + EntryBytes(e);
    assert r[o] == first;
    LowByte(r, o);
    OneMore(|r|, n);
    assert Entries(r)[n] == EntryAt(r, n);
    assert (Entries(log) + [e])[n] == e;
  }

  lemma LowByte(r: Bytes, o: nat)
    requires o + 4 <= |r|
    ensures U32(r, o) % 256 == r[o]
  {
  }
}
