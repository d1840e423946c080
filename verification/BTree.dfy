/** The B+ tree handle and its operations (src/btree.c). */
module BTrees {
  import opened Comparator
  import opened Pages
  import opened Lists
  import opened Levels
  import opened Frames
  import opened Contents
  import opened Search
  import opened Descent
  import opened Fitting
  import opened SplitSteps
  import opened InternalSteps
  import opened RootSteps
  import opened MergeSteps
  import opened Height
  import opened Climb
  import opened LeafPut
  import opened TornSplits
  import opened Drift
  import opened Ascents
  import opened Deletion
  import opened LostChild
  import opened Sight
  import opened Rebalance

  datatype PathEntry = PathEntry(pid: PageId, page: Page)

  ghost function Pids(path: seq<PathEntry>): seq<PageId> {
    seq(|path|, d requires 0 <= d < |path| => path[d].pid)
  }

  /** What the path of a key looks like in a well-formed tree. */
  lemma TreePath(cmp: Cmp, s: seq<Page>, root: PageId, lv: seq<Level>, k: Key) returns (ix: seq<nat>)
    requires TreeOk(cmp, s, root, lv)
    ensures 0 < |ix| == |lv| == |FullPath(cmp, s, root, k)| <= 33
    ensures forall r :: 0 <= r < |lv| ==> ix[r] < |lv[r]| && InSpan(cmp, k, lv[r], ix[r])
    ensures forall r :: 0 <= r < |lv| ==> lv[r][ix[r]].pid == FullPath(cmp, s, root, k)[|lv| - 1 - r]
    ensures forall r :: 0 <= r < |lv| ==> lv[r][ix[r]].pid < |s| && PageOk(s[lv[r][ix[r]].pid], r)
    ensures forall r :: 0 <= r < |lv| ==> Sorted(cmp, s[lv[r][ix[r]].pid].recs)
  {
    HeightBound(cmp, s, root, lv);
    ix := RootPath(cmp, s, root, lv, k);
    forall r | 0 <= r < |lv|
      ensures lv[r][ix[r]].pid < |s| && PageOk(s[lv[r][ix[r]].pid], r) && Sorted(cmp, s[lv[r][ix[r]].pid].recs)
    {
      assert lv[r][ix[r]].pid < |s| && PageOk(s[lv[r][ix[r]].pid], r);
      if r > 0 {
        PageSorted(cmp, s, root, lv, NoGap, r, ix[r]);
      } else {
        assert LeafAt(cmp, s, lv[0], ix[0]);
      }
    }
  }

  class BTree {
    const cmp: Cmp
    /** The pages behind the read, write and alloc callbacks. */
    var store: seq<Page>
    var rootId: PageId
    ghost var levels: seq<Level>

    ghost predicate Valid()
      reads this
    {
      TreeOk(cmp, store, rootId, levels)
    }

    /** The key-value map the tree stands for. */
    ghost function Contents(): map<Key, Value>
      reads this
      requires Valid()
    {
      ToMap(Records(store, levels[0]))
    }

    /** btree_create on a store that may already have other pages. */
    constructor Create(cmp: Cmp, pages: seq<Page>)
      requires Order(cmp) && |pages| < MAX_PAGES
      ensures Valid() && Contents() == map[]
      ensures this.cmp == cmp && rootId == |pages| && store == pages + [InitPage(LeafPage)]
      ensures levels == [[Edge(NegInf, |pages|)]]
    {
      this.cmp := cmp;
      this.store := pages + [InitPage(LeafPage)];
      this.rootId := |pages|;
      this.levels := [[Edge(NegInf, |pages|)]];
      new;
      RecordsOne(store, levels[0][0]);
      assert Leaves(cmp, store, levels[0]);
    }

    // ------------------------------------------------------------------ I/O callbacks

    method ReadPage(pid: PageId) returns (err: Error, page: Page)
      ensures err == (if pid < |store| then Ok else IoError)
      ensures pid < |store| ==> page == store[pid]
    {
      if pid >= |store| {
        return IoError, InitPage(LeafPage);
      }
      return Ok, store[pid];
    }

    method WritePage(pid: PageId, page: Page)
      requires pid < |store|
      modifies `store
      ensures store == old(store)[pid := page]
    {
      store := store[pid := page];
    }

    method AllocPage(kind: Kind) returns (pid: PageId)
      requires |store| < MAX_PAGES
      modifies `store
      ensures pid == |old(store)| && store == old(store) + [InitPage(kind)]
    {
      pid := |store|;
      store := store + [InitPage(kind)];
    }

    method SetParentId(child: PageId, parent: PageId)
      requires child < |store|
      modifies `store
      ensures store == old(store)[child := old(store)[child].(parent := parent)]
    {
      var err, pg := ReadPage(child);
      WritePage(child, pg.(parent := parent));
    }

    // ------------------------------------------------------------------ descent and get

    method BuildPath(k: Key) returns (err: Error, path: seq<PathEntry>)
      requires Valid()
      ensures err == Ok && |path| == |levels| <= 33
      ensures Pids(path) == FullPath(cmp, store, rootId, k)
      ensures forall d :: 0 <= d < |path| ==> path[d].pid < |store| && path[d].page == store[path[d].pid]
    {
      hide TreeOk, Order, PathOf, FullPath, UpperPos, ChildAt, Sorted, IsUpper, PageAt;
      ghost var full := FullPath(cmp, store, rootId, k);
      TreePathLength(cmp, store, rootId, levels, k);
      WholePath(cmp, store, rootId, k);
      path := [];
      var pid := rootId;
      while true
        invariant |path| < |full|
        invariant full[|path|..] == PathOf(cmp, store, pid, k, BTREE_MAX_DEPTH - 1 - |path|)
        invariant Pids(path) == full[..|path|]
        invariant forall d :: 0 <= d < |path| ==> path[d].pid < |store| && path[d].page == store[path[d].pid]
        decreases |full| - |path|
      {
        PathStep(cmp, store, rootId, levels, k, |path|, pid);
        var page;
        err, page := ReadPage(pid);
        if err != Ok {
          return;
        }
        PidsAppend(path, PathEntry(pid, page), full);
        path := path + [PathEntry(pid, page)];
        if page.kind == LeafPage {
          return;
        }
        pid := InternalFindChild(cmp, page, k);
      }
    }

    /** btree_get with a value buffer of `capacity` bytes. */
    method Get(k: Key, capacity: nat) returns (err: Error, valOut: seq<byte>, valLen: nat)
      requires Valid()
      ensures err == Ok <==> k in Contents()
      ensures err != Ok ==> err == NotFound
      ensures err == Ok ==> valLen == |Contents()[k]| <= PAGE_SIZE
      ensures err == Ok ==> valOut == Contents()[k][..if capacity < valLen then capacity else valLen]
    {
      var path;
      err, path := BuildPath(k);
      var leaf := path[|path| - 1].page;
      ghost var ix := TreePath(cmp, store, rootId, levels, k);
      LeafOfPath(cmp, store, rootId, levels, k, ix);
      assert path[|path| - 1].pid == Pids(path)[|path| - 1];
      hide Valid, TreeOk, FullPath, Records, ToMap;
      var idx := LeafFindKey(cmp, leaf.recs, k);
      FoundInLeaf(cmp, leaf.recs, k, idx);
      if idx < 0 || leaf.recs[idx].deleted {
        return NotFound, [], 0;
      }
      var rec := leaf.recs[idx];
      RecInPage(cmp, store, rootId, levels, ix[0], idx);
      valLen := |rec.val|;
      valOut := rec.val[..if capacity < valLen then capacity else valLen];
      err := Ok;
    }

    // ------------------------------------------------------------------ splits

    /** Copies a page's records into a record array. */
    method CollectRecs(p: Page) returns (ra: seq<Rec>)
      ensures ra == p.recs
    {
      ra := [];
      var i := 0;
      while i < |p.recs|
        invariant 0 <= i <= |p.recs|
        invariant ra == p.recs[..i]
      {
        ra := ra + [p.recs[i]];
        i := i + 1;
      }
    }

    /** Appends records `lo` to `hi` of the array to a page with page_alloc_slot. */
    method FillPage(p: Page, ra: seq<Rec>, lo: nat, hi: nat) returns (q: Page)
      requires lo <= hi <= |ra|
      ensures q == Fill(p, ra[lo..hi])
    {
      hide Fill, AllocSlot;
      FillNone(p, ra, lo);
      q := p;
      var i := lo;
      while i < hi
        invariant lo <= i <= hi
        invariant q == Fill(p, ra[lo..i])
      {
        FillStep(p, ra, lo, i);
        q := AllocSlot(q, ra[i]);
        i := i + 1;
      }
    }

    /** Splits a leaf that has no room for `rec`: steps 1 to 7 of btree_put. */
    method SplitLeaf(leafId: PageId, leaf: Page, rec: Rec) returns (newPid: PageId, sep: Key)
      requires Order(cmp) && Sorted(cmp, leaf.recs) && leafId < |store| < MAX_PAGES
      requires leaf.kind == LeafPage && leaf == store[leafId].(recs := leaf.recs)
      requires leaf.next != INVALID_PAGE_ID ==> leaf.next < |store| && leaf.next != leafId && leaf.next != leaf.prev
      requires leaf.prev != INVALID_PAGE_ID ==>
        leaf.prev < |store| && leaf.prev != leafId && store[leaf.prev].next == leafId
      modifies `store
      ensures var all := InsertAt(leaf.recs, UpperPos(cmp, leaf.recs, rec.key), rec);
              && newPid == |old(store)| && |store| == |old(store)| + 1 && sep == all[|all| / 2].key
              && LeafSplit(old(store), store, leafId, Kept(all[..|all| / 2]), Kept(all[|all| / 2..]))
    {
      hide Order, Sorted, UpperPos, Fill, Kept;
      var ra := CollectRecs(leaf);
      ra := MergeSorted(cmp, ra, rec);
      var mid := |ra| / 2;
      sep := ra[mid].key;
      var oldPrev, oldNext, parentId := leaf.prev, leaf.next, leaf.parent;

      var left := InitPage(LeafPage).(parent := parentId, prev := oldPrev, next := leafId);
      assert ra[0..mid] == ra[..mid];
      FillIsKept(left, ra[..mid]);
      left := FillPage(left, ra, 0, mid);

      newPid := AllocPage(LeafPage);
      var _, newPage := ReadPage(newPid);
      newPage := InitPage(LeafPage).(parent := parentId, prev := leafId, next := oldNext);
      assert ra[mid..|ra|] == ra[mid..];
      FillIsKept(newPage, ra[mid..]);
      newPage := FillPage(newPage, ra, mid, |ra|);

      left := left.(next := newPid);
      WritePage(leafId, left);
      WritePage(newPid, newPage);

      if oldNext != INVALID_PAGE_ID {
        var _, nextPg := ReadPage(oldNext);
        WritePage(oldNext, nextPg.(prev := newPid));
      }
      if oldPrev != INVALID_PAGE_ID {
        var _, prevPg := ReadPage(oldPrev);
        WritePage(oldPrev, prevPg.(next := leafId));
      }
    }

    /** Splits an internal page that has no room for `rec`. */
    method SplitInternal(pid: PageId, page: Page, rec: Rec) returns (newPid: PageId, sep: Key)
      requires Order(cmp) && Sorted(cmp, page.recs) && pid < |store| < MAX_PAGES
      requires page == store[pid] && page.kind == InternalPage && page.prev == page.next == INVALID_PAGE_ID
      requires var all := InsertAt(page.recs, UpperPos(cmp, page.recs, rec.key), rec);
               forall t :: 0 <= t < |all| ==> ChildOf(all[t]) < |store| && ChildOf(all[t]) != pid
      modifies `store
      ensures var all := InsertAt(page.recs, UpperPos(cmp, page.recs, rec.key), rec);
              && newPid == |old(store)| && |store| == |old(store)| + 1 && sep == all[|all| / 2].key
              && InternalParts(old(store)[pid := page.(recs := all)], store, pid, |all| / 2,
                               Kept(all[..|all| / 2]), Kept(all[|all| / 2 + 1..]))
    {
      hide Order, Sorted, UpperPos, Fill, MovedPart, InternalParts, Kept;
      var ra := CollectRecs(page);
      ra := MergeSorted(cmp, ra, rec);
      var mid := |ra| / 2;
      sep := ra[mid].key;
      var medianChild := ChildOf(ra[mid]);

      var left := InitPage(InternalPage).(parent := page.parent, firstChild := page.firstChild);
      assert ra[0..mid] == ra[..mid];
      FillIsKept(left, ra[..mid]);
      left := FillPage(left, ra, 0, mid);
      WritePage(pid, left);

      newPid := AllocPage(InternalPage);
      var _, newPage := ReadPage(newPid);
      newPage := InitPage(InternalPage).(parent := page.parent, firstChild := medianChild);
      ghost var blank := newPage;
      SetParentId(medianChild, newPid);
      MovedFirst(old(store), store, pid, left, ra, mid);

      var i := mid + 1;
      FillNone(newPage, ra, i);
      while i < |ra|
        invariant mid < i <= |ra|
        invariant newPage == Fill(blank, ra[mid + 1..i])
        invariant MovedPart(old(store), store, pid, left, ra, mid, i)
      {
        FillStep(blank, ra, mid + 1, i);
        MovedStep(old(store), store, pid, left, ra, mid, i);
        newPage := AllocSlot(newPage, ra[i]);
        SetParentId(ChildOf(ra[i]), newPid);
        i := i + 1;
      }
      assert ra[mid + 1..|ra|] == ra[mid + 1..];
      FillIsKept(blank, ra[mid + 1..]);
      MovedAll(old(store), store, pid, page, left, ra, mid);
      WritePage(newPid, newPage);
    }

    /** Puts a new root above the old one and the page split off it. */
    method GrowRoot(sep: Key, pid: PageId)
      requires rootId < |store| && pid < |store| < MAX_PAGES
      modifies `store, `rootId
      ensures RootParts(old(store), store, old(rootId), pid, Kept([ChildRec(sep, pid)]))
      ensures rootId == |old(store)| && |store| == |old(store)| + 1
    {
      hide Kept, Fill;
      var rootPid := AllocPage(InternalPage);
      var _, rootPg := ReadPage(rootPid);
      rootPg := InitPage(InternalPage).(firstChild := rootId);
      SetParentId(rootId, rootPid);
      FillOne(rootPg, ChildRec(sep, pid));
      FillIsKept(rootPg, [ChildRec(sep, pid)]);
      rootPg := AllocSlot(rootPg, ChildRec(sep, pid));
      SetParentId(pid, rootPid);
      WritePage(rootPid, rootPg);
      rootId := rootPid;
    }

    /** Carries a separator up the path until some page has room for it. */
    method Propagate(path: seq<PathEntry>, newPid: PageId, sep: Key, ghost k: Key, ghost ix: seq<nat>,
                     ghost o: Origin, ghost c0: Course, ghost a: Aim, ghost b0: Outlook, ghost watched: bool)
      returns (err: Error)
      requires 0 < |path| <= 33 && |store| + |path| <= MAX_PAGES && o.root == a.root == rootId
      requires OnCourse(cmp, o, c0, store, levels, Pids(path), k, ix, 0, sep, newPid)
      requires watched ==> InSight(cmp, a, b0, store, Pids(path), k, ix, 0, sep, newPid)
      modifies this
      ensures err == Ok && |store| <= |old(store)| + |path|
      ensures Arrived(cmp, o, store, rootId, levels) && (watched ==> Found(cmp, a, store, rootId))
    {
      hide OnCourse, Arrived, InSight, Found, RootParts, InternalParts, InsertFits, UpperPos, TakenUp, Order, Sorted,
        Kept;
      var curPid, curSep := newPid, sep;
      ghost var r, c, b := 0, c0, b0;
      ghost var pids := Pids(path);
      var level := |path| - 2;
      while true
        invariant level == |path| - 2 - r && -1 <= level && rootId == o.root
        invariant |store| == |old(store)| + r
        invariant OnCourse(cmp, o, c, store, levels, pids, k, ix, r, curSep, curPid)
        invariant watched ==> InSight(cmp, a, b, store, pids, k, ix, r, curSep, curPid)
        decreases level + 1
      {
        ghost var s, lv := store, levels;
        if level < 0 {
          OnTop(cmp, o, c, s, lv, pids, k, ix, r, curSep, curPid);
          GrowRoot(curSep, curPid);
          ArriveTop(cmp, o, c, s, lv, pids, k, ix, r, curSep, curPid, store);
          if watched {
            SightTop(cmp, a, b, s, pids, k, ix, r, curSep, curPid, store);
          }
          levels := lv + [TopLevel(s)];
          return Ok;
        }
        OnParent(cmp, o, c, s, lv, pids, k, ix, r, curSep, curPid);
        var parentPid := path[level].pid;
        assert parentPid == pids[level];
        var parentPg;
        err, parentPg := ReadPage(parentPid);
        if err != Ok {
          return;
        }
        var rec := ChildRec(curSep, curPid);
        var insPos := UpperSearch(cmp, parentPg.recs, curSep);
        InsertPosition(cmp, parentPg, curSep, curPid, insPos);
        if InsertFits(parentPg.recs, rec) {
          WritePage(parentPid, parentPg.(recs := InsertAt(parentPg.recs, insPos, rec)));
          ArriveInsert(cmp, o, c, s, lv, pids, k, ix, r, curSep, curPid, store);
          if watched {
            SightInsert(cmp, a, b, s, pids, k, ix, r, curSep, curPid, store);
          }
          return Ok;
        }
        curPid, curSep := SplitInternal(parentPid, parentPg, rec);
        ghost var zv := s[parentPid := TakenUp(cmp, parentPg, rec.key, rec.child)];
        c, levels := NextCourse(cmp, o, c, s, lv, pids, k, ix, r, rec.key, rec.child, zv, store);
        if watched {
          b := SightNext(cmp, a, b, s, pids, k, ix, r, rec.key, rec.child, zv, store);
        }
        level := level - 1;
        r := r + 1;
      }
    }

    /** btree_put. The store ends up as a well-formed tree with the key put in exactly when every
        page that had to be split could be split by halving its records. Unless a slot was written
        over its own record, searches find what they should exactly when no page dropped one. */
    method Put(k: Key, v: Value) returns (err: Error)
      requires Valid() && Packs(k, v)
      requires |store| + 34 <= MAX_PAGES
      modifies this
      ensures err == Ok && |store| <= |old(store)| + 34
      ensures old(PutFits(cmp, store, rootId, k, v)) ==>
        && Valid() && Contents() == old(Contents())[k := v] && levels[0][0].pid == old(levels[0][0].pid)
        && (SmallStore(old(store)) && |k| + |v| <= MAX_PAYLOAD ==> SmallStore(store))
      ensures old(PutFits(cmp, store, rootId, k, v)) <==> Intact(cmp, store, rootId, old(Contents())[k := v])
      ensures var fate := old(PutRefills(cmp, store, rootId, k, v));
        fate != Overlaps ==>
          (fate == Whole <==>
           forall x :: Lookup(cmp, store, rootId, x) == MapLookup(old(Contents())[k := v], x))
    {
      hide PutRefills, Lookup, LeafRefilled, AscentRefills, Worse, Kept, TreeOk, PutFits, SmallStore, AllSmall,
        FullPath, ToMap, Records, Order, Sorted, Shape, UpperPos, Fits, InsertFits, WithoutKey, Upserted,
        LeafHalvesFit, IsUpper, InSpan, PageAt, PageOk, AscentFits, Intact;
      ghost var s, lv := store, levels;
      ghost var ix := TreePath(cmp, s, rootId, lv, k);
      var path;
      err, path := BuildPath(k);
      var leafId, leaf := path[|path| - 1].pid, path[|path| - 1].page;
      ghost var recs := leaf.recs;
      assert leafId == Pids(path)[|path| - 1] == lv[0][ix[0]].pid;
      PutLeaf(cmp, s, rootId, lv, ix[0]);
      PutFitsCases(cmp, s, rootId, k, v, leafId);
      PutRefillsCases(cmp, s, rootId, k, v, leafId);

      var idx := LeafFindKey(cmp, leaf.recs, k);
      KeySearched(cmp, recs, k, idx);
      if idx >= 0 {
        leaf := leaf.(recs := RemoveAt(leaf.recs, idx));
        idx := LeafFindKey(cmp, leaf.recs, k);
      }
      var rec := LeafRec(k, v, false);
      var insertPos := -idx - 1;
      KeyAbsent(cmp, recs, rec, idx);
      ghost var all := Upserted(cmp, recs, rec);
      if InsertFits(leaf.recs, rec) {
        WritePage(leafId, leaf.(recs := InsertAt(leaf.recs, insertPos, rec)));
        PutDone(cmp, s, rootId, lv, k, v, ix[0], store);
        IsIntact(cmp, store, rootId, lv);
        SearchesAgree(cmp, store, rootId, lv);
        return Ok;
      }
      err := SplitAndPropagate(k, v, path, leaf, ix);
    }

    /** The part of btree_put that deals with a full leaf; `leaf` is the leaf without the key. */
    method SplitAndPropagate(k: Key, v: Value, path: seq<PathEntry>, leaf: Page, ghost ix: seq<nat>)
      returns (err: Error)
      requires Valid() && |store| + 34 <= MAX_PAGES
      requires 0 < |levels| && |path| <= 33 && TreeSteps(cmp, levels, Pids(path), k, ix, 0)
      requires var leafId, r := path[|path| - 1].pid, LeafRec(k, v, false);
               && leafId < |store| && leafId == levels[0][ix[0]].pid
               && leaf == store[leafId].(recs := WithoutKey(store[leafId].recs, k)) && Sorted(cmp, leaf.recs)
               && Upserted(cmp, store[leafId].recs, r) == InsertAt(leaf.recs, UpperPos(cmp, leaf.recs, k), r)
               && !InsertFits(leaf.recs, r)
      modifies this
      ensures err == Ok && |store| <= |old(store)| + 34
      ensures var all := Upserted(cmp, old(store)[path[|path| - 1].pid].recs, LeafRec(k, v, false));
        var fits := LeafHalvesFit(all) && AscentFits(cmp, old(store), Pids(path), |path| - 2, all[|all| / 2].key,
          |old(store)|);
        && (fits ==>
              && Valid() && Contents() == old(Contents())[k := v] && levels[0][0].pid == old(levels[0][0].pid)
              && (SmallStore(old(store)) && |k| + |v| <= MAX_PAYLOAD ==> SmallStore(store)))
        && (fits <==> Intact(cmp, store, rootId, old(Contents())[k := v]))
      ensures var all := Upserted(cmp, old(store)[path[|path| - 1].pid].recs, LeafRec(k, v, false));
        var way := AscentRefills(cmp, old(store), Pids(path), |path| - 2, all[|all| / 2].key, |old(store)|);
        var fate := Worse(LeafRefilled(all), way);
        fate != Overlaps ==>
          (fate == Whole <==> forall x :: Lookup(cmp, store, rootId, x) == MapLookup(old(Contents())[k := v], x))
    {
      hide Lookup, LeafRefilled, AscentRefills, Worse, Found, InSight, TreeOk, SmallStore, AllSmall, ToMap, Records,
        Order, Sorted, Shape, UpperPos, Fits, InsertFits, WithoutKey, Upserted, LeafHalvesFit, LeafSplit, Climbing,
        Loaded, InSpan, PageAt, PageOk, AscentFits, Intact, Drifting, Later, RootOf, LeafCut, Wanted, Kept, OnCourse,
        Arrived;
      ghost var s, lv, root := store, levels, rootId;
      var leafId := path[|path| - 1].pid;
      ghost var all := Upserted(cmp, store[leafId].recs, LeafRec(k, v, false));
      PutLeaf(cmp, s, root, lv, ix[0]);
      var newPid, sep := SplitLeaf(leafId, leaf, LeafRec(k, v, false));
      ghost var torn, base, pids := !LeafHalvesFit(all), store, Pids(path);
      ghost var fits := AscentFits(cmp, s, pids, |path| - 2, sep, |s|);
      ghost var small := SmallStore(s) && |k| + |v| <= MAX_PAYLOAD;
      ghost var o, c := Origin(root, lv[0], [], fits, small, torn, base, lv, pids[..|path| - 1]), Sound;
      ghost var fate := Worse(LeafRefilled(all), AscentRefills(cmp, s, pids, |path| - 2, sep, |s|));
      ghost var watched := fate != Overlaps;
      PutAim(cmp, s, root, lv, k, v, pids, ix, all);
      ghost var a := Aim(root, Wanted(s, lv[0], ix[0], all), fate == Whole);
      TwoAtLeast(cmp, s[leafId].recs, LeafRec(k, v, false));
      ghost var b := LeafStart(cmp, s, root, lv, pids, k, ix, all, store);
      if torn {
        LeafTorn(cmp, s, root, lv, k, v, pids, ix, base);
        StartAdrift(cmp, o, base, lv, pids, k, ix, sep, newPid);
        c := Adrift(base, lv, 0, o.up, base, 0, [], []);
      } else {
        LeafFitsKept(all);
        PutSplit(cmp, s, root, lv, k, v, pids, ix, store);
        if small {
          PutSplitSmall(cmp, s, leafId, k, v, store);
        }
        levels := lv[0 := SplitLevel(lv[0], ix[0], sep, |s|)];
        o := o.(leaves := levels[0], recs := Records(store, levels[0]));
        StartSound(cmp, o, store, levels, pids, k, ix, sep, newPid);
      }
      err := Propagate(path, newPid, sep, k, ix, o, c, a, b, watched);
      if watched {
        FoundMeans(cmp, a, store, rootId);
      }
      ArrivedParts(cmp, o, store, rootId, levels);
      if torn {
        LeafNotIntact(cmp, s, root, lv, ix[0], all, base, Kept(all[..|all| / 2]), Kept(all[|all| / 2..]), store, o.up,
          rootId);
      } else if fits {
        PutClimbed(cmp, store, rootId, levels);
        IsIntact(cmp, store, rootId, levels);
      } else {
        NotIntact(cmp, store, rootId, ToMap(Records(s, lv[0]))[k := v]);
      }
    }

    // ------------------------------------------------------------------ delete

    /** One round of rebalance_after_delete: merge page `nodePid` with its left sibling, or with
        its right one if it is a first child, if it holds too little and both fit in one page.
        Record `c` of the parent goes, and the page to its right is given up. */
    method RebalanceLevel(parentPid: PageId, nodePid: PageId) returns (err: Error, merged: bool, ghost c: nat)
      requires Mergeable(store, parentPid, nodePid) && nodePid < |store|
      modifies `store
      ensures err == Ok && Round(old(store), store, parentPid, nodePid, c, merged)
      ensures var p := old(store)[parentPid];
        c < |p.recs| && if p.firstChild == nodePid then c == 0 else ChildOf(p.recs[c]) == nodePid
      ensures var s, p := old(store), old(store)[parentPid];
        var left, right := if c == 0 then p.firstChild else ChildOf(p.recs[c - 1]), ChildOf(p.recs[c]);
        && left < |s| && right < |s|
        && (merged <==>
            && |s[nodePid].recs| < (if s[nodePid].kind == LeafPage then 2 else 1)
            && 4 * (|s[left].recs| + |s[right].recs|) + DataSize(s[left].recs) + DataSize(s[right].recs) <= 4064)
        && (merged ==> store[left].recs == s[left].recs + s[right].recs && store[left].next == s[right].next)
      ensures |store| == |old(store)| && (!merged ==> store == old(store))
      ensures SmallStore(old(store)) ==> SmallStore(store)
    {
      hide Fits, DataSize, Fill, SmallStore;
      merged := false;
      ghost var s := store;
      ghost var c0 :| 0 <= c0 <= |s[parentPid].recs| && ChildAt(s[parentPid], c0) == nodePid;
      c := if c0 == 0 then 0 else c0 - 1;
      assert MergeChild(s, parentPid, c) && MergeChild(s, parentPid, c + 1);

      var parent, node;
      err, parent := ReadPage(parentPid);
      err, node := ReadPage(nodePid);
      var n := |node.recs|;
      if if node.kind == LeafPage then n >= 2 else n >= 1 {
        return;
      }
      var pos := FindPosInParent(parent, nodePid);
      assert pos == c0 - 1 by { PositionOfChild(s, parentPid, nodePid, c0, pos); }
      if pos < -1 {
        err := Corrupted;
        return;
      }

      var leftPid, rightPid, removeSlot: nat;
      if pos >= 0 {
        leftPid := if pos == 0 then parent.firstChild else ChildOf(parent.recs[pos - 1]);
        rightPid := nodePid;
        removeSlot := pos;
      } else {
        leftPid := nodePid;
        rightPid := ChildOf(parent.recs[0]);
        removeSlot := 0;
      }
      var left, right;
      err, left := ReadPage(leftPid);
      err, right := ReadPage(rightPid);

      MergeTest(left.recs, right.recs);
      var data := DataSize(left.recs) + DataSize(right.recs);
      if SLOT_SIZE * (|left.recs| + |right.recs|) + data > PAGE_SIZE - PAGE_HEADER_SIZE {
        return;
      }
      merged := true;
      MergePages(parentPid, parent, leftPid, left, rightPid, right, removeSlot);
      if SmallStore(s) {
        SmallMerge(s, store, leftPid, rightPid, parentPid, c);
      }
      err := Ok;
    }

    /** Moves the records of page `right` to `left` and unlinks `right` from its
        neighbour and from its parent. */
    method MergePages(parentPid: PageId, parent: Page, leftPid: PageId, left: Page, ghost rightPid: PageId,
                      right: Page, removeSlot: nat)
      requires parentPid < |store| && parent == store[parentPid] && removeSlot < |parent.recs|
      requires leftPid < |store| && left == store[leftPid] && leftPid != parentPid
      requires rightPid < |store| && right == store[rightPid]
      requires right.next != INVALID_PAGE_ID ==>
        right.next < |store| && right.next != leftPid && right.next != parentPid
      requires Fits(left.recs + right.recs)
      modifies `store
      ensures LeafMerge(old(store), store, leftPid, rightPid, parentPid, removeSlot) && |store| == |old(store)|
    {
      hide Fits, LeafMerge, Fill;
      FillKeeps(left, right.recs);
      assert right.recs[0..|right.recs|] == right.recs;
      var grown := FillPage(left, right.recs, 0, |right.recs|);

      var rightNext := right.next;
      grown := grown.(next := rightNext);
      if rightNext != INVALID_PAGE_ID {
        var _, nxt := ReadPage(rightNext);
        WritePage(rightNext, nxt.(prev := leftPid));
      }
      WritePage(leftPid, grown);
      WritePage(parentPid, parent.(recs := RemoveAt(parent.recs, removeSlot)));
      MergeDone(old(store), store, leftPid, rightPid, parentPid, removeSlot);
    }

    /** rebalance_after_delete, starting from the leaf at the end of the path. */
    method RebalanceAfterDelete(path: seq<PathEntry>, leafLevel: nat, ghost k: Key, ghost ix: seq<nat>)
      returns (err: Error, ghost c1: nat)
      requires Order(cmp) && Shape(cmp, store, rootId, levels, NoGap) && Room(store, levels) && |store| <= MAX_PAGES
      requires 0 < |path| && leafLevel == |path| - 1 && TreeSteps(cmp, levels, Pids(path), k, ix, 0)
      requires FilledBut(store, levels, path[leafLevel].pid)
      modifies this
      ensures err == Ok && |store| == |old(store)|
      ensures MergeKeeps(old(store), Pids(path)) ==>
        && TreeOk(cmp, store, rootId, levels) && levels[0][0].pid == old(levels[0][0].pid)
        && Records(store, levels[0]) == old(Records(store, levels[0]))
      ensures !MergeKeeps(old(store), Pids(path)) ==>
        exists lost :: lost in ToMap(old(Records(store, levels[0]))) && Lookup(cmp, store, rootId, lost) == None
      ensures SmallStore(old(store)) ==> SmallStore(store)
      ensures Rebalanced(old(store), old(rootId), store, rootId, Pids(path))
      ensures |path| == 1 ==> store == old(store) && rootId == old(rootId)
      ensures |path| > 1 ==>
        LeafLands(old(store), old(rootId), store, rootId, path[leafLevel - 1].pid, path[leafLevel].pid, c1)
    {
      hide SmallStore, Order, Shape, Room, FilledBut, Filled, MergeKeeps, Mergeable, LeafMerge, Losing, ToMap,
        Records, Lookup, Fits, TreeSteps, Sealed, RootShrink, MergedLevels, MergedOnce, LosingSince, Round, TreeBut,
        TreeOk, PageAt, Rounds, Rebalanced, RootStep, Onward, LeafLands, Landed;
      c1 := 0;
      ghost var s0, lv0, root := store, levels, rootId;
      ghost var pids := Pids(path);
      ghost var s1, lv1, reach, lost := s0, lv0, {}, k;
      ghost var phase, m := 0, s0;
      OnwardStart(s0, pids);
      TreeButIntro(cmp, s0, root, lv0, path[leafLevel].pid);
      err := Ok;
      var level := leafLevel;
      while level > 0
        invariant 0 <= level <= leafLevel && |store| == |s0| && rootId == root && 0 <= phase <= 2 && err == Ok
        invariant SmallStore(s0) ==> SmallStore(store)
        invariant phase == 0 ==> level == leafLevel && store == s0 && levels == lv0
        invariant phase == 1 ==> level + 2 == |path| && MergedOnce(cmp, s0, lv0, root, store, levels, pids, k, ix)
        invariant phase == 2 ==> LosingSince(cmp, s0, lv0, s1, root, lv1, store, pids, k, ix, level, reach, lost)
        invariant Onward(s0, store, pids, level)
        invariant phase > 0 ==> leafLevel > 0 && Landed(s0, m, store, root, pids[leafLevel - 1], pids[leafLevel], c1)
        decreases level
      {
        var parentPid, nodePid := path[level - 1].pid, path[level].pid;
        assert parentPid == pids[level - 1] && nodePid == pids[level];
        ghost var s := store;
        if phase == 0 {
          FirstMergeable(cmp, s, root, lv0, pids, k, ix);
        } else if phase == 1 {
          SecondMergeable(cmp, s0, lv0, root, s, levels, pids, k, ix);
        } else {
          LaterMergeable(cmp, s0, lv0, s1, root, lv1, s, pids, k, ix, level, reach, lost, parentPid);
        }
        var merged;
        ghost var c;
        err, merged, c := RebalanceLevel(parentPid, nodePid);
        if !merged {
          OnwardStop(s0, s, root, pids, level, c);
          if phase == 0 {
            c1 := c;
            FirstLands(cmp, s, root, lv0, pids, k, ix, c, store, false);
            FirstStop(cmp, s, root, lv0, pids, k, ix, c);
            TreeOkIntro(cmp, store, root, levels, nodePid);
          } else if phase == 1 {
            SecondStop(cmp, s0, lv0, root, s, levels, pids, k, ix, c);
            SecondDone(cmp, s0, lv0, root, s, levels, pids, k, ix);
          } else {
            LaterStop(cmp, s0, lv0, s1, root, lv1, s, pids, k, ix, level, reach, lost);
          }
          if phase > 0 {
            LeavesAlone(store);
            LandedEnd(s0, m, store, store, root, root, pids[leafLevel - 1], pids[leafLevel], c1);
          }
          return;
        }
        OnwardMerge(s0, s, pids, level, c, store);
        if phase == 0 {
          FirstLands(cmp, s, root, lv0, pids, k, ix, c, store, true);
          c1, m := c, store;
          levels := FirstMerge(cmp, s, root, lv0, pids, k, ix, c, store);
          phase := 1;
        } else if phase == 1 {
          SecondKinds(cmp, s0, lv0, root, s, levels, pids, k, ix, c, store);
          LandedMerge(s0, m, s, store, root, pids[leafLevel - 1], pids[leafLevel], c1, parentPid, nodePid, c);
          reach, lost := SecondMerge(cmp, s0, lv0, root, s, levels, pids, k, ix, c, store);
          s1, lv1 := s, levels;
          phase := 2;
        } else {
          LaterKinds(cmp, s0, lv0, s1, root, lv1, s, pids, k, ix, level, reach, lost, c, store);
          LandedMerge(s0, m, s, store, root, pids[leafLevel - 1], pids[leafLevel], c1, parentPid, nodePid, c);
          LaterMerge(cmp, s0, lv0, s1, root, lv1, s, pids, k, ix, level, reach, lost, c, store);
        }
        level := level - 1;
      }

      if phase == 0 {
        EndAtLeaf(cmp, store, root, levels, pids, k, ix);
        TreeOkIntro(cmp, store, root, levels, pids[0]);
      } else if phase == 1 {
        EndAtRoot(cmp, s0, lv0, root, store, levels, pids, k, ix);
        if store[root].recs != [] {
          SecondDone(cmp, s0, lv0, root, store, levels, pids, k, ix);
        }
      } else {
        EndLosing(cmp, s0, lv0, s1, root, lv1, store, pids, k, ix, level, reach, lost);
      }
      assert path[0].pid == pids[0];
      var rootPg;
      err, rootPg := ReadPage(path[0].pid);
      ghost var t := store;
      LeavesAlone(t);
      if rootPg.kind == InternalPage && |rootPg.recs| == 0 {
        var child := rootPg.firstChild;
        rootId := child;
        var childPg;
        err, childPg := ReadPage(child);
        ghost var s := store;
        WritePage(child, childPg.(parent := INVALID_PAGE_ID));
        if SmallStore(s0) {
          SmallParent(s, child, INVALID_PAGE_ID);
        }
        if phase == 1 {
          levels := levels[..1];
          ShrunkDone(cmp, store, rootId, levels);
        }
      }
      RootStepped(t, root, store, rootId);
      OnwardEnd(s0, t, root, pids, store, rootId);
      if phase > 0 {
        LandedEnd(s0, m, t, store, root, rootId, pids[leafLevel - 1], pids[leafLevel], c1);
      }
    }

    /** btree_delete. A leaf left with fewer than two records goes to its left sibling's page if
        both fit there, or, if it is a first child, takes in its right sibling. */
    method Delete(k: Key) returns (err: Error)
      requires Valid()
      modifies this
      ensures err == (if k in old(Contents()) then Ok else NotFound)
      ensures k !in old(Contents()) ==> store == old(store) && rootId == old(rootId) && levels == old(levels)
      ensures DeleteSafe(cmp, old(store), old(rootId), k) || k !in old(Contents()) ==>
        Valid() && Contents() == old(Contents()) - {k} && levels[0][0].pid == old(levels[0][0].pid)
      ensures k in old(Contents()) ==>
        (DeleteSafe(cmp, old(store), old(rootId), k) <==>
         forall x :: Lookup(cmp, store, rootId, x) == MapLookup(old(Contents()) - {k}, x))
      ensures |store| == |old(store)| && (SmallStore(old(store)) ==> SmallStore(store))
      ensures k in old(Contents()) ==>
        var s, path := old(store), FullPath(cmp, old(store), old(rootId), k);
        var leaf := path[|path| - 1];
        && leaf < |s|
        && var s1 := s[leaf := s[leaf].(recs := WithoutKey(s[leaf].recs, k))];
           && Rebalanced(s1, old(rootId), store, rootId, path)
           && (|path| == 1 || |s1[leaf].recs| >= 2 ==> store == s1 && rootId == old(rootId))
           && (|path| > 1 && |s1[leaf].recs| < 2 ==>
                 var p := PageAt(s, path[|path| - 2]);
                 exists c: nat ::
                   && c < |p.recs| && (if p.firstChild == leaf then c == 0 else ChildOf(p.recs[c]) == leaf)
                   && var left, right := ChildAt(p, c), ChildAt(p, c + 1);
                      && left < |s| && right < |s|
                      && if Fits(s1[left].recs + s1[right].recs) then store[left].recs == s1[left].recs + s1[right].recs
                         else store == s1 && rootId == old(rootId))
    {
      hide TreeOk, SmallStore, FullPath, ToMap, Records, Order, Sorted, Shape, WithoutKey, Lookup, InSpan, PageAt,
        PageOk, MergeKeeps, DeleteSafe, Rebalanced, LeafLands, ChildAt, ChildOf, Fits;
      ghost var s, lv, root := store, levels, rootId;
      ghost var ix := TreePath(cmp, s, root, lv, k);
      var path;
      err, path := BuildPath(k);
      var leafId, leaf := path[|path| - 1].pid, path[|path| - 1].page;
      ghost var recs := leaf.recs;
      assert leafId == Pids(path)[|path| - 1] == lv[0][ix[0]].pid;
      PutLeaf(cmp, s, root, lv, ix[0]);
      LeafHolds(cmp, s, root, lv, k, ix[0]);

      var idx := LeafFindKey(cmp, leaf.recs, k);
      FoundInLeaf(cmp, recs, k, idx);
      if idx < 0 || leaf.recs[idx].deleted {
        MapWithout(Contents(), k);
        return NotFound;
      }
      KeySearched(cmp, recs, k, idx);
      WritePage(leafId, leaf.(recs := RemoveAt(leaf.recs, idx)));
      DeleteStart(cmp, s, root, lv, k, Pids(path), ix, store);
      ghost var s1 := store;
      ghost var c;
      err, c := RebalanceAfterDelete(path, |path| - 1, k, ix);
      DeleteGuard(cmp, s, root, k, leafId, s1, Pids(path));
      ParentApart(cmp, s, root, lv, Pids(path), k, ix);
      Landing(s, root, store, rootId, Pids(path), leafId, s1, c);
      if MergeKeeps(s1, Pids(path)) {
        SearchesAgree(cmp, store, rootId, levels);
      }
    }
  }

  lemma ParentApart(cmp: Cmp, s: seq<Page>, root: PageId, lv: seq<Level>, path: seq<PageId>, k: Key, ix: seq<nat>)
    requires TreeOk(cmp, s, root, lv) && |path| > 0 && TreeSteps(cmp, lv, path, k, ix, 0)
    ensures |path| > 1 ==> path[|path| - 2] != path[|path| - 1]
  {
    hide Linked, Placed, Bounds, Leaves, Parents, Chain, Room, Filled, Order, InSpan;
    if |path| == 1 {
      return;
    }
    assert Alone(lv, 0, ix[0]) && lv[1][ix[1]].pid == path[|path| - 2]
      && lv[0][ix[0]].pid == path[|path| - 1];
  }

  /** What becomes of a deleted record's leaf, seen from the store before. */
  lemma Landing(s: seq<Page>, root: PageId, s': seq<Page>, root': PageId, path: seq<PageId>, leaf: PageId,
                s1: seq<Page>, c: nat)
    requires |path| > 0 && leaf == path[|path| - 1] < |s| == |s1| && s1 == s[leaf := s1[leaf]]
    requires |path| == 1 ==> s' == s1 && root' == root
    requires |path| > 1 ==> path[|path| - 2] != leaf && LeafLands(s1, root, s', root', path[|path| - 2], leaf, c)
    ensures |path| == 1 || |s1[leaf].recs| >= 2 ==> s' == s1 && root' == root
    ensures |path| > 1 && |s1[leaf].recs| < 2 ==>
      var p := PageAt(s, path[|path| - 2]);
      exists c: nat ::
        && c < |p.recs| && (if p.firstChild == leaf then c == 0 else ChildOf(p.recs[c]) == leaf)
        && var left, right := ChildAt(p, c), ChildAt(p, c + 1);
           && left < |s| && right < |s|
           && if Fits(s1[left].recs + s1[right].recs) then s'[left].recs == s1[left].recs + s1[right].recs
              else s' == s1 && root' == root
  {
    hide Fits, ChildOf;
    if |path| > 1 {
      var p := PageAt(s, path[|path| - 2]);
      assert p == s1[path[|path| - 2]];
      assert c < |p.recs|;
      var left, right := ChildAt(p, c), ChildAt(p, c + 1);
      hide ChildAt;
    }
  }

  lemma LeavesAlone(s: seq<Page>)
    ensures LeavesSame(s, s)
    ensures forall x, p :: 0 <= x < |s| ==> LeavesSame(s, s[x := s[x].(parent := p)])
  {
  }

  /** The root gives way to its only child, or stays. */
  lemma RootStepped(s: seq<Page>, root: PageId, s': seq<Page>, root': PageId)
    requires root < |s| && if s[root].kind == InternalPage && s[root].recs == [] then
      var child := s[root].firstChild;
      child < |s| && s' == s[child := s[child].(parent := INVALID_PAGE_ID)] && root' == child
      else s' == s && root' == root
    ensures RootStep(s, root, s', root', 0)
  {
  }

  lemma MapWithout<K, V>(m: map<K, V>, k: K)
    requires k !in m
    ensures m - {k} == m
  {
  }

  /** A leaf's records carry no deletion mark, and tell whether the key is stored. */
  lemma LeafHolds(cmp: Cmp, s: seq<Page>, root: PageId, lv: seq<Level>, k: Key, i: nat)
    requires TreeOk(cmp, s, root, lv) && |lv| > 0 && i < |lv[0]| && InSpan(cmp, k, lv[0], i) && lv[0][i].pid < |s|
    ensures LeafRecs(s[lv[0][i].pid].recs)
    ensures k in ToMap(Records(s, lv[0])) <==> k in ToMap(s[lv[0][i].pid].recs)
  {
    LeafFacts(cmp, s, root, lv, NoGap, i);
    LevelFacts(cmp, s, root, lv, NoGap, 0);
    ShapeLeaves(cmp, s, root, lv, NoGap);
    hide Shape, ToMap, Records, Sorted;
    LookupInLeaf(cmp, s, lv[0], k, i);
  }

  /** The tree right after the record was taken out of its leaf. */
  lemma DeleteStart(cmp: Cmp, s: seq<Page>, root: PageId, lv: seq<Level>, k: Key, path: seq<PageId>, ix: seq<nat>,
                    s': seq<Page>)
    requires TreeOk(cmp, s, root, lv) && 0 < |lv| && TreeSteps(cmp, lv, path, k, ix, 0)
    requires lv[0][ix[0]].pid < |s|
    requires s' == s[lv[0][ix[0]].pid := s[lv[0][ix[0]].pid].(recs := WithoutKey(s[lv[0][ix[0]].pid].recs, k))]
    ensures Shape(cmp, s', root, lv, NoGap) && Room(s', lv) && FilledBut(s', lv, path[|path| - 1])
    ensures ToMap(Records(s', lv[0])) == ToMap(Records(s, lv[0])) - {k}
    ensures |s'| == |s| <= MAX_PAGES && (SmallStore(s) ==> SmallStore(s'))
  {
    hide Shape, Room, Filled, FilledBut, ToMap, Records, WithoutKey, InSpan, Order;
    RemoveFromLeaf(cmp, s, root, lv, k, ix[0], s');
    if SmallStore(s) {
      SmallWithout(s, lv[0][ix[0]].pid, k);
    }
  }

  lemma SmallWithout(s: seq<Page>, pid: PageId, k: Key)
    requires SmallStore(s) && pid < |s|
    ensures SmallStore(s[pid := s[pid].(recs := WithoutKey(s[pid].recs, k))])
  {
    hide WithoutKey;
    assert AllSmall(s[pid].recs);
    forall t | 0 <= t < |WithoutKey(s[pid].recs, k)|
      ensures Small(WithoutKey(s[pid].recs, k)[t])
    {
      WithoutKeyMember(s[pid].recs, k, t);
    }
  }

  lemma DeleteGuard(cmp: Cmp, s: seq<Page>, root: PageId, k: Key, leafId: PageId, s1: seq<Page>, path: seq<PageId>)
    requires path == FullPath(cmp, s, root, k) && |path| > 0 && leafId == path[|path| - 1] && leafId < |s|
    requires s1 == s[leafId := s[leafId].(recs := WithoutKey(s[leafId].recs, k))]
    ensures DeleteSafe(cmp, s, root, k) <==> MergeKeeps(s1, path)
  {
    hide FullPath, WithoutKey, MergeKeeps;
  }

  /** In a tree, searching is looking up the map. */
  lemma SearchesAgree(cmp: Cmp, s: seq<Page>, root: PageId, lv: seq<Level>)
    requires TreeOk(cmp, s, root, lv)
    ensures |lv| > 0 && forall x :: Lookup(cmp, s, root, x) == MapLookup(ToMap(Records(s, lv[0])), x)
  {
    HeightBound(cmp, s, root, lv);
    forall x
      ensures Lookup(cmp, s, root, x) == MapLookup(ToMap(Records(s, lv[0])), x)
    {
      hide Shape, Room, Filled, ToMap, Records, Lookup;
      LookupIsContents(cmp, s, root, lv, x);
    }
  }

  lemma SmallParent(s: seq<Page>, child: PageId, parent: PageId)
    requires SmallStore(s) && child < |s|
    ensures SmallStore(s[child := s[child].(parent := parent)])
  {
  }

  lemma TreeOkIntro(cmp: Cmp, s: seq<Page>, root: PageId, lv: seq<Level>, pid: PageId)
    requires TreeBut(cmp, s, root, lv, pid) && Filled(s, lv) && |s| <= MAX_PAGES
    ensures TreeOk(cmp, s, root, lv)
  {
    hide Shape, Room, Filled;
  }

  lemma SecondDone(cmp: Cmp, s0: seq<Page>, lv0: seq<Level>, root: PageId, s: seq<Page>, lv: seq<Level>,
                   path: seq<PageId>, k: Key, ix: seq<nat>)
    requires MergedOnce(cmp, s0, lv0, root, s, lv, path, k, ix) && Filled(s, lv) && |s| <= MAX_PAGES
    ensures TreeOk(cmp, s, root, lv)
    ensures |lv0| > 0 && |lv0[0]| > 0 && |lv[0]| > 0 && lv[0][0].pid == lv0[0][0].pid
      && Records(s, lv[0]) == Records(s0, lv0[0])
  {
    hide Shape, Room, Filled, Fits, Records;
  }

  lemma ShrunkDone(cmp: Cmp, s: seq<Page>, root: PageId, lv: seq<Level>)
    requires Order(cmp) && Shape(cmp, s, root, lv, NoGap) && Room(s, lv) && Filled(s, lv) && |s| <= MAX_PAGES
    ensures TreeOk(cmp, s, root, lv)
  {
  }

  /** The merge test of rebalance_after_delete counts everything, slots included. */
  lemma MergeTest(l: seq<Rec>, r: seq<Rec>)
    ensures Fits(l + r) <==> SLOT_SIZE * (|l| + |r|) + DataSize(l) + DataSize(r) <= PAGE_SIZE - PAGE_HEADER_SIZE
  {
    DataSizeConcat(l, r);
  }

  lemma PositionOfChild(s: seq<Page>, parent: PageId, node: PageId, c0: nat, pos: int)
    requires Mergeable(s, parent, node) && c0 <= |s[parent].recs| && ChildAt(s[parent], c0) == node
    requires -2 <= pos < |s[parent].recs| && (pos == -1 <==> s[parent].firstChild == node)
    requires pos >= 0 ==> ChildOf(s[parent].recs[pos]) == node
    requires pos == -2 ==> forall t :: 0 <= t < |s[parent].recs| ==> ChildOf(s[parent].recs[t]) != node
    ensures pos == c0 - 1
  {
    assert pos == -1 ==> ChildAt(s[parent], 0) == node;
    assert pos >= 0 ==> ChildAt(s[parent], pos + 1) == node;
    assert c0 > 0 ==> ChildOf(s[parent].recs[c0 - 1]) == node;
  }

  lemma MergeDone(s: seq<Page>, s': seq<Page>, left: PageId, right: PageId, parent: PageId, c: nat)
    requires left < |s| && right < |s| && parent < |s| && c < |s[parent].recs| && left != parent
    requires s[right].next != INVALID_PAGE_ID ==>
      s[right].next < |s| && s[right].next != left && s[right].next != parent
    requires var after := s[right].next;
             var linked := if after == INVALID_PAGE_ID then s else s[after := s[after].(prev := left)];
             s' == linked[left := s[left].(recs := s[left].recs + s[right].recs, next := s[right].next)]
                         [parent := s[parent].(recs := RemoveAt(s[parent].recs, c))]
    ensures LeafMerge(s, s', left, right, parent, c)
  {
  }

  /** The leaf a put goes to. */
  lemma PutLeaf(cmp: Cmp, s: seq<Page>, root: PageId, lv: seq<Level>, i: nat)
    requires TreeOk(cmp, s, root, lv) && |lv| > 0 && i < |lv[0]| && lv[0][i].pid < |s|
    ensures var leaf := s[lv[0][i].pid];
            && Order(cmp) && Sorted(cmp, leaf.recs) && leaf.kind == LeafPage
            && (leaf.next != INVALID_PAGE_ID ==> leaf.next < |s| && leaf.next != lv[0][i].pid && leaf.next != leaf.prev)
            && (leaf.prev != INVALID_PAGE_ID ==>
              leaf.prev < |s| && leaf.prev != lv[0][i].pid && s[leaf.prev].next == lv[0][i].pid)
  {
    LeafFacts(cmp, s, root, lv, NoGap, i);
    LevelFacts(cmp, s, root, lv, NoGap, 0);
    ShapeLeaves(cmp, s, root, lv, NoGap);
    hide Shape;
    assert LinkAt(s, lv[0], i);
    if i > 0 {
      assert LinkAt(s, lv[0], i - 1);
    }
  }

  /** Both record buffers of btree_put are one page long. */
  predicate Packs(k: Key, v: Value) {
    RecSize(LeafRec(k, v, false)) <= PAGE_SIZE && RecSize(ChildRec(k, 0)) <= PAGE_SIZE
  }

  lemma PutFitsCases(cmp: Cmp, s: seq<Page>, root: PageId, k: Key, v: Value, leafId: PageId)
    requires leafId < |s|
    requires var path := FullPath(cmp, s, root, k); leafId == path[|path| - 1]
    ensures var recs, r := s[leafId].recs, LeafRec(k, v, false);
            var all := Upserted(cmp, recs, r);
            var path := FullPath(cmp, s, root, k);
            PutFits(cmp, s, root, k, v) <==>
            (InsertFits(WithoutKey(recs, k), r) ||
             (LeafHalvesFit(all) && AscentFits(cmp, s, path, |path| - 2, all[|all| / 2].key, |s|)))
  {
    hide FullPath, Upserted, WithoutKey, InsertFits, LeafHalvesFit, AscentFits;
  }

  lemma PutRefillsCases(cmp: Cmp, s: seq<Page>, root: PageId, k: Key, v: Value, leafId: PageId)
    requires leafId < |s|
    requires var path := FullPath(cmp, s, root, k); leafId == path[|path| - 1]
    ensures var recs, r := s[leafId].recs, LeafRec(k, v, false);
            var all := Upserted(cmp, recs, r);
            var path := FullPath(cmp, s, root, k);
            PutRefills(cmp, s, root, k, v) ==
              if InsertFits(WithoutKey(recs, k), r) then Whole
              else Worse(LeafRefilled(all), AscentRefills(cmp, s, path, |path| - 2, all[|all| / 2].key, |s|))
  {
    hide FullPath, Upserted, WithoutKey, InsertFits, LeafRefilled, AscentRefills, Worse;
  }

  lemma TwoAtLeast(cmp: Cmp, recs: seq<Rec>, r: Rec)
    requires Order(cmp) && Sorted(cmp, recs) && !InsertFits(WithoutKey(recs, r.key), r)
    ensures LeafRefilled(Upserted(cmp, recs, r)) == Whole ==> |Upserted(cmp, recs, r)| >= 2
  {
    hide Order, Sorted, Upserted, WithoutKey, Fits, InsertFits, Kept;
    PutLeafFits(cmp, recs, r);
  }

  lemma LeafFitsKept(all: seq<Rec>)
    requires LeafHalvesFit(all)
    ensures Kept(all[..|all| / 2]) == all[..|all| / 2] && Kept(all[|all| / 2..]) == all[|all| / 2..]
  {
    KeptFacts(all[..|all| / 2]);
    KeptFacts(all[|all| / 2..]);
  }

  lemma FoundMeans(cmp: Cmp, a: Aim, s: seq<Page>, root: PageId)
    requires Found(cmp, a, s, root)
    ensures a.keeps <==> forall x :: Lookup(cmp, s, root, x) == MapLookup(ToMap(a.recs), x)
  {
    hide Lookup, ToMap;
  }

  /** What a put into a full leaf should leave. */
  lemma PutAim(cmp: Cmp, s: seq<Page>, root: PageId, lv: seq<Level>, k: Key, v: Value, path: seq<PageId>,
               ix: seq<nat>, all: seq<Rec>)
    requires TreeOk(cmp, s, root, lv) && 0 < |lv| && TreeSteps(cmp, lv, path, k, ix, 0) && lv[0][ix[0]].pid < |s|
    requires all == Upserted(cmp, s[lv[0][ix[0]].pid].recs, LeafRec(k, v, false))
    ensures ix[0] < |lv[0]| && LeafOk(cmp, all, lv[0], ix[0]) && LeafRecs(all) && all != []
    ensures ToMap(Wanted(s, lv[0], ix[0], all)) == ToMap(Records(s, lv[0]))[k := v]
  {
    hide Shape, Upserted, ToMap, Records, LeafOk, Leaves, Ascending, Order, Room, Filled, InSpan;
    var i, recs, r := ix[0], s[lv[0][ix[0]].pid].recs, LeafRec(k, v, false);
    LeafFacts(cmp, s, root, lv, NoGap, i);
    LevelFacts(cmp, s, root, lv, NoGap, 0);
    ShapeLeaves(cmp, s, root, lv, NoGap);
    UpsertedNotEmpty(cmp, recs, r);
    LeafSorted(cmp, recs, lv[0], i);
    UpsertedFacts(cmp, recs, r);
    UpsertedLeafOk(cmp, lv[0], i, recs, k, v);
    LeafPutContents(cmp, s, lv[0], i, k, v, all);
  }

  lemma IsIntact(cmp: Cmp, s: seq<Page>, root: PageId, lv: seq<Level>)
    requires TreeOk(cmp, s, root, lv)
    ensures 0 < |lv| && Intact(cmp, s, root, ToMap(Records(s, lv[0])))
  {
    FirstLeaf(cmp, s, root, lv);
    hide TreeOk, ToMap, Records;
  }

  lemma NotIntact(cmp: Cmp, s: seq<Page>, root: PageId, m: map<Key, Value>)
    requires forall lv :: !TreeOk(cmp, s, root, lv)
    ensures !Intact(cmp, s, root, m)
  {
    hide TreeOk, ToMap, Records;
  }

  lemma ArrivedParts(cmp: Cmp, o: Origin, s: seq<Page>, root: PageId, lv: seq<Level>)
    requires Arrived(cmp, o, s, root, lv)
    ensures !o.torn && o.fits ==>
      && Shape(cmp, s, root, lv, NoGap) && Loaded(s, lv) && 0 < |lv| && lv[0] == o.leaves && Records(s, lv[0]) == o.recs
      && (o.small ==> SmallStore(s))
    ensures !o.torn && !o.fits ==> forall lvz :: !TreeOk(cmp, s, root, lvz)
    ensures o.torn ==> Later(o.base, s, o.below, 0, o.up) && RootOf(s, root, o.root)
  {
    hide TreeOk, Loaded, Records, SmallStore, Later, RootOf;
  }

  lemma FillOne(p: Page, r: Rec)
    ensures Fill(p, [r]) == AllocSlot(p, r)
  {
    assert [r][..0] == [];
  }

  /** A leaf whose halves do not fit was split anyway. */
  lemma LeafTorn(cmp: Cmp, s: seq<Page>, root: PageId, lv: seq<Level>, k: Key, v: Value, path: seq<PageId>,
                 ix: seq<nat>, s': seq<Page>)
    requires TreeOk(cmp, s, root, lv) && 0 < |lv| && TreeSteps(cmp, lv, path, k, ix, 0)
    requires lv[0][ix[0]].pid < |s|
    requires var all := Upserted(cmp, s[lv[0][ix[0]].pid].recs, LeafRec(k, v, false));
      LeafSplit(s, s', lv[0][ix[0]].pid, Kept(all[..|all| / 2]), Kept(all[|all| / 2..]))
    ensures 0 < |path| && ix[0] < |lv[0]|
    ensures var all := Upserted(cmp, s[lv[0][ix[0]].pid].recs, LeafRec(k, v, false)); var up := path[..|path| - 1];
      && Drifting(cmp, s', s', lv, 0, up, path, |path| - 2, |s|, root)
      && |s| !in up && (forall j :: 0 <= j < |lv[0]| ==> lv[0][j].pid !in up)
      && LeafCut(cmp, s, root, lv, ix[0], all, s', Kept(all[..|all| / 2]), Kept(all[|all| / 2..]))
      && ToMap(Wanted(s, lv[0], ix[0], all)) == ToMap(Records(s, lv[0]))[k := v]
  {
    hide Shape, Upserted, ToMap, Records, LeafOk, Order, LeafSplit, Room, Filled, InSpan, Kept, Drifting, Wanted;
    var all := Upserted(cmp, s[lv[0][ix[0]].pid].recs, LeafRec(k, v, false));
    PutAim(cmp, s, root, lv, k, v, path, ix, all);
    KeptFacts(all[..|all| / 2]);
    KeptFacts(all[|all| / 2..]);
    TornLeafStart(cmp, s, root, lv, path, k, ix, s', Kept(all[..|all| / 2]), Kept(all[|all| / 2..]));
  }

  lemma LeafSorted(cmp: Cmp, recs: seq<Rec>, es: Level, i: nat)
    requires LeafOk(cmp, recs, es, i)
    ensures Sorted(cmp, recs)
  {
  }

  /** The first search of btree_put, and what removing the key leaves. */
  lemma KeySearched(cmp: Cmp, recs: seq<Rec>, k: Key, idx: int)
    requires Order(cmp) && Sorted(cmp, recs)
    requires idx >= 0 ==> idx < |recs| && recs[idx].key == k
    requires idx < 0 ==> forall t :: 0 <= t < |recs| ==>
      if t < -idx - 1 then Lt(cmp, recs[t].key, k) else Lt(cmp, k, recs[t].key)
    ensures WithoutKey(recs, k) == if idx >= 0 then RemoveAt(recs, idx) else recs
    ensures Sorted(cmp, WithoutKey(recs, k))
  {
    WithoutKeyFacts(cmp, recs, k);
    if idx >= 0 {
      KeyPosUnique(cmp, recs, k, idx);
    } else {
      FoundInLeaf(cmp, recs, k, idx);
      ToMapKeys(recs, k);
    }
  }

  /** The second search: it does not find the key, and its place is where the record goes. */
  lemma KeyAbsent(cmp: Cmp, recs: seq<Rec>, r: Rec, idx: int)
    requires Order(cmp) && Sorted(cmp, recs) && Sorted(cmp, WithoutKey(recs, r.key))
    requires var base := WithoutKey(recs, r.key);
             && (idx >= 0 ==> idx < |base| && base[idx].key == r.key)
             && (idx < 0 ==> -idx - 1 <= |base|)
             && (idx < 0 ==> forall t :: 0 <= t < |base| ==>
               if t < -idx - 1 then Lt(cmp, base[t].key, r.key) else Lt(cmp, r.key, base[t].key))
    ensures var base := WithoutKey(recs, r.key);
            && idx < 0 && -idx - 1 <= |base| && -idx - 1 == UpperPos(cmp, base, r.key)
            && Upserted(cmp, recs, r) == InsertAt(base, -idx - 1, r)
  {
    hide ToMap, Sorted, Order, WithoutKey, IsUpper;
    var base := WithoutKey(recs, r.key);
    WithoutKeyFacts(cmp, recs, r.key);
    UpperPosIsUpper(cmp, base, r.key);
    GapIsUpper(cmp, base, r.key, -idx - 1);
    UpperUnique(cmp, base, r.key, -idx - 1, UpperPos(cmp, base, r.key));
  }

  lemma GapIsUpper(cmp: Cmp, recs: seq<Rec>, k: Key, c: nat)
    requires Order(cmp) && c <= |recs|
    requires forall t :: 0 <= t < |recs| ==> if t < c then Lt(cmp, recs[t].key, k) else Lt(cmp, k, recs[t].key)
    ensures IsUpper(cmp, recs, k, c)
  {
  }

  lemma PutDone(cmp: Cmp, s: seq<Page>, root: PageId, lv: seq<Level>, k: Key, v: Value, i: nat, s': seq<Page>)
    requires TreeOk(cmp, s, root, lv)
    requires |lv| > 0 && i < |lv[0]| && InSpan(cmp, k, lv[0], i) && lv[0][i].pid < |s|
    requires InsertFits(WithoutKey(s[lv[0][i].pid].recs, k), LeafRec(k, v, false))
    requires s' == s[lv[0][i].pid := s[lv[0][i].pid].(recs := Upserted(cmp, s[lv[0][i].pid].recs,
      LeafRec(k, v, false)))]
    ensures TreeOk(cmp, s', root, lv)
    ensures ToMap(Records(s', lv[0])) == ToMap(Records(s, lv[0]))[k := v]
    ensures SmallStore(s) && |k| + |v| <= MAX_PAYLOAD ==> SmallStore(s')
  {
    hide Shape, Upserted, WithoutKey, InsertFits, ToMap, Records, InSpan, Order;
    PutInPlace(cmp, s, root, lv, k, v, i, s');
    if SmallStore(s) && |k| + |v| <= MAX_PAYLOAD {
      SmallUpserted(cmp, s[lv[0][i].pid].recs, LeafRec(k, v, false));
    }
  }

  lemma SmallUpserted(cmp: Cmp, recs: seq<Rec>, r: Rec)
    requires AllSmall(recs) && Small(r)
    ensures AllSmall(Upserted(cmp, recs, r))
  {
    hide Upserted;
    forall t | 0 <= t < |Upserted(cmp, recs, r)|
      ensures Small(Upserted(cmp, recs, r)[t])
    {
      UpsertedMember(cmp, recs, r, t);
    }
  }

  lemma PutSplit(cmp: Cmp, s: seq<Page>, root: PageId, lv: seq<Level>, k: Key, v: Value, path: seq<PageId>,
                 ix: seq<nat>, s': seq<Page>)
    requires TreeOk(cmp, s, root, lv) && 0 < |lv| && TreeSteps(cmp, lv, path, k, ix, 0)
    requires lv[0][ix[0]].pid < |s|
    requires var recs, r := s[lv[0][ix[0]].pid].recs, LeafRec(k, v, false);
             var all := Upserted(cmp, recs, r);
             && !InsertFits(WithoutKey(recs, k), r) && LeafHalvesFit(all)
             && |all| / 2 < |all|
             && LeafSplit(s, s', lv[0][ix[0]].pid, all[..|all| / 2], all[|all| / 2..])
    ensures var all := Upserted(cmp, s[lv[0][ix[0]].pid].recs, LeafRec(k, v, false));
            var sep := all[|all| / 2].key;
            var lv' := lv[0 := SplitLevel(lv[0], ix[0], sep, |s|)];
            && Climbing(cmp, s', root, lv', path, k, ix, 0, sep, |s|) && Loaded(s', lv')
            && AscentFits(cmp, s', path, |path| - 2, sep, |s|) == AscentFits(cmp, s, path, |path| - 2, sep, |s|)
            && ToMap(Records(s', lv'[0])) == ToMap(Records(s, lv[0]))[k := v]
  {
    hide Shape, Upserted, WithoutKey, InsertFits, ToMap, Records, InSpan, LeafHalvesFit, AscentFits, LeafSplit,
      Loaded, Climbing, Order, Room, Filled, Placed, Distinct, Linked;
    var recs, r := s[lv[0][ix[0]].pid].recs, LeafRec(k, v, false);
    var all := Upserted(cmp, recs, r);
    PutBySplit(cmp, s, root, lv, k, v, ix[0], all, s');
    ShapeParts(cmp, s, root, lv, NoGap);
    ClimbStart(cmp, s, root, lv, path, k, ix, all[..|all| / 2], all[|all| / 2..], s');
  }

  lemma PutSplitSmall(cmp: Cmp, s: seq<Page>, pid: PageId, k: Key, v: Value, s': seq<Page>)
    requires SmallStore(s) && |k| + |v| <= MAX_PAYLOAD && pid < |s|
    requires var all := Upserted(cmp, s[pid].recs, LeafRec(k, v, false));
             |all| / 2 < |all| && LeafSplit(s, s', pid, all[..|all| / 2], all[|all| / 2..])
    ensures var all := Upserted(cmp, s[pid].recs, LeafRec(k, v, false));
            SmallStore(s') && |all[|all| / 2].key| <= MAX_PAYLOAD
  {
    hide Upserted, LeafSplit;
    var all := Upserted(cmp, s[pid].recs, LeafRec(k, v, false));
    SmallUpserted(cmp, s[pid].recs, LeafRec(k, v, false));
    SmallSplit(s, s', pid, all[..|all| / 2], all[|all| / 2..]);
  }

  lemma PutClimbed(cmp: Cmp, s: seq<Page>, root: PageId, lv: seq<Level>)
    requires Order(cmp) && Shape(cmp, s, root, lv, NoGap) && Loaded(s, lv) && |s| <= MAX_PAGES
    ensures TreeOk(cmp, s, root, lv)
  {
    hide Shape, Order;
  }

  lemma InsertPosition(cmp: Cmp, p: Page, sep: Key, pid: PageId, pos: nat)
    requires Order(cmp) && Sorted(cmp, p.recs) && IsUpper(cmp, p.recs, sep, pos)
    ensures pos == UpperPos(cmp, p.recs, sep)
    ensures TakenUp(cmp, p, sep, pid) == p.(recs := InsertAt(p.recs, pos, ChildRec(sep, pid)))
  {
    UpperPosIsUpper(cmp, p.recs, sep);
    UpperUnique(cmp, p.recs, sep, pos, UpperPos(cmp, p.recs, sep));
  }

  lemma FillNone(p: Page, ra: seq<Rec>, i: nat)
    requires i <= |ra|
    ensures Fill(p, ra[i..i]) == p
  {
  }

  lemma FillStep(p: Page, ra: seq<Rec>, lo: nat, i: nat)
    requires lo <= i < |ra|
    ensures Fill(p, ra[lo..i + 1]) == AllocSlot(Fill(p, ra[lo..i]), ra[i])
  {
    hide AllocSlot;
    SliceSlice(ra, lo, i + 1, 0, i - lo);
    assert ra[lo..i + 1][..i - lo] == ra[lo..i + 1][0..i - lo];
  }

  /** The store while a split internal page hands over its children: those of
      records `mid` to `i` of the array already name the new last page. */
  ghost predicate MovedPart(s: seq<Page>, s': seq<Page>, pid: PageId, left: Page, ra: seq<Rec>, mid: nat, i: nat) {
    && pid < |s| && mid <= i <= |ra|
    && |s'| == |s| + 1
    && s'[pid] == left
    && (forall x :: 0 <= x < |s| && x != pid ==>
          s'[x] == if Moved(ra[..i], mid, x) then s[x].(parent := |s|) else s[x])
  }

  lemma MovedFirst(s: seq<Page>, s': seq<Page>, pid: PageId, left: Page, ra: seq<Rec>, mid: nat)
    requires pid < |s| && mid < |ra| && ChildOf(ra[mid]) < |s| && ChildOf(ra[mid]) != pid
    requires var t := s[pid := left] + [InitPage(InternalPage)];
             s' == t[ChildOf(ra[mid]) := t[ChildOf(ra[mid])].(parent := |s|)]
    ensures MovedPart(s, s', pid, left, ra, mid, mid + 1)
  {
    forall x | 0 <= x < |s| && x != pid
      ensures s'[x] == if Moved(ra[..mid + 1], mid, x) then s[x].(parent := |s|) else s[x]
    {
      if x == ChildOf(ra[mid]) {
        assert ra[..mid + 1][mid] == ra[mid];
      }
    }
  }

  lemma MovedStep(s: seq<Page>, s': seq<Page>, pid: PageId, left: Page, ra: seq<Rec>, mid: nat, i: nat)
    requires MovedPart(s, s', pid, left, ra, mid, i) && i < |ra|
    requires ChildOf(ra[i]) < |s| && ChildOf(ra[i]) != pid
    ensures |s'| == |s| + 1
    ensures MovedPart(s, s'[ChildOf(ra[i]) := s'[ChildOf(ra[i])].(parent := |s|)], pid, left, ra, mid, i + 1)
  {
    var s'' := s'[ChildOf(ra[i]) := s'[ChildOf(ra[i])].(parent := |s|)];
    forall x | 0 <= x < |s| && x != pid
      ensures s''[x] == if Moved(ra[..i + 1], mid, x) then s[x].(parent := |s|) else s[x]
    {
      MovedExtend(ra, mid, i, x);
    }
  }

  lemma MovedExtend(ra: seq<Rec>, mid: nat, i: nat, x: PageId)
    requires mid <= i < |ra|
    ensures Moved(ra[..i + 1], mid, x) <==> Moved(ra[..i], mid, x) || x == ChildOf(ra[i])
  {
    assert ra[..i + 1][i] == ra[i];
    if Moved(ra[..i], mid, x) {
      var t :| mid <= t < i && ChildOf(ra[..i][t]) == x;
      assert ChildOf(ra[..i + 1][t]) == x;
    }
    if Moved(ra[..i + 1], mid, x) {
      var t :| mid <= t < i + 1 && ChildOf(ra[..i + 1][t]) == x;
      assert t < i ==> ChildOf(ra[..i][t]) == x;
    }
  }

  lemma MovedAll(s: seq<Page>, s': seq<Page>, pid: PageId, page: Page, left: Page, ra: seq<Rec>, mid: nat)
    requires MovedPart(s, s', pid, left, ra, mid, |ra|) && pid < |s| && page == s[pid]
    requires page.kind == InternalPage && page.prev == page.next == INVALID_PAGE_ID && mid < |ra|
    requires left == InitPage(InternalPage).(parent := page.parent, firstChild := page.firstChild, recs := left.recs)
    ensures |s'| == |s| + 1
    ensures forall right :: InternalParts(s[pid := page.(recs := ra)],
      s'[|s| := Page(InternalPage, page.parent, INVALID_PAGE_ID, INVALID_PAGE_ID, ChildOf(ra[mid]), right)], pid, mid,
        left.recs, right)
  {
    assert ra[..|ra|] == ra;
  }

  lemma WholePath(cmp: Cmp, s: seq<Page>, root: PageId, k: Key)
    ensures FullPath(cmp, s, root, k)[0..] == PathOf(cmp, s, root, k, BTREE_MAX_DEPTH - 1)
  {
  }

  lemma PidsAppend(path: seq<PathEntry>, e: PathEntry, full: seq<PageId>)
    requires |path| < |full| && Pids(path) == full[..|path|] && full[|path|] == e.pid
    ensures Pids(path + [e]) == full[..|path| + 1]
  {
  }

  lemma TreePathLength(cmp: Cmp, s: seq<Page>, root: PageId, lv: seq<Level>, k: Key)
    requires TreeOk(cmp, s, root, lv)
    ensures Order(cmp) && 0 < |FullPath(cmp, s, root, k)| == |lv| <= 33
  {
    var ix := TreePath(cmp, s, root, lv, k);
  }

  /** One step of the descent, `depth` pages below the root. */
  lemma PathStep(cmp: Cmp, s: seq<Page>, root: PageId, lv: seq<Level>, k: Key, depth: nat, pid: PageId)
    requires TreeOk(cmp, s, root, lv) && depth < |FullPath(cmp, s, root, k)| <= 33
    requires FullPath(cmp, s, root, k)[depth..] == PathOf(cmp, s, pid, k, BTREE_MAX_DEPTH - 1 - depth)
    ensures var full := FullPath(cmp, s, root, k);
            && full[depth] == pid && pid < |s| && Sorted(cmp, s[pid].recs)
            && (s[pid].kind == LeafPage ==> depth + 1 == |full|)
            && (s[pid].kind != LeafPage ==>
                  && depth + 1 < |full|
                  && full[depth + 1..] == PathOf(cmp, s, ChildAt(s[pid], UpperPos(cmp, s[pid].recs, k)), k,
                    BTREE_MAX_DEPTH - 2 - depth))
  {
    var full := FullPath(cmp, s, root, k);
    var ix := TreePath(cmp, s, root, lv, k);
    hide TreeOk, FullPath;
    assert full[depth] == full[depth..][0];
    assert lv[|lv| - 1 - depth][ix[|lv| - 1 - depth]].pid == pid;
    assert full[depth + 1..] == full[depth..][1..];
    assert PageOk(s[pid], |lv| - 1 - depth);
  }

  /** A record takes less than its page. */
  lemma RecInPage(cmp: Cmp, s: seq<Page>, root: PageId, lv: seq<Level>, i: nat, t: nat)
    requires TreeOk(cmp, s, root, lv) && |lv| > 0 && i < |lv[0]| && lv[0][i].pid < |s| && t < |s[lv[0][i].pid].recs|
    ensures RecSize(s[lv[0][i].pid].recs[t]) <= PAGE_SIZE
  {
    hide Shape, Filled;
    var recs := s[lv[0][i].pid].recs;
    PageRoom(s, lv, 0, i);
    assert recs == recs[..t] + [recs[t]] + recs[t + 1..];
    UsedConcat(recs[..t] + [recs[t]], recs[t + 1..]);
    UsedConcat(recs[..t], [recs[t]]);
    UsedOne(recs[t]);
  }

  /** The leaf at the end of a key's path decides whether the key is stored. */
  lemma LeafOfPath(cmp: Cmp, s: seq<Page>, root: PageId, lv: seq<Level>, k: Key, ix: seq<nat>)
    requires TreeOk(cmp, s, root, lv) && |ix| == |lv| == |FullPath(cmp, s, root, k)|
    requires ix[0] < |lv[0]| && InSpan(cmp, k, lv[0], ix[0])
    requires lv[0][ix[0]].pid == FullPath(cmp, s, root, k)[|lv| - 1]
    ensures var recs := PageAt(s, FullPath(cmp, s, root, k)[|lv| - 1]).recs;
            && LeafOk(cmp, recs, lv[0], ix[0]) && LeafRecs(recs)
            && (k in ToMap(Records(s, lv[0])) <==> k in ToMap(recs))
            && (k in ToMap(Records(s, lv[0])) ==> ToMap(Records(s, lv[0]))[k] == ToMap(recs)[k])
  {
    LevelFacts(cmp, s, root, lv, NoGap, 0);
    assert LeafAt(cmp, s, lv[0], ix[0]);
    assert PageOk(s[lv[0][ix[0]].pid], 0);
    hide ToMap, Records, Linked, Parents, Chain, Distinct, FullPath;
    LookupInLeaf(cmp, s, lv[0], k, ix[0]);
  }

  /** leaf_find_key's answer, in terms of the leaf's map. */
  lemma FoundInLeaf(cmp: Cmp, recs: seq<Rec>, k: Key, idx: int)
    requires Order(cmp) && Sorted(cmp, recs)
    requires idx >= 0 ==> idx < |recs| && recs[idx].key == k
    requires idx < 0 ==> forall t :: 0 <= t < |recs| ==>
      if t < -idx - 1 then Lt(cmp, recs[t].key, k) else Lt(cmp, k, recs[t].key)
    ensures idx >= 0 <==> k in ToMap(recs)
    ensures idx >= 0 ==> ToMap(recs)[k] == ValOf(recs[idx])
  {
    ToMapKeys(recs, k);
    hide ToMap;
    if idx >= 0 {
      ToMapAt(cmp, recs, idx);
    } else {
      forall t | 0 <= t < |recs|
        ensures recs[t].key != k
      {
        assert !Lt(cmp, k, k);
      }
    }
  }
}
