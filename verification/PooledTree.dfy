/** A tree whose callbacks go to a buffer pool: call by call the pool answers as the tree's own
    store of pages, and flushing leaves the tree in the store below. */
module PooledTrees {
  import opened Comparator
  import opened Pages
  import opened Levels
  import opened Contents
  import opened Search
  import opened Descent
  import opened Height
  import opened BTrees
  import opened HashTables
  import opened PoolSteps
  import opened BufferPools

  /** The pool stands for the pages of the tree. */
  ghost predicate Mirrors(tree: BTree, pool: BufferPool<Page>)
    reads tree, pool, pool.frames, pool.table, pool.table.slots
  {
    pool.Valid() && pool.NoGaps() && pool.Contents() == tree.store
  }

  /** bp_read in place of the tree's read callback. */
  method ReadBoth(tree: BTree, pool: BufferPool<Page>, pid: PageId) returns (err: Error, page: Page)
    requires Mirrors(tree, pool)
    modifies pool, pool.frames, pool.table, pool.table.slots
    ensures Mirrors(tree, pool) && tree.store == old(tree.store)
    ensures err == (if pid < |tree.store| then Ok else IoError) && (err == Ok ==> page == tree.store[pid])
  {
    hide View, Dense, Cached, HashTable.Valid;
    err, page := pool.Read(pid);
  }

  /** bp_write in place of the tree's write callback. */
  method WriteBoth(tree: BTree, pool: BufferPool<Page>, pid: PageId, page: Page)
    requires Mirrors(tree, pool) && pid < |tree.store|
    modifies tree`store, pool, pool.frames, pool.table, pool.table.slots
    ensures Mirrors(tree, pool) && tree.store == old(tree.store)[pid := page]
  {
    hide View, Dense, Cached, HashTable.Valid;
    tree.WritePage(pid, page);
    pool.Write(pid, page);
  }

  /** bp_alloc in place of the tree's alloc callback. */
  method AllocBoth(tree: BTree, pool: BufferPool<Page>, kind: Kind) returns (pid: PageId)
    requires Mirrors(tree, pool) && |tree.store| < MAX_PAGES
    modifies tree`store, pool
    ensures Mirrors(tree, pool) && pid == |old(tree.store)| && tree.store == old(tree.store) + [InitPage(kind)]
  {
    hide View, Dense, Cached, HashTable.Valid;
    var other := tree.AllocPage(kind);
    pid := pool.Alloc(InitPage(kind));
  }

  /** build_path with the pool under the tree. */
  method PathBoth(tree: BTree, pool: BufferPool<Page>, k: Key) returns (err: Error, path: seq<PathEntry>)
    requires Mirrors(tree, pool) && tree.Valid()
    modifies pool, pool.frames, pool.table, pool.table.slots
    ensures Mirrors(tree, pool) && err == Ok && |path| == |tree.levels| <= 33
    ensures Pids(path) == FullPath(tree.cmp, tree.store, tree.rootId, k)
    ensures forall d :: 0 <= d < |path| ==> path[d].pid < |tree.store| && path[d].page == tree.store[path[d].pid]
  {
    hide TreeOk, Order, PathOf, FullPath, UpperPos, ChildAt, Sorted, IsUpper, PageAt, Mirrors, HashTable.Valid,
      BufferPool.Valid;
    ghost var full := FullPath(tree.cmp, tree.store, tree.rootId, k);
    TreePathLength(tree.cmp, tree.store, tree.rootId, tree.levels, k);
    WholePath(tree.cmp, tree.store, tree.rootId, k);
    path := [];
    var pid := tree.rootId;
    while true
      invariant Mirrors(tree, pool) && |path| < |full|
      invariant full[|path|..] == PathOf(tree.cmp, tree.store, pid, k, BTREE_MAX_DEPTH - 1 - |path|)
      invariant Pids(path) == full[..|path|]
      invariant forall d :: 0 <= d < |path| ==> path[d].pid < |tree.store| && path[d].page == tree.store[path[d].pid]
      decreases |full| - |path|
    {
      PathStep(tree.cmp, tree.store, tree.rootId, tree.levels, k, |path|, pid);
      var page;
      err, page := ReadBoth(tree, pool, pid);
      if err != Ok {
        return;
      }
      PidsAppend(path, PathEntry(pid, page), full);
      path := path + [PathEntry(pid, page)];
      if page.kind == LeafPage {
        return;
      }
      pid := InternalFindChild(tree.cmp, page, k);
    }
  }

  /** btree_get with the pool under the tree: the answers of BTree.Get. */
  method GetBoth(tree: BTree, pool: BufferPool<Page>, k: Key, capacity: nat)
    returns (err: Error, valOut: seq<byte>, valLen: nat)
    requires Mirrors(tree, pool) && tree.Valid()
    modifies pool, pool.frames, pool.table, pool.table.slots
    ensures Mirrors(tree, pool) && tree.Valid() && tree.Contents() == old(tree.Contents())
    ensures err == (if k in tree.Contents() then Ok else NotFound)
    ensures err == Ok ==> valLen == |tree.Contents()[k]|
    ensures err == Ok ==> valOut == tree.Contents()[k][..if capacity < valLen then capacity else valLen]
  {
    hide Mirrors, HashTable.Valid, BufferPool.Valid;
    var path;
    err, path := PathBoth(tree, pool, k);
    var leaf := path[|path| - 1].page;
    ghost var ix := TreePath(tree.cmp, tree.store, tree.rootId, tree.levels, k);
    LeafOfPath(tree.cmp, tree.store, tree.rootId, tree.levels, k, ix);
    assert path[|path| - 1].pid == Pids(path)[|path| - 1];
    hide TreeOk, FullPath, Records, ToMap, InSpan;
    var idx := LeafFindKey(tree.cmp, leaf.recs, k);
    FoundInLeaf(tree.cmp, leaf.recs, k, idx);
    if idx < 0 || leaf.recs[idx].deleted {
      return NotFound, [], 0;
    }
    var rec := leaf.recs[idx];
    valLen := |rec.val|;
    valOut := rec.val[..if capacity < valLen then capacity else valLen];
    err := Ok;
  }

  /** After bp_flush_all the store below is the same well-formed tree: a search in it finds
      exactly the entries of the tree. */
  method Checkpoint(tree: BTree, pool: BufferPool<Page>)
    requires Mirrors(tree, pool) && tree.Valid()
    modifies pool, pool.frames
    ensures Mirrors(tree, pool) && tree.Valid() && tree.Contents() == old(tree.Contents())
    ensures TreeOk(tree.cmp, pool.store, tree.rootId, tree.levels)
    ensures forall k :: Lookup(tree.cmp, pool.store, tree.rootId, k) == MapLookup(tree.Contents(), k)
  {
    hide View, Dense, Cached, HashTable.Valid, TreeOk, Lookup, ToMap, Records;
    pool.FlushAll();
    SearchesAgree(tree.cmp, tree.store, tree.rootId, tree.levels);
  }
}
