/** The storage layer as an array of pages that grows when written past its end
    (src/storage.c). */
module Storage {
  import opened Pages

  /** The storage layer's write: past the end, the gap is filled with zero pages. */
  function StoreWrite<T>(store: seq<T>, pid: PageId, page: T, zero: T): (r: seq<T>)
    ensures |r| == if pid < |store| then |store| else pid + 1
    ensures r[pid] == page
    ensures forall q :: 0 <= q < |r| && q != pid ==> r[q] == if q < |store| then store[q] else zero
  {
    if pid < |store| then store[pid := page]
    else store + seq(pid - |store|, _ => zero) + [page]
  }

  /** Writing back a cached page disturbs no other page id, present or absent, exactly when
      the page leaves no gap after the end of the store. */
  lemma StoreWriteLocal<T>(store: seq<T>, pid: PageId, page: T, zero: T)
    ensures pid <= |store| <==> forall q: PageId :: q != pid ==>
      StoredAt(StoreWrite(store, pid, page, zero), q) == StoredAt(store, q)
  {
    var r := StoreWrite(store, pid, page, zero);
    if pid > |store| {
      assert StoredAt(r, |store|) != StoredAt(store, |store|);
    }
  }

  datatype Stored<T> = Absent | Present(page: T)

  function StoredAt<T>(store: seq<T>, q: PageId): Stored<T> {
    if q < |store| then Present(store[q]) else Absent
  }
}
