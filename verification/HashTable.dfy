/** The open-addressing table from page numbers to frames (src/buffer_pool.c). */
module HashTables {
  import opened Pages
  import opened Bits

  datatype SlotState = Empty | Tomb | Occupied

  datatype HashSlot = HashSlot(state: SlotState, pid: PageId, frame: nat)

  /** The `i`-th slot of the probe sequence that starts at `h`. */
  function Probe(h: nat, i: nat, n: nat): (r: nat)
    requires h < n && i < n
    ensures r < n
  {
    if h + i < n then h + i else h + i - n
  }

  /** How many probes from `h` it takes to come to slot `j`. */
  function Dist(h: nat, j: nat, n: nat): (r: nat)
    requires h < n && j < n
    ensures r < n && Probe(h, r, n) == j
  {
    if j >= h then j - h else j + n - h
  }

  predicate Has(t: seq<HashSlot>, j: nat, p: PageId) {
    j < |t| && t[j].state == Occupied && t[j].pid == p
  }

  /** No probe from `h` meets an EMPTY slot before slot `j`. */
  predicate Clear(t: seq<HashSlot>, h: nat, j: nat)
    requires h < |t| && j < |t|
  {
    forall i :: 0 <= i < Dist(h, j, |t|) ==> t[Probe(h, i, |t|)].state != Empty
  }

  function Home(hash: PageId -> nat, p: PageId, n: nat): (r: nat)
    requires n > 0
    ensures r < n
  {
    hash(p) % n
  }

  /** The table stores exactly the entries of `m`: each once, and each where probing from its
      home slot comes to it. */
  ghost predicate TableOk(t: seq<HashSlot>, hash: PageId -> nat, m: map<PageId, nat>) {
    && |t| > 0
    && (forall j: nat, p :: Has(t, j, p) ==> p in m && m[p] == t[j].frame && Clear(t, Home(hash, p, |t|), j))
    && (forall j: nat, k: nat, p :: Has(t, j, p) && Has(t, k, p) ==> j == k)
    && (forall p :: p in m ==> exists j: nat :: Has(t, j, p))
  }

  lemma EmptyTable(t: seq<HashSlot>, hash: PageId -> nat)
    requires |t| > 0 && forall j :: 0 <= j < |t| ==> t[j].state == Empty
    ensures TableOk(t, hash, map[])
  {
  }

  /** The first `i` probes for `p` meet neither an EMPTY slot nor `p`. */
  ghost predicate Missed(t: seq<HashSlot>, h: nat, p: PageId, i: nat)
    requires h < |t| && i <= |t|
  {
    forall k {:trigger Probe(h, k, |t|)} :: 0 <= k < i ==>
      t[Probe(h, k, |t|)].state != Empty && !Has(t, Probe(h, k, |t|), p)
  }

  /** A stored page is met by probing, before any EMPTY slot. */
  lemma FoundAt(t: seq<HashSlot>, hash: PageId -> nat, m: map<PageId, nat>, p: PageId) returns (d: nat)
    requires TableOk(t, hash, m) && p in m
    ensures d < |t|
    ensures var h := Home(hash, p, |t|);
      Has(t, Probe(h, d, |t|), p) && forall i {:trigger Probe(h, i, |t|)} :: 0 <= i < d ==>
        t[Probe(h, i, |t|)].state != Empty
  {
    hide Home;
    var j: nat :| Has(t, j, p);
    d := Dist(Home(hash, p, |t|), j, |t|);
    assert Clear(t, Home(hash, p, |t|), j);
  }

  /** Meeting an EMPTY slot, or going all the way round, proves the page absent. */
  lemma NotThere(t: seq<HashSlot>, hash: PageId -> nat, m: map<PageId, nat>, p: PageId, i: nat)
    requires TableOk(t, hash, m) && i <= |t| && Missed(t, Home(hash, p, |t|), p, i)
    requires i < |t| ==> t[Probe(Home(hash, p, |t|), i, |t|)].state == Empty
    ensures p !in m
  {
    if p in m {
      var d := FoundAt(t, hash, m, p);
      assert false;
    }
  }

  /** The first `i` probes meet occupied slots only. */
  ghost predicate AllTaken(t: seq<HashSlot>, h: nat, i: nat)
    requires h < |t| && i <= |t|
  {
    forall k {:trigger Probe(h, k, |t|)} :: 0 <= k < i ==> t[Probe(h, k, |t|)].state == Occupied
  }

  /** Occupying a free slot that only occupied ones precede. */
  lemma Occupy(t: seq<HashSlot>, hash: PageId -> nat, m: map<PageId, nat>, p: PageId, frame: nat, i: nat)
    requires TableOk(t, hash, m) && p !in m && i < |t|
    requires AllTaken(t, Home(hash, p, |t|), i) && t[Probe(Home(hash, p, |t|), i, |t|)].state != Occupied
    ensures var j := Probe(Home(hash, p, |t|), i, |t|);
      TableOk(t[j := HashSlot(Occupied, p, frame)], hash, m[p := frame])
  {
    var h := Home(hash, p, |t|);
    var j := Probe(h, i, |t|);
    var u := t[j := HashSlot(Occupied, p, frame)];
    assert Dist(h, j, |t|) == i;
    assert Has(u, j, p);
    forall k: nat, q | Has(u, k, q)
      ensures q in m[p := frame] && m[p := frame][q] == u[k].frame && Clear(u, Home(hash, q, |u|), k)
    {
      if k != j {
        assert Has(t, k, q);
      }
    }
    forall q {:trigger m[q]} | q in m[p := frame]
      ensures exists k: nat :: Has(u, k, q)
    {
      if q != p {
        var k: nat :| Has(t, k, q);
        assert Has(u, k, q);
      }
    }
    forall k: nat, l: nat, q | Has(u, k, q) && Has(u, l, q)
      ensures k == l
    {
      assert k != j ==> Has(t, k, q);
      assert l != j ==> Has(t, l, q);
    }
  }

  /** A page entered a second time makes the table no table of any map. */
  lemma TwiceIsWrong(t: seq<HashSlot>, hash: PageId -> nat, m: map<PageId, nat>, p: PageId, frame: nat, j: nat,
                     u: seq<HashSlot>)
    requires TableOk(t, hash, m) && p in m && j < |t| && t[j].state != Occupied
    requires u == t[j := HashSlot(Occupied, p, frame)]
    ensures forall m' :: !TableOk(u, hash, m')
  {
    var k: nat :| Has(t, k, p);
    assert Has(u, k, p) && Has(u, j, p) && k != j;
  }

  /** Burying an entry leaves every other one reachable. */
  lemma Bury(t: seq<HashSlot>, hash: PageId -> nat, m: map<PageId, nat>, p: PageId, j: nat)
    requires TableOk(t, hash, m) && Has(t, j, p)
    ensures TableOk(t[j := t[j].(state := Tomb)], hash, m - {p})
  {
    var u := t[j := t[j].(state := Tomb)];
    forall k: nat, q | Has(u, k, q)
      ensures q in m - {p} && (m - {p})[q] == u[k].frame && Clear(u, Home(hash, q, |u|), k)
    {
      assert Has(t, k, q);
    }
    forall q | q in m - {p}
      ensures exists k: nat :: Has(u, k, q)
    {
      var k: nat :| Has(t, k, q);
      assert Has(u, k, q);
    }
    forall k: nat, l: nat, q | Has(u, k, q) && Has(u, l, q)
      ensures k == l
    {
      assert Has(t, k, q) && Has(t, l, q);
    }
  }

  /** The pages in the occupied ones of the first `n` slots. */
  ghost function PagesIn(t: seq<HashSlot>, n: nat): set<PageId>
    requires n <= |t|
  {
    if n == 0 then {} else if t[n - 1].state == Occupied then PagesIn(t, n - 1) + {t[n - 1].pid} else PagesIn(t, n - 1)
  }

  lemma {:induction false} PidsAre(t: seq<HashSlot>, n: nat, p: PageId)
    requires n <= |t|
    ensures p in PagesIn(t, n) <==> exists j: nat :: j < n && Has(t, j, p)
  {
    if n > 0 {
      PidsAre(t, n - 1, p);
      if p in PagesIn(t, n - 1) {
        var j: nat :| j < n - 1 && Has(t, j, p);
      }
      assert t[n - 1].state == Occupied && t[n - 1].pid == p ==> Has(t, n - 1, p);
    }
  }

  /** There are at most as many pages as occupied slots. */
  lemma {:induction false} PidsCount(t: seq<HashSlot>, n: nat, free: nat)
    requires n <= |t| && free < |t| && t[free].state != Occupied
    ensures |PagesIn(t, n)| <= if free < n then n - 1 else n
  {
    if n > 0 {
      PidsCount(t, n - 1, free);
    }
  }

  lemma {:induction false} PidsFull(t: seq<HashSlot>, n: nat)
    requires n <= |t|
    requires forall j :: 0 <= j < n ==> t[j].state == Occupied
    requires forall j, k :: 0 <= j < k < n ==> t[j].pid != t[k].pid
    ensures |PagesIn(t, n)| == n
  {
    if n > 0 {
      PidsFull(t, n - 1);
      PidsAre(t, n - 1, t[n - 1].pid);
    }
  }

  lemma PidsKeys(t: seq<HashSlot>, hash: PageId -> nat, m: map<PageId, nat>)
    requires TableOk(t, hash, m)
    ensures PagesIn(t, |t|) == m.Keys && |PagesIn(t, |t|)| == |m|
  {
    hide Clear, Home;
    forall p
      ensures p in PagesIn(t, |t|) <==> p in m
    {
      PidsAre(t, |t|, p);
    }
    assert |m.Keys| == |m|;
  }

  lemma Unique(t: seq<HashSlot>, hash: PageId -> nat, m: map<PageId, nat>, j: nat, k: nat)
    requires TableOk(t, hash, m) && j < k < |t| && t[j].state == Occupied && t[k].state == Occupied
    ensures t[j].pid != t[k].pid
  {
    if t[j].pid == t[k].pid {
      assert Has(t, j, t[j].pid) && Has(t, k, t[j].pid);
      assert false;
    }
  }

  /** A table has a slot to spare exactly when it has fewer entries than slots. */
  lemma RoomLeft(t: seq<HashSlot>, hash: PageId -> nat, m: map<PageId, nat>)
    requires TableOk(t, hash, m)
    ensures |m| < |t| <==> exists j :: 0 <= j < |t| && t[j].state != Occupied
  {
    hide TableOk, PagesIn;
    PidsKeys(t, hash, m);
    if j :| 0 <= j < |t| && t[j].state != Occupied {
      PidsCount(t, |t|, j);
    } else {
      forall j, k | 0 <= j < k < |t|
        ensures t[j].pid != t[k].pid
      {
        Unique(t, hash, m, j, k);
      }
      PidsFull(t, |t|);
    }
  }

  class HashTable {
    const slots: array<HashSlot>
    const hash: PageId -> nat
    ghost const bits: nat
    /** The entries, as a map. */
    ghost var entries: map<PageId, nat>

    ghost predicate Valid()
      reads this, slots
    {
      slots.Length == Pow2(bits) && TableOk(slots[..], hash, entries)
    }

    constructor (size: nat, ghost k: nat, hash: PageId -> nat)
      requires size == Pow2(k)
      ensures Valid() && fresh(slots) && entries == map[] && slots.Length == size && this.hash == hash
    {
      slots := new HashSlot[size](_ => HashSlot(Empty, 0, 0));
      this.hash := hash;
      bits := k;
      entries := map[];
      new;
      EmptyTable(slots[..], hash);
    }

    /** The slot of the `i`-th probe, computed with a mask. */
    method SlotOf(h: nat, i: nat) returns (j: nat)
      requires Valid() && h < slots.Length && i < slots.Length
      ensures j == Probe(h, i, slots.Length) == (h + i) % slots.Length
    {
      j := BitAnd(h + i, slots.Length - 1);
      MaskIsModulus(h + i, bits);
      WrapOnce(h + i, slots.Length);
    }

    method HomeOf(pid: PageId) returns (h: nat)
      requires Valid()
      ensures h == Home(hash, pid, slots.Length) == hash(pid) % slots.Length
    {
      h := BitAnd(hash(pid), slots.Length - 1);
      MaskIsModulus(hash(pid), bits);
    }

    /** ht_lookup: the frame of a page, or -1. */
    method Lookup(pid: PageId) returns (frame: int)
      requires Valid()
      ensures frame == if pid in entries then entries[pid] else -1
    {
      hide TableOk, Probe, Home, Pow2;
      ghost var t := slots[..];
      var h := HomeOf(pid);
      for i := 0 to slots.Length
        invariant Missed(t, h, pid, i)
      {
        var j := SlotOf(h, i);
        var s := slots[j];
        if s.state == Empty {
          NotThere(t, hash, entries, pid, i);
          return -1;
        }
        if s.state == Occupied && s.pid == pid {
          HasEntry(t, hash, entries, pid, j);
          return s.frame;
        }
        MissedStep(t, h, pid, i);
      }
      NotThere(t, hash, entries, pid, slots.Length);
      return -1;
    }

    /** ht_insert: into the first slot of the probe sequence that is not occupied. Nothing
        happens when there is none, which takes as many entries as there are slots. The result
        is a table of some map exactly if the page was absent or nothing happened. */
    method Insert(pid: PageId, frame: nat)
      requires Valid()
      modifies this, slots
      ensures |old(entries)| >= slots.Length ==> slots[..] == old(slots[..]) && entries == old(entries)
      ensures pid !in old(entries) && |old(entries)| < slots.Length ==> entries == old(entries)[pid := frame]
      ensures Valid() <==> pid !in old(entries) || |old(entries)| >= slots.Length
      ensures Valid() <==> exists m :: TableOk(slots[..], hash, m)
      ensures |old(entries)| < slots.Length ==>
        FirstFree(old(slots[..]), slots[..], Home(hash, pid, slots.Length), pid, frame)
    {
      hide TableOk, Probe, Home, Pow2;
      ghost var t := slots[..];
      var h := HomeOf(pid);
      for i := 0 to slots.Length
        invariant slots[..] == t && entries == old(entries)
        invariant AllTaken(t, h, i)
      {
        var j := SlotOf(h, i);
        if slots[j].state != Occupied {
          if pid in entries {
            TwiceIsWrong(t, hash, entries, pid, frame, j, t[j := HashSlot(Occupied, pid, frame)]);
          } else {
            Occupy(t, hash, entries, pid, frame, i);
          }
          RoomLeft(t, hash, entries);
          slots[j] := HashSlot(Occupied, pid, frame);
          AsUpdate(slots, t, j, HashSlot(Occupied, pid, frame));
          entries := entries[pid := frame];
          Freed(t, slots[..], h, i, pid, frame);
          return;
        }
        TakenStep(t, h, i);
      }
      NoRoom(t, hash, entries, h);
    }

    /** ht_remove: the entry becomes a tombstone. */
    method Remove(pid: PageId)
      requires Valid()
      modifies this, slots
      ensures Valid() && entries == old(entries) - {pid}
      ensures pid !in old(entries) ==> slots[..] == old(slots[..])
      ensures forall j :: 0 <= j < slots.Length ==>
        var s := old(slots[j]);
        slots[j] == if s.state == Occupied && s.pid == pid then s.(state := Tomb) else s
    {
      hide TableOk, Probe, Home, Pow2;
      ghost var t := slots[..];
      var h := HomeOf(pid);
      for i := 0 to slots.Length
        invariant slots[..] == t && entries == old(entries)
        invariant Missed(t, h, pid, i)
      {
        var j := SlotOf(h, i);
        var s := slots[j];
        if s.state == Empty {
          NotThere(t, hash, entries, pid, i);
          NoneThere(t, hash, entries, pid);
          return;
        }
        if s.state == Occupied && s.pid == pid {
          Bury(t, hash, entries, pid, j);
          HasEntry(t, hash, entries, pid, j);
          OnlyOne(t, hash, entries, pid, j);
          slots[j] := s.(state := Tomb);
          AsUpdate(slots, t, j, s.(state := Tomb));
          entries := entries - {pid};
          return;
        }
        MissedStep(t, h, pid, i);
      }
      NotThere(t, hash, entries, pid, slots.Length);
      NoneThere(t, hash, entries, pid);
    }
  }

  lemma OnlyOne(t: seq<HashSlot>, hash: PageId -> nat, m: map<PageId, nat>, p: PageId, j: nat)
    requires TableOk(t, hash, m) && Has(t, j, p)
    ensures forall k :: 0 <= k < |t| && k != j ==> !(t[k].state == Occupied && t[k].pid == p)
  {
    forall k: nat | k < |t| && t[k].state == Occupied && t[k].pid == p
      ensures k == j
    {
      assert Has(t, k, p);
    }
  }

  lemma NoneThere(t: seq<HashSlot>, hash: PageId -> nat, m: map<PageId, nat>, p: PageId)
    requires TableOk(t, hash, m) && p !in m
    ensures forall k :: 0 <= k < |t| ==> !(t[k].state == Occupied && t[k].pid == p)
  {
    forall k: nat | k < |t| && t[k].state == Occupied && t[k].pid == p
      ensures false
    {
      assert Has(t, k, p);
    }
  }

  /** The entry stands in the first slot from `h` on, going round, that was not occupied. */
  ghost predicate FirstFree(t: seq<HashSlot>, u: seq<HashSlot>, h: nat, pid: PageId, frame: nat) {
    h < |t| && exists i: nat ::
      && i < |t| && AllTaken(t, h, i) && t[Probe(h, i, |t|)].state != Occupied
      && u == t[Probe(h, i, |t|) := HashSlot(Occupied, pid, frame)]
  }

  lemma Freed(t: seq<HashSlot>, u: seq<HashSlot>, h: nat, i: nat, pid: PageId, frame: nat)
    requires h < |t| && i < |t| && AllTaken(t, h, i) && t[Probe(h, i, |t|)].state != Occupied
    requires u == t[Probe(h, i, |t|) := HashSlot(Occupied, pid, frame)]
    ensures FirstFree(t, u, h, pid, frame)
  {
    hide Probe;
  }

  lemma WrapOnce(x: nat, n: nat)
    requires 0 < n && x < 2 * n
    ensures x % n == if x < n then x else x - n
  {
    if x >= n {
      DivModUnique(x, n, 1, x - n);
    }
  }

  lemma HasEntry(t: seq<HashSlot>, hash: PageId -> nat, m: map<PageId, nat>, p: PageId, j: nat)
    requires TableOk(t, hash, m) && Has(t, j, p)
    ensures p in m && m[p] == t[j].frame
  {
  }

  lemma MissedStep(t: seq<HashSlot>, h: nat, p: PageId, i: nat)
    requires h < |t| && i < |t| && Missed(t, h, p, i)
    requires t[Probe(h, i, |t|)].state != Empty && !Has(t, Probe(h, i, |t|), p)
    ensures Missed(t, h, p, i + 1)
  {
    hide Probe;
  }

  lemma TakenStep(t: seq<HashSlot>, h: nat, i: nat)
    requires h < |t| && i < |t| && AllTaken(t, h, i) && t[Probe(h, i, |t|)].state == Occupied
    ensures AllTaken(t, h, i + 1)
  {
    hide Probe;
  }

  lemma AsUpdate<T>(a: array<T>, t: seq<T>, j: nat, x: T)
    requires |t| == a.Length && j < a.Length && a[j] == x && forall k :: 0 <= k < a.Length && k != j ==> a[k] == t[k]
    ensures a[..] == t[j := x]
  {
  }

  lemma NoRoom(t: seq<HashSlot>, hash: PageId -> nat, m: map<PageId, nat>, h: nat)
    requires TableOk(t, hash, m) && h < |t| && AllTaken(t, h, |t|)
    ensures |m| >= |t|
  {
    hide TableOk;
    RoomLeft(t, hash, m);
    forall j: nat | 0 <= j < |t|
      ensures t[j].state == Occupied
    {
      assert Probe(h, Dist(h, j, |t|), |t|) == j;
    }
  }
}
