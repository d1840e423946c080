/** Binary searches in a page (src/btree.c:76-160). */
module Search {
  import opened Comparator
  import opened Pages
  import opened Levels

  /** The child of `p` to follow for a key that is above `c` separators. */
  function ChildAt(p: Page, c: nat): PageId
    requires c <= |p.recs|
  {
    if c == 0 then p.firstChild else ChildOf(p.recs[c - 1])
  }

  /** How many leading records have a key that is at most `k`. */
  function UpperPos(cmp: Cmp, recs: seq<Rec>, k: Key): (c: nat)
    ensures c <= |recs|
  {
    if recs == [] || Lt(cmp, k, recs[0].key) then 0 else 1 + UpperPos(cmp, recs[1..], k)
  }

  lemma {:induction false} UpperPosIsUpper(cmp: Cmp, recs: seq<Rec>, k: Key)
    requires Order(cmp) && Sorted(cmp, recs)
    ensures IsUpper(cmp, recs, k, UpperPos(cmp, recs, k))
  {
    if recs != [] && !Lt(cmp, k, recs[0].key) {
      UpperPosIsUpper(cmp, recs[1..], k);
      var c := UpperPos(cmp, recs[1..], k);
      forall t | 0 <= t < |recs|
        ensures t < c + 1 ==> !Lt(cmp, k, recs[t].key)
        ensures c + 1 <= t ==> Lt(cmp, k, recs[t].key)
      {
        if t > 0 {
          assert recs[t] == recs[1..][t - 1];
        }
      }
    } else if recs != [] {
      forall t | 0 < t < |recs|
        ensures Lt(cmp, k, recs[t].key)
      {
        assert Lt(cmp, recs[0].key, recs[t].key);
      }
    }
  }

  lemma UpperUnique(cmp: Cmp, recs: seq<Rec>, k: Key, c: nat, d: nat)
    requires IsUpper(cmp, recs, k, c) && IsUpper(cmp, recs, k, d)
    ensures c == d
  {
    if c < |recs| {
      assert Lt(cmp, k, recs[c].key);
    }
    if d < |recs| {
      assert Lt(cmp, k, recs[d].key);
    }
  }

  lemma LtStep(cmp: Cmp, recs: seq<Rec>, k: Key, mid: nat)
    requires Order(cmp) && Sorted(cmp, recs) && mid < |recs|
    ensures cmp(k, recs[mid].key) < 0 ==> forall t :: mid <= t < |recs| ==> Lt(cmp, k, recs[t].key)
    ensures cmp(k, recs[mid].key) >= 0 ==> forall t :: 0 <= t <= mid ==> !Lt(cmp, k, recs[t].key)
    ensures cmp(k, recs[mid].key) > 0 ==> forall t :: 0 <= t <= mid ==> Lt(cmp, recs[t].key, k)
  {
    var m := recs[mid].key;
    if cmp(k, m) < 0 {
      forall t | mid <= t < |recs|
        ensures Lt(cmp, k, recs[t].key)
      {
        if t > mid {
          assert Lt(cmp, k, m) && Lt(cmp, m, recs[t].key);
        }
      }
    } else {
      forall t | 0 <= t <= mid
        ensures !Lt(cmp, k, recs[t].key)
        ensures cmp(k, m) > 0 ==> Lt(cmp, recs[t].key, k)
      {
        NotLtBelow(cmp, recs[t].key, m, k);
        if t < mid {
          assert Lt(cmp, recs[t].key, m);
        }
      }
    }
  }

  lemma NotLtBelow(cmp: Cmp, a: Key, m: Key, k: Key)
    requires Order(cmp) && !Lt(cmp, k, m)
    ensures a == m || Lt(cmp, a, m) ==> !Lt(cmp, k, a)
    ensures cmp(k, m) > 0 ==> Lt(cmp, m, k)
    ensures cmp(k, m) > 0 && Lt(cmp, a, m) ==> Lt(cmp, a, k)
  {
    assert Lt(cmp, m, k) <==> cmp(k, m) > 0;
    assert Lt(cmp, k, a) && Lt(cmp, a, m) ==> Lt(cmp, k, m);
  }

  /** The separator search of rec_array_merge_sorted, of the split propagation and of
      internal_find_child: the number of records whose key is at most `k`. */
  method UpperSearch(cmp: Cmp, recs: seq<Rec>, k: Key) returns (pos: nat)
    requires Order(cmp) && Sorted(cmp, recs)
    ensures IsUpper(cmp, recs, k, pos)
  {
    var lo, hi := 0, |recs| - 1;
    while lo <= hi
      invariant 0 <= lo <= hi + 1 <= |recs|
      invariant forall t :: 0 <= t < lo ==> !Lt(cmp, k, recs[t].key)
      invariant forall t :: hi < t < |recs| ==> Lt(cmp, k, recs[t].key)
    {
      var mid := lo + (hi - lo) / 2;
      var c := cmp(k, recs[mid].key);
      LtStep(cmp, recs, k, mid);
      if c < 0 {
        hi := mid - 1;
      } else {
        lo := mid + 1;
      }
    }
    pos := lo;
  }

  /** internal_find_child: the child whose span holds the key. */
  method InternalFindChild(cmp: Cmp, p: Page, k: Key) returns (pid: PageId)
    requires Order(cmp) && Sorted(cmp, p.recs)
    ensures forall c :: IsUpper(cmp, p.recs, k, c) ==> pid == ChildAt(p, c)
    ensures pid == ChildAt(p, UpperPos(cmp, p.recs, k))
  {
    UpperPosIsUpper(cmp, p.recs, k);
    var n := |p.recs|;
    if n == 0 {
      return p.firstChild;
    }
    var pos := UpperSearch(cmp, p.recs, k);
    forall c | IsUpper(cmp, p.recs, k, c)
      ensures c == pos
    {
      UpperUnique(cmp, p.recs, k, c, pos);
    }
    var hi := pos as int - 1;
    if hi < 0 {
      return p.firstChild;
    }
    return ChildOf(p.recs[hi]);
  }

  /** leaf_find_key: the index of the key, or the complement of its place. */
  method LeafFindKey(cmp: Cmp, recs: seq<Rec>, k: Key) returns (r: int)
    requires Order(cmp) && Sorted(cmp, recs)
    ensures r >= 0 ==> r < |recs| && recs[r].key == k
    ensures r < 0 ==> -r - 1 <= |recs|
    ensures r < 0 ==> forall t :: 0 <= t < |recs| ==>
      if t < -r - 1 then Lt(cmp, recs[t].key, k) else Lt(cmp, k, recs[t].key)
  {
    var lo, hi := 0, |recs| - 1;
    while lo <= hi
      invariant 0 <= lo <= hi + 1 <= |recs|
      invariant forall t :: 0 <= t < lo ==> Lt(cmp, recs[t].key, k)
      invariant forall t :: hi < t < |recs| ==> Lt(cmp, k, recs[t].key)
    {
      var mid := lo + (hi - lo) / 2;
      var c := cmp(k, recs[mid].key);
      if c == 0 {
        return mid;
      }
      LtStep(cmp, recs, k, mid);
      if c < 0 {
        hi := mid - 1;
      } else {
        lo := mid + 1;
      }
    }
    return -lo - 1;
  }

  /** rec_array_merge_sorted: put a record into a sorted record array. */
  method MergeSorted(cmp: Cmp, ra: seq<Rec>, rec: Rec) returns (merged: seq<Rec>)
    requires Order(cmp) && Sorted(cmp, ra)
    ensures merged == InsertAt(ra, UpperPos(cmp, ra, rec.key), rec)
  {
    var pos := UpperSearch(cmp, ra, rec.key);
    UpperPosIsUpper(cmp, ra, rec.key);
    UpperUnique(cmp, ra, rec.key, pos, UpperPos(cmp, ra, rec.key));
    merged := ra[..pos] + [rec] + ra[pos..];
  }

  /** find_pos_in_parent: -1 for the first child, the record index otherwise, -2 if absent. */
  method FindPosInParent(parent: Page, child: PageId) returns (pos: int)
    ensures -2 <= pos < |parent.recs|
    ensures pos == -1 <==> parent.firstChild == child
    ensures pos >= 0 ==> ChildOf(parent.recs[pos]) == child
    ensures pos == -2 ==> forall t :: 0 <= t < |parent.recs| ==> ChildOf(parent.recs[t]) != child
  {
    if parent.firstChild == child {
      return -1;
    }
    var i := 0;
    while i < |parent.recs|
      invariant 0 <= i <= |parent.recs|
      invariant forall t :: 0 <= t < i ==> ChildOf(parent.recs[t]) != child
    {
      if ChildOf(parent.recs[i]) == child {
        return i;
      }
      i := i + 1;
    }
    return -2;
  }
}
