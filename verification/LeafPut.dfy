/** Putting a key into, and taking it out of, the records of its leaf. */
module LeafPut {
  import opened Comparator
  import opened Pages
  import opened Levels
  import opened Frames
  import opened Contents
  import opened Search
  import opened Fitting
  import opened LeafSteps
  import opened SplitSteps

  lemma SortedRemove(cmp: Cmp, recs: seq<Rec>, i: nat)
    requires Sorted(cmp, recs) && i < |recs|
    ensures Sorted(cmp, RemoveAt(recs, i))
  {
  }

  lemma KeysDiffer(cmp: Cmp, recs: seq<Rec>, i: nat, t: nat)
    requires Order(cmp) && Sorted(cmp, recs) && i < |recs| && t < |recs| && i != t
    ensures recs[i].key != recs[t].key
  {
    if i < t {
      assert Lt(cmp, recs[i].key, recs[t].key);
    } else {
      assert Lt(cmp, recs[t].key, recs[i].key);
    }
  }

  /** In a sorted leaf the position of a key is unique. */
  lemma KeyPosUnique(cmp: Cmp, recs: seq<Rec>, k: Key, i: nat)
    requires Order(cmp) && Sorted(cmp, recs) && i < |recs| && recs[i].key == k
    ensures KeyPos(recs, k) == i
  {
    var p := KeyPos(recs, k);
    if p < |recs| && p != i {
      KeysDiffer(cmp, recs, i, p);
    }
  }

  /** What leaf_find_key's answers mean for the leaf without the key. */
  lemma WithoutKeyFacts(cmp: Cmp, recs: seq<Rec>, k: Key)
    requires Order(cmp) && Sorted(cmp, recs)
    ensures Sorted(cmp, WithoutKey(recs, k))
    ensures forall t :: 0 <= t < |WithoutKey(recs, k)| ==> WithoutKey(recs, k)[t].key != k
    ensures ToMap(WithoutKey(recs, k)) == ToMap(recs) - {k}
  {
    var i := KeyPos(recs, k);
    if i < |recs| {
      SortedRemove(cmp, recs, i);
      forall t | 0 <= t < |recs| && t != i
        ensures recs[t].key != recs[i].key
      {
        KeysDiffer(cmp, recs, i, t);
      }
      ToMapRemove(recs, i);
    } else {
      ToMapKeys(recs, k);
    }
  }

  /** Upserting keeps the leaf sorted and updates one key of its map. */
  lemma UpsertedFacts(cmp: Cmp, recs: seq<Rec>, r: Rec)
    requires Order(cmp) && Sorted(cmp, recs)
    ensures Sorted(cmp, Upserted(cmp, recs, r))
    ensures ToMap(Upserted(cmp, recs, r)) == ToMap(recs)[r.key := ValOf(r)]
  {
    var base := WithoutKey(recs, r.key);
    WithoutKeyFacts(cmp, recs, r.key);
    hide WithoutKey;
    UpperPosIsUpper(cmp, base, r.key);
    hide ToMap, UpperPos;
    SortedInsert(cmp, base, UpperPos(cmp, base, r.key), r);
    ToMapInsert(base, UpperPos(cmp, base, r.key), r);
    MapPutBack(ToMap(recs), r.key, ValOf(r));
  }

  lemma MapPutBack<K, V>(m: map<K, V>, k: K, v: V)
    ensures (m - {k})[k := v] == m[k := v]
  {
  }

  lemma SortedInsert(cmp: Cmp, recs: seq<Rec>, c: nat, r: Rec)
    requires Order(cmp) && Sorted(cmp, recs) && IsUpper(cmp, recs, r.key, c)
    requires forall t :: 0 <= t < |recs| ==> recs[t].key != r.key
    ensures Sorted(cmp, InsertAt(recs, c, r))
  {
    forall t | 0 <= t < c
      ensures Lt(cmp, recs[t].key, r.key)
    {
      assert !Lt(cmp, r.key, recs[t].key);
    }
  }

  /** The records of the leaf after a put are old ones and the new one. */
  lemma UpsertedMember(cmp: Cmp, recs: seq<Rec>, r: Rec, t: nat)
    requires t < |Upserted(cmp, recs, r)|
    ensures Upserted(cmp, recs, r)[t] == r || Upserted(cmp, recs, r)[t] in recs
  {
    var base := WithoutKey(recs, r.key);
    var c := UpperPos(cmp, base, r.key);
    if t < c {
      WithoutKeyMember(recs, r.key, t);
    } else if t > c {
      WithoutKeyMember(recs, r.key, t - 1);
    }
  }

  lemma WithoutKeyMember(recs: seq<Rec>, k: Key, t: nat)
    requires t < |WithoutKey(recs, k)|
    ensures WithoutKey(recs, k)[t] in recs
  {
    hide KeyPos;
    var i := KeyPos(recs, k);
    if i < |recs| && t >= i {
      assert WithoutKey(recs, k)[t] == recs[t + 1];
    } else {
      assert WithoutKey(recs, k)[t] == recs[t];
    }
  }

  /** The leaf after a put is fit for its place. */
  lemma UpsertedLeafOk(cmp: Cmp, es: Level, i: nat, recs: seq<Rec>, k: Key, v: Value)
    requires Order(cmp) && LeafOk(cmp, recs, es, i) && LeafRecs(recs) && InSpan(cmp, k, es, i)
    ensures LeafOk(cmp, Upserted(cmp, recs, LeafRec(k, v, false)), es, i)
    ensures LeafRecs(Upserted(cmp, recs, LeafRec(k, v, false)))
  {
    var r := LeafRec(k, v, false);
    UpsertedFacts(cmp, recs, r);
    hide Upserted, ToMap;
    var all := Upserted(cmp, recs, r);
    forall t | 0 <= t < |all|
      ensures InSpan(cmp, all[t].key, es, i) && all[t].LeafRec? && !all[t].deleted
    {
      UpsertedMember(cmp, recs, r, t);
      if all[t] != r {
        var u :| 0 <= u < |recs| && recs[u] == all[t];
        assert InSpan(cmp, recs[u].key, es, i);
      }
    }
  }

  /** A leaf without a key is still fit for its place. */
  lemma WithoutKeyLeafOk(cmp: Cmp, es: Level, i: nat, recs: seq<Rec>, k: Key)
    requires Order(cmp) && LeafOk(cmp, recs, es, i) && LeafRecs(recs)
    ensures LeafOk(cmp, WithoutKey(recs, k), es, i)
    ensures LeafRecs(WithoutKey(recs, k))
  {
    WithoutKeyFacts(cmp, recs, k);
    hide ToMap, WithoutKey;
    var all := WithoutKey(recs, k);
    forall t | 0 <= t < |all|
      ensures InSpan(cmp, all[t].key, es, i) && all[t].LeafRec? && !all[t].deleted
    {
      WithoutKeyMember(recs, k, t);
      var u :| 0 <= u < |recs| && recs[u] == all[t];
      assert InSpan(cmp, recs[u].key, es, i);
    }
  }

  /** New records in one leaf change the tree's map as they change the leaf's. */
  lemma LeafPutContents(cmp: Cmp, s: seq<Page>, es: Level, i: nat, k: Key, v: Value, m: seq<Rec>)
    requires Order(cmp) && Ascending(cmp, es) && Leaves(cmp, s, es) && InSpan(cmp, k, es, i)
    requires ToMap(m) == ToMap(PageAt(s, es[i].pid).recs)[k := v]
    ensures ToMap(Records(s, es[..i]) + m + Records(s, es[i + 1..])) == ToMap(Records(s, es))[k := v]
  {
    LookupInLeaf(cmp, s, es, k, i);
    RecordsSplit(s, es, i);
    hide ToMap, Records;
    ToMapMiddlePut(Records(s, es[..i]), PageAt(s, es[i].pid).recs, m, Records(s, es[i + 1..]), k, v);
  }

  lemma LeafRemoveContents(cmp: Cmp, s: seq<Page>, es: Level, i: nat, k: Key, m: seq<Rec>)
    requires Order(cmp) && Ascending(cmp, es) && Leaves(cmp, s, es) && InSpan(cmp, k, es, i)
    requires ToMap(m) == ToMap(PageAt(s, es[i].pid).recs) - {k}
    ensures ToMap(Records(s, es[..i]) + m + Records(s, es[i + 1..])) == ToMap(Records(s, es)) - {k}
  {
    LookupInLeaf(cmp, s, es, k, i);
    RecordsSplit(s, es, i);
    hide ToMap, Records;
    ToMapMiddleRemove(Records(s, es[..i]), PageAt(s, es[i].pid).recs, m, Records(s, es[i + 1..]), k);
  }

  /** A leaf split keeps all records, in order. */
  lemma LeafSplitRecords(s: seq<Page>, es: Level, i: nat, sep: Key, left: seq<Rec>, right: seq<Rec>, s': seq<Page>)
    requires i < |es| && LeafSplit(s, s', es[i].pid, left, right)
    requires forall j :: 0 <= j < |es| ==> es[j].pid < |s|
    requires forall j, k :: 0 <= j < |es| && 0 <= k < |es| && j != k ==> es[j].pid != es[k].pid
    ensures Records(s', SplitLevel(es, i, sep, |s|)) == Records(s, es[..i]) + (left + right) + Records(s, es[i + 1..])
  {
    var es' := SplitLevel(es, i, sep, |s|);
    assert es' == es[..i] + ([es[i]] + [es'[i + 1]]) + es[i + 1..];
    RecordsConcat(s', es[..i] + ([es[i]] + [es'[i + 1]]), es[i + 1..]);
    RecordsConcat(s', es[..i], [es[i]] + [es'[i + 1]]);
    RecordsConcat(s', [es[i]], [es'[i + 1]]);
    RecordsOne(s', es[i]);
    RecordsOne(s', es'[i + 1]);
    hide Records;
    RecordsFrame(s, s', es[..i]);
    RecordsFrame(s, s', es[i + 1..]);
  }

  // ---------------------------------------------------------------- whole trees

  /** A leaf the size of which does not matter yet, with the key put in. */
  lemma PutLeafFits(cmp: Cmp, recs: seq<Rec>, r: Rec)
    requires Order(cmp) && Sorted(cmp, recs)
    ensures InsertFits(WithoutKey(recs, r.key), r) <==> Fits(Upserted(cmp, recs, r))
    ensures !InsertFits(WithoutKey(recs, r.key), r) && LeafHalvesFit(Upserted(cmp, recs, r)) ==>
      |Upserted(cmp, recs, r)| >= 2
  {
    var base := WithoutKey(recs, r.key);
    InsertFitsIffFits(base, UpperPos(cmp, base, r.key), r);
    var all := Upserted(cmp, recs, r);
    if |all| == 1 {
      assert all[|all| / 2..] == all;
    }
  }

  /** Putting a key into a leaf with room. */
  lemma PutInPlace(cmp: Cmp, s: seq<Page>, root: PageId, lv: seq<Level>, k: Key, v: Value, i: nat, s': seq<Page>)
    requires Order(cmp) && Shape(cmp, s, root, lv, NoGap) && Room(s, lv) && Filled(s, lv)
    requires |lv| > 0 && i < |lv[0]| && InSpan(cmp, k, lv[0], i) && lv[0][i].pid < |s|
    requires InsertFits(WithoutKey(s[lv[0][i].pid].recs, k), LeafRec(k, v, false))
    requires s' == s[lv[0][i].pid := s[lv[0][i].pid].(recs := Upserted(cmp, s[lv[0][i].pid].recs,
      LeafRec(k, v, false)))]
    ensures Shape(cmp, s', root, lv, NoGap) && Room(s', lv) && Filled(s', lv)
    ensures ToMap(Records(s', lv[0])) == ToMap(Records(s, lv[0]))[k := v]
  {
    hide Shape, Upserted, WithoutKey, ToMap, Records, Leaves, Ascending, Order, InsertFits, InSpan;
    var recs, r := s[lv[0][i].pid].recs, LeafRec(k, v, false);
    var all := Upserted(cmp, recs, r);
    LeafFacts(cmp, s, root, lv, NoGap, i);
    hide Sorted;
    LevelFacts(cmp, s, root, lv, NoGap, 0);
    ShapeLeaves(cmp, s, root, lv, NoGap);
    PutLeafFits(cmp, recs, r);
    UpsertedFacts(cmp, recs, r);
    UpsertedLeafOk(cmp, lv[0], i, recs, k, v);
    hide LeafOk;
    ReplaceLeafShape(cmp, s, root, lv, i, all, s');
    ReplaceLeafRecords(s, lv[0], i, all, s');
    LeafPutContents(cmp, s, lv[0], i, k, v, all);
    InPlaceRoom(s, lv, lv[0][i].pid, all, s');
    UpsertedNotEmpty(cmp, recs, r);
  }

  lemma UpsertedNotEmpty(cmp: Cmp, recs: seq<Rec>, r: Rec)
    ensures Upserted(cmp, recs, r) != []
  {
  }

  lemma InPlaceRoom(s: seq<Page>, lv: seq<Level>, pid: PageId, recs: seq<Rec>, s': seq<Page>)
    requires pid < |s| && s' == s[pid := s[pid].(recs := recs)] && Fits(recs)
    ensures Room(s, lv) ==> Room(s', lv)
    ensures Filled(s, lv) && recs != [] ==> Filled(s', lv)
  {
  }

  lemma LeafFacts(cmp: Cmp, s: seq<Page>, root: PageId, lv: seq<Level>, gap: Gap, i: nat)
    requires Shape(cmp, s, root, lv, gap) && i < |lv[0]|
    ensures lv[0][i].pid < |s|
    ensures LeafOk(cmp, s[lv[0][i].pid].recs, lv[0], i) && LeafRecs(s[lv[0][i].pid].recs)
    ensures s[lv[0][i].pid].kind == LeafPage
  {
    hide Distinct, Bounds, Parents, Chain, ZeroFirst, Expand;
    assert LeafAt(cmp, s, lv[0], i);
    assert PageOk(s[lv[0][i].pid], 0);
  }

  lemma ShapeLeaves(cmp: Cmp, s: seq<Page>, root: PageId, lv: seq<Level>, gap: Gap)
    requires Shape(cmp, s, root, lv, gap)
    ensures Leaves(cmp, s, lv[0]) && Chain(s, lv[0])
  {
  }

  /** Putting a key into a full leaf: the leaf splits, and its new neighbour is pending. */
  lemma PutBySplit(cmp: Cmp, s: seq<Page>, root: PageId, lv: seq<Level>, k: Key, v: Value, i: nat, all: seq<Rec>,
                   s': seq<Page>)
    requires Order(cmp) && Shape(cmp, s, root, lv, NoGap) && Room(s, lv) && Filled(s, lv)
    requires |lv| > 0 && i < |lv[0]| && InSpan(cmp, k, lv[0], i) && lv[0][i].pid < |s|
    requires all == Upserted(cmp, s[lv[0][i].pid].recs, LeafRec(k, v, false))
    requires !InsertFits(WithoutKey(s[lv[0][i].pid].recs, k), LeafRec(k, v, false)) && LeafHalvesFit(all)
    requires LeafSplit(s, s', lv[0][i].pid, all[..|all| / 2], all[|all| / 2..])
    ensures |all| >= 2
    ensures var lv' := lv[0 := SplitLevel(lv[0], i, all[|all| / 2].key, |s|)];
            && Shape(cmp, s', root, lv', Gap(0, i + 1)) && Loaded(s', lv')
            && ToMap(Records(s', lv'[0])) == ToMap(Records(s, lv[0]))[k := v]
  {
    hide Shape, Upserted, WithoutKey, ToMap, Records, LeafOk, Leaves, Ascending, Order, InsertFits, LeafSplit, Loaded,
      Room, Filled, Halves, InSpan;
    var recs, r := s[lv[0][i].pid].recs, LeafRec(k, v, false);
    var left, right := all[..|all| / 2], all[|all| / 2..];
    LevelFacts(cmp, s, root, lv, NoGap, 0);
    ShapeLeaves(cmp, s, root, lv, NoGap);
    PutHalves(cmp, s, root, lv, k, v, i);
    UpsertedFacts(cmp, recs, r);
    assert left + right == all;
    SplitLoaded(cmp, s, root, lv, i, left, right, s');
    LeafSplitShape(cmp, s, root, lv, i, left, right, s');
    LeafSplitRecords(s, lv[0], i, right[0].key, left, right, s');
    LeafPutContents(cmp, s, lv[0], i, k, v, all);
  }

  lemma PutHalves(cmp: Cmp, s: seq<Page>, root: PageId, lv: seq<Level>, k: Key, v: Value, i: nat)
    requires Order(cmp) && Shape(cmp, s, root, lv, NoGap)
    requires |lv| > 0 && i < |lv[0]| && InSpan(cmp, k, lv[0], i) && lv[0][i].pid < |s|
    requires !InsertFits(WithoutKey(s[lv[0][i].pid].recs, k), LeafRec(k, v, false))
    requires LeafHalvesFit(Upserted(cmp, s[lv[0][i].pid].recs, LeafRec(k, v, false)))
    ensures var all := Upserted(cmp, s[lv[0][i].pid].recs, LeafRec(k, v, false));
            && |all| >= 2 && Sorted(cmp, s[lv[0][i].pid].recs)
            && Halves(cmp, lv[0], i, all[..|all| / 2], all[|all| / 2..])
            && Fits(all[..|all| / 2]) && Fits(all[|all| / 2..])
  {
    hide Shape, Upserted, WithoutKey, InsertFits, InSpan;
    var recs, r := s[lv[0][i].pid].recs, LeafRec(k, v, false);
    var all := Upserted(cmp, recs, r);
    LeafFacts(cmp, s, root, lv, NoGap, i);
    PutLeafFits(cmp, recs, r);
    UpsertedLeafOk(cmp, lv[0], i, recs, k, v);
    assert all[..|all| / 2] + all[|all| / 2..] == all;
  }

  lemma SplitLoaded(cmp: Cmp, s: seq<Page>, root: PageId, lv: seq<Level>, i: nat, left: seq<Rec>, right: seq<Rec>,
                    s': seq<Page>)
    requires Shape(cmp, s, root, lv, NoGap) && Room(s, lv) && Filled(s, lv) && i < |lv[0]|
    requires left != [] && right != [] && Fits(left) && Fits(right)
    requires LeafSplit(s, s', lv[0][i].pid, left, right)
    ensures Loaded(s', lv[0 := SplitLevel(lv[0], i, right[0].key, |s|)])
  {
    var lv': seq<Level> := lv[0 := SplitLevel(lv[0], i, right[0].key, |s|)];
    hide Leaves, Chain, Parents, Bounds, Expand;
    assert Alone(lv, 0, i);
    assert |lv| == 1 ==> |lv[0]| == 1;
    hide Linked, Distinct;
    forall q, j | 0 <= q < |lv'| && 0 <= j < |lv'[q]|
      ensures PageAt(s', lv'[q][j].pid).recs != [] && Fits(PageAt(s', lv'[q][j].pid).recs)
    {
      if q == 0 && (j == i || j == i + 1) {
      } else {
        var oldJ := if q == 0 && j > i then j - 1 else j;
        assert lv'[q][j] == lv[q][oldJ];
        assert PageAt(s', lv[q][oldJ].pid).recs == PageAt(s, lv[q][oldJ].pid).recs;
      }
    }
  }
}
