/** Whole runs of operations on a tree, against a plain finite map. */
module Runs {
  import opened Comparator
  import opened Pages
  import opened Levels
  import opened Contents
  import opened Search
  import opened Descent
  import opened Fitting
  import opened Height
  import opened LeafPut
  import opened Deletion
  import opened LostChild
  import opened TornSplits
  import opened BTrees

  datatype Op = PutOp(key: Key, val: Value) | GetOp(key: Key) | DeleteOp(key: Key)

  datatype Reply = Done | Missing | Found(val: Value)

  /** What each operation answers on a finite map. */
  function MapReply(m: map<Key, Value>, op: Op): Reply {
    match op
    case PutOp(_, _) => Done
    case GetOp(k) => if k in m then Found(m[k]) else Missing
    case DeleteOp(k) => if k in m then Done else Missing
  }

  function MapStep(m: map<Key, Value>, op: Op): map<Key, Value> {
    match op
    case PutOp(k, v) => m[k := v]
    case GetOp(_) => m
    case DeleteOp(k) => m - {k}
  }

  ghost function MapRun(m: map<Key, Value>, ops: seq<Op>): map<Key, Value> {
    if ops == [] then m else MapStep(MapRun(m, ops[..|ops| - 1]), ops[|ops| - 1])
  }

  predicate SmallOp(op: Op) {
    op.PutOp? ==> |op.key| + |op.val| <= MAX_PAYLOAD
  }

  /** The pages on the way of a put, seen from the leaf: its records with the new one, the
      separator it would send up, and the internal pages above. */
  ghost predicate EvenWay(cmp: Cmp, s: seq<Page>, root: PageId, r: Rec, low: nat, high: nat, lowSep: nat,
                          highSep: nat) {
    var path := FullPath(cmp, s, root, r.key);
    var all := Upserted(cmp, PageAt(s, path[|path| - 1]).recs, r);
    && Even(low, high) && Even(lowSep, highSep) && Costs(all, low, high)
    && (forall t :: 0 <= t < |all| ==> lowSep <= Cost(ChildRec(all[t].key, 0)) <= highSep)
    && (forall l :: 0 <= l <= |path| - 2 ==> Costs(PageAt(s, path[l]).recs, lowSep, highSep))
  }

  /** Wherever the entries on its way cost about the same, a put fits: halving by number then
      loses no record. */
  lemma EvenPutFits(cmp: Cmp, s: seq<Page>, root: PageId, lv: seq<Level>, k: Key, v: Value,
                    low: nat, high: nat, lowSep: nat, highSep: nat)
    requires TreeOk(cmp, s, root, lv)
    requires EvenWay(cmp, s, root, LeafRec(k, v, false), low, high, lowSep, highSep)
    ensures PutFits(cmp, s, root, k, v)
  {
    hide Shape, Room, Filled, FullPath, Upserted, WithoutKey, InsertFits, LeafHalvesFit, AscentFits, Fits, Order,
      Sorted, InSpan, LeafRecs, ChildRecs, Costs, Even, Cost;
    var ix := TreePath(cmp, s, root, lv, k);
    var path := FullPath(cmp, s, root, k);
    assert lv[0][ix[0]].pid == path[|path| - 1];
    var recs, r := s[path[|path| - 1]].recs, LeafRec(k, v, false);
    var all := Upserted(cmp, recs, r);
    PutLeafFits(cmp, recs, r);
    if !InsertFits(WithoutKey(recs, k), r) {
      RoomOnPath(s, lv, 0, ix[0]);
      EvenUpsert(cmp, recs, r, low, high);
      forall l | 0 <= l <= |path| - 2
        ensures EvenPage(PageAt(s, path[l]).recs, lowSep, highSep)
      {
        var q := |lv| - 1 - l;
        assert lv[q][ix[q]].pid == path[l];
        RoomOnPath(s, lv, q, ix[q]);
      }
      SameCost(ChildRec(all[|all| / 2].key, 0), |s|);
      EvenAscent(cmp, s, path, |path| - 2, all[|all| / 2].key, |s|, lowSep, highSep);
    }
  }

  lemma RoomOnPath(s: seq<Page>, lv: seq<Level>, q: nat, i: nat)
    requires Room(s, lv) && q < |lv| && i < |lv[q]|
    ensures Fits(PageAt(s, lv[q][i].pid).recs)
  {
  }

  lemma EvenUpsert(cmp: Cmp, recs: seq<Rec>, r: Rec, low: nat, high: nat)
    requires Order(cmp) && Sorted(cmp, recs) && Fits(recs) && Even(low, high)
    requires Costs(Upserted(cmp, recs, r), low, high) && !InsertFits(WithoutKey(recs, r.key), r)
    ensures LeafHalvesFit(Upserted(cmp, recs, r)) && Upserted(cmp, recs, r) != []
  {
    hide InsertFits, LeafHalvesFit, Order, Sorted, Costs, Even, WithoutKey, Fits, UpperPos;
    var base := WithoutKey(recs, r.key);
    var c := UpperPos(cmp, base, r.key);
    var all := Upserted(cmp, recs, r);
    PutLeafFits(cmp, recs, r);
    WithoutKeyFits(recs, r.key);
    RemoveInserted(base, c, r);
    EvenMany(all, low, high);
    EvenLeafHalves(all, c, low, high);
  }

  /** In a tree of small entries every put of a small entry fits, whatever the mix of sizes. */
  lemma SmallPutFits(cmp: Cmp, s: seq<Page>, root: PageId, lv: seq<Level>, k: Key, v: Value)
    requires TreeOk(cmp, s, root, lv) && SmallStore(s) && |k| + |v| <= MAX_PAYLOAD
    ensures PutFits(cmp, s, root, k, v)
  {
    hide Shape, Room, Filled, FullPath, Upserted, Order, Sorted, InSpan, LeafRecs, ChildRecs, AllSmall, Costs, Even,
      PutFits;
    var ix := TreePath(cmp, s, root, lv, k);
    var path := FullPath(cmp, s, root, k);
    assert lv[0][ix[0]].pid == path[|path| - 1];
    var recs, r := s[path[|path| - 1]].recs, LeafRec(k, v, false);
    assert AllSmall(recs);
    SmallUpsert(cmp, recs, r);
    forall l | 0 <= l <= |path| - 2
      ensures Costs(PageAt(s, path[l]).recs, 10, 136)
    {
      var q := |lv| - 1 - l;
      assert lv[q][ix[q]].pid == path[l];
      SmallCosts(s[path[l]].recs);
    }
    EvenPutFits(cmp, s, root, lv, k, v, 9, 135, 10, 136);
  }

  lemma SmallUpsert(cmp: Cmp, recs: seq<Rec>, r: Rec)
    requires AllSmall(recs) && LeafRecs(recs) && r.LeafRec? && !r.deleted && |r.key| + |r.val| <= MAX_PAYLOAD
    ensures var all := Upserted(cmp, recs, r);
      && Costs(all, 9, 135) && Even(9, 135) && Even(10, 136)
      && forall t :: 0 <= t < |all| ==> 10 <= Cost(ChildRec(all[t].key, 0)) <= 136
  {
    hide Upserted;
    var all := Upserted(cmp, recs, r);
    SmallUpserted(cmp, recs, r);
    forall t | 0 <= t < |all|
      ensures all[t].LeafRec? && !all[t].deleted && Small(all[t])
    {
      UpsertedMember(cmp, recs, r, t);
    }
    SmallCosts(all);
  }

  // ---------------------------------------------------------------- runs

  /** A tree with page numbers to spare for `n` more operations. */
  ghost predicate Ready(t: BTree, n: nat)
    reads t
  {
    t.Valid() && |t.store| + 34 * n <= MAX_PAGES
  }

  predicate OpPacks(op: Op) {
    op.PutOp? ==> Packs(op.key, op.val)
  }

  /** The operation does what a map does: a put can split by halving, a delete drops no page. */
  ghost predicate OpSafe(t: BTree, op: Op)
    reads t
    requires t.Valid()
  {
    match op
    case PutOp(k, v) => PutFits(t.cmp, t.store, t.rootId, k, v)
    case GetOp(_) => true
    case DeleteOp(k) => k in t.Contents() ==> DeleteSafe(t.cmp, t.store, t.rootId, k)
  }

  /** What it does to the searches after it. */
  ghost function OpFate(t: BTree, op: Op): Fate
    reads t
    requires t.Valid()
  {
    if op.PutOp? then PutRefills(t.cmp, t.store, t.rootId, op.key, op.val) else if OpSafe(t, op) then Whole else Drops
  }

  /** Every search finds what a map would give. */
  ghost predicate Serves(t: BTree, m: map<Key, Value>)
    reads t
  {
    forall x :: Lookup(t.cmp, t.store, t.rootId, x) == MapLookup(m, x)
  }

  /** One operation. It answers as on a map in any case, and leaves a well-formed tree with the
      map's next state exactly if it is safe; a search then finds what it should exactly if
      the operation drops nothing. In a tree of small entries every put is safe. */
  method Perform(t: BTree, op: Op, ghost n: nat) returns (reply: Reply, safe: bool, ghost fate: Fate)
    requires Ready(t, n + 1) && OpPacks(op)
    modifies t
    ensures safe == old(OpSafe(t, op)) && fate == old(OpFate(t, op)) && (safe ==> fate == Whole)
    ensures op.GetOp? ==> safe
    ensures reply == MapReply(old(t.Contents()), op)
    ensures var m, k := old(t.Contents()), op.key;
      && (op.PutOp? ==> reply == Done)
      && (op.GetOp? ==> if k in m then reply == Found(m[k]) else reply == Missing)
      && (op.DeleteOp? ==> if k in m then reply == Done else reply == Missing)
    ensures safe ==> Ready(t, n) && |t.levels| > 0 && |t.levels[0]| > 0
    ensures safe ==> t.Contents() == MapStep(old(t.Contents()), op)
    ensures var m, k := old(t.Contents()), op.key;
      && (safe && op.PutOp? ==> t.Contents() == m[k := op.val])
      && (op.GetOp? ==> t.Contents() == m)
      && (safe && op.DeleteOp? ==> t.Contents() == m - {k})
    ensures op.PutOp? ==> (safe <==> Intact(t.cmp, t.store, t.rootId, MapStep(old(t.Contents()), op)))
    ensures fate != Overlaps ==> (fate == Whole <==> Serves(t, MapStep(old(t.Contents()), op)))
    ensures old(|t.levels| > 0 && |t.levels[0]| > 0) && (safe ==> t.levels[0][0].pid == old(t.levels[0][0].pid))
    ensures old(SmallStore(t.store)) && SmallOp(op) && (op.PutOp? || safe) ==> safe && SmallStore(t.store)
  {
    hide TreeOk, SmallStore, DeleteSafe, PutFits, PutRefills, ToMap, Records, Intact, Lookup;
    safe, fate := true, OpFate(t, op);
    FirstLeaf(t.cmp, t.store, t.rootId, t.levels);
    ghost var m := t.Contents();
    match op {
      case PutOp(k, v) =>
        if SmallStore(t.store) && SmallOp(op) {
          SmallPutFits(t.cmp, t.store, t.rootId, t.levels, k, v);
        }
        safe := PutFits(t.cmp, t.store, t.rootId, k, v);
        if safe {
          PutFitsWhole(t.cmp, t.store, t.rootId, k, v);
        }
        var _ := t.Put(k, v);
        reply := Done;
      case GetOp(k) =>
        var err, val, _ := t.Get(k, PAGE_SIZE);
        reply := if err == Ok then Found(val) else Missing;
      case DeleteOp(k) =>
        safe := DeleteSafe(t.cmp, t.store, t.rootId, k);
        var err := t.Delete(k);
        safe := safe || err == NotFound;
        reply := if err == Ok then Done else Missing;
    }
    if safe {
      FirstLeaf(t.cmp, t.store, t.rootId, t.levels);
      SearchesAgree(t.cmp, t.store, t.rootId, t.levels);
    }
  }

  lemma MapRunNone(m: map<Key, Value>, ops: seq<Op>)
    ensures MapRun(m, ops[..0]) == m
  {
  }

  lemma MapRunStep(m: map<Key, Value>, ops: seq<Op>, i: nat)
    requires i < |ops|
    ensures MapRun(m, ops[..i + 1]) == MapStep(MapRun(m, ops[..i]), ops[i])
  {
    assert ops[..i + 1][..i] == ops[..i];
  }

  /** Runs operations one after the other, up to the first unsafe one and with it. Every reply
      is the one a finite map gives, up to the last. If all were safe the tree is well-formed,
      holds the map, and its leftmost leaf is the same page as at the start; if not, searches
      afterwards still find what they should exactly if the last operation dropped nothing.
      With small entries only a delete can end the run early. */
  method Run(t: BTree, ops: seq<Op>) returns (replies: seq<Reply>, sound: bool, ghost fate: Fate)
    requires Ready(t, |ops|) && forall i :: 0 <= i < |ops| ==> OpPacks(ops[i])
    modifies t
    ensures |replies| <= |ops| && (sound ==> |replies| == |ops| && fate == Whole)
    ensures forall i :: 0 <= i < |replies| ==> replies[i] == MapReply(MapRun(old(t.Contents()), ops[..i]), ops[i])
    ensures forall i :: 0 <= i < |replies| ==>
      var m, k := MapRun(old(t.Contents()), ops[..i]), ops[i].key;
      && (ops[i].PutOp? ==> replies[i] == Done)
      && (ops[i].GetOp? ==> if k in m then replies[i] == Found(m[k]) else replies[i] == Missing)
      && (ops[i].DeleteOp? ==> if k in m then replies[i] == Done else replies[i] == Missing)
    ensures var m := MapRun(old(t.Contents()), ops[..|replies|]);
      && (sound ==> t.Valid() && t.Contents() == m)
      && (!sound ==> |replies| > 0 && !ops[|replies| - 1].GetOp?)
      && (!sound && ops[|replies| - 1].PutOp? ==> !Intact(t.cmp, t.store, t.rootId, m))
      && (fate != Overlaps ==> (fate == Whole <==> Serves(t, m)))
    ensures old(SmallStore(t.store)) && (forall i :: 0 <= i < |ops| ==> SmallOp(ops[i])) && !sound ==>
      ops[|replies| - 1].DeleteOp?
    ensures old(|t.levels| > 0 && |t.levels[0]| > 0)
    ensures sound ==> |t.levels| > 0 && |t.levels[0]| > 0 && t.levels[0][0].pid == old(t.levels[0][0].pid)
  {
    hide TreeOk, SmallStore, ToMap, Records, MapStep, SmallOp, MapRun, OpSafe, OpFate, OpPacks, Intact,
      Serves;
    ghost var m := t.Contents();
    MapRunNone(m, ops);
    ghost var small := SmallStore(t.store) && forall i :: 0 <= i < |ops| ==> SmallOp(ops[i]);
    replies := [];
    sound, fate := true, Whole;
    var i := 0;
    FirstLeaf(t.cmp, t.store, t.rootId, t.levels);
    ServesNow(t);
    while i < |ops|
      invariant 0 <= i <= |ops| && |replies| == i && Ready(t, |ops| - i) && sound && fate == Whole
      invariant t.Contents() == MapRun(m, ops[..i]) && Serves(t, t.Contents()) && (small ==> SmallStore(t.store))
      invariant forall h :: 0 <= h < i ==> replies[h] == MapReply(MapRun(m, ops[..h]), ops[h])
      invariant |t.levels| > 0 && |t.levels[0]| > 0 && t.levels[0][0].pid == old(t.levels[0][0].pid)
    {
      MapRunStep(m, ops, i);
      var reply;
      reply, sound, fate := Perform(t, ops[i], |ops| - i - 1);
      replies := replies + [reply];
      i := i + 1;
      if !sound {
        return;
      }
    }
    assert ops[..|ops|] == ops;
  }

  lemma ServesNow(t: BTree)
    requires t.Valid() && |t.levels| > 0
    ensures Serves(t, t.Contents())
  {
    hide Lookup, ToMap, Records;
    SearchesAgree(t.cmp, t.store, t.rootId, t.levels);
  }
}
