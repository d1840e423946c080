/** What a tree stores: the map from keys to values that its leaves hold. */
module Contents {
  import opened Comparator
  import opened Pages
  import opened Lists
  import opened Levels
  import opened Frames

  type Value = seq<byte>

  function ValOf(r: Rec): Value {
    match r
    case LeafRec(_, val, _) => val
    case ChildRec(_, _) => []
  }

  ghost function ToMap(recs: seq<Rec>): map<Key, Value> {
    if recs == [] then map[] else ToMap(recs[..|recs| - 1])[recs[|recs| - 1].key := ValOf(recs[|recs| - 1])]
  }

  lemma MapUpdateRight<K, V>(a: map<K, V>, b: map<K, V>, k: K, v: V)
    ensures (a + b)[k := v] == a + b[k := v]
  {
  }

  lemma {:induction false} ToMapConcat(a: seq<Rec>, b: seq<Rec>)
    ensures ToMap(a + b) == ToMap(a) + ToMap(b)
  {
    if b == [] {
      assert a + b == a;
    } else {
      var n := |b| - 1;
      ToMapConcat(a, b[..n]);
      assert (a + b)[..|a + b| - 1] == a + b[..n];
      MapUpdateRight(ToMap(a), ToMap(b[..n]), b[n].key, ValOf(b[n]));
    }
  }

  lemma ToMapThree(a: seq<Rec>, m: seq<Rec>, b: seq<Rec>)
    ensures ToMap(a + m + b) == ToMap(a) + ToMap(m) + ToMap(b)
  {
    hide ToMap;
    ToMapConcat(a + m, b);
    ToMapConcat(a, m);
  }

  lemma ToMapOne(r: Rec)
    ensures ToMap([r]) == map[r.key := ValOf(r)]
  {
    assert [r][..0] == [];
  }

  /** The keys of the map are the keys of the records. */
  lemma {:induction false} ToMapKeys(recs: seq<Rec>, k: Key)
    ensures k in ToMap(recs) <==> exists t :: 0 <= t < |recs| && recs[t].key == k
  {
    if recs != [] {
      var n := |recs| - 1;
      ToMapKeys(recs[..n], k);
      if k in ToMap(recs[..n]) {
        var t :| 0 <= t < n && recs[..n][t].key == k;
        assert recs[t].key == k;
      }
      if t :| 0 <= t < |recs| && recs[t].key == k {
        if t < n {
          assert recs[..n][t].key == k;
        }
      }
    }
  }

  lemma {:induction false} ToMapAt(cmp: Cmp, recs: seq<Rec>, t: nat)
    requires Order(cmp) && Sorted(cmp, recs) && t < |recs|
    ensures recs[t].key in ToMap(recs) && ToMap(recs)[recs[t].key] == ValOf(recs[t])
  {
    var n := |recs| - 1;
    if t < n {
      ToMapAt(cmp, recs[..n], t);
      assert Lt(cmp, recs[t].key, recs[n].key);
    }
  }

  // ---------------------------------------------------------------- changing one record

  /** Adding a record whose key no later record has. */
  lemma ToMapInsert(recs: seq<Rec>, i: nat, r: Rec)
    requires i <= |recs| && forall t :: i <= t < |recs| ==> recs[t].key != r.key
    ensures ToMap(InsertAt(recs, i, r)) == ToMap(recs)[r.key := ValOf(r)]
  {
    hide ToMap;
    var a, b := recs[..i], recs[i..];
    assert recs == a + b;
    ToMapThree(a, [r], b);
    ToMapConcat(a, b);
    ToMapOne(r);
    ToMapKeys(b, r.key);
    MapSlip(ToMap(a), ToMap(b), r.key, ValOf(r));
  }

  lemma MapSlip<K, V>(a: map<K, V>, b: map<K, V>, k: K, v: V)
    requires k !in b
    ensures a + map[k := v] + b == (a + b)[k := v]
  {
  }

  /** Dropping the only record with its key. */
  lemma ToMapRemove(recs: seq<Rec>, i: nat)
    requires i < |recs| && forall t :: 0 <= t < |recs| && t != i ==> recs[t].key != recs[i].key
    ensures ToMap(RemoveAt(recs, i)) == ToMap(recs) - {recs[i].key}
  {
    hide ToMap, RemoveAt;
    var a, b := recs[..i], recs[i + 1..];
    AroundRecord(recs, i);
    OthersDiffer(recs, i, a, b);
    ToMapThree(a, [recs[i]], b);
    ToMapConcat(a, b);
    ToMapOne(recs[i]);
    NoKey(a, recs[i].key);
    NoKey(b, recs[i].key);
    MapDrop(ToMap(a), ToMap(b), recs[i].key, ValOf(recs[i]));
  }

  lemma AroundRecord(recs: seq<Rec>, i: nat)
    requires i < |recs|
    ensures recs == recs[..i] + [recs[i]] + recs[i + 1..] && RemoveAt(recs, i) == recs[..i] + recs[i + 1..]
  {
  }

  lemma OthersDiffer(recs: seq<Rec>, i: nat, a: seq<Rec>, b: seq<Rec>)
    requires i < |recs| && recs == a + [recs[i]] + b && |a| == i
    requires forall t :: 0 <= t < |recs| && t != i ==> recs[t].key != recs[i].key
    ensures forall t :: 0 <= t < |a| ==> a[t].key != recs[i].key
    ensures forall t :: 0 <= t < |b| ==> b[t].key != recs[i].key
  {
    assert forall t :: 0 <= t < |b| ==> b[t] == recs[i + 1 + t];
    assert forall t :: 0 <= t < |a| ==> a[t] == recs[t];
  }

  lemma NoKey(recs: seq<Rec>, k: Key)
    requires forall t :: 0 <= t < |recs| ==> recs[t].key != k
    ensures k !in ToMap(recs)
  {
    hide ToMap;
    ToMapKeys(recs, k);
  }

  lemma MapDrop<K, V>(a: map<K, V>, b: map<K, V>, k: K, v: V)
    requires k !in a && k !in b
    ensures a + map[k := v] + b - {k} == a + b
  {
  }

  /** A key that lives in the middle part only. */
  lemma ToMapMiddlePut(a: seq<Rec>, m: seq<Rec>, m': seq<Rec>, b: seq<Rec>, k: Key, v: Value)
    requires k !in ToMap(b) && ToMap(m') == ToMap(m)[k := v]
    ensures ToMap(a + m' + b) == ToMap(a + m + b)[k := v]
  {
    hide ToMap;
    ToMapThree(a, m, b);
    ToMapThree(a, m', b);
    MapPutMiddle(ToMap(a), ToMap(m), ToMap(b), k, v);
  }

  lemma MapPutMiddle<K, V>(a: map<K, V>, m: map<K, V>, b: map<K, V>, k: K, v: V)
    requires k !in b
    ensures a + m[k := v] + b == (a + m + b)[k := v]
  {
  }

  lemma ToMapMiddleRemove(a: seq<Rec>, m: seq<Rec>, m': seq<Rec>, b: seq<Rec>, k: Key)
    requires k !in ToMap(a) && k !in ToMap(b) && ToMap(m') == ToMap(m) - {k}
    ensures ToMap(a + m' + b) == ToMap(a + m + b) - {k}
  {
    hide ToMap;
    ToMapThree(a, m, b);
    ToMapThree(a, m', b);
    MapRemoveMiddle(ToMap(a), ToMap(m), ToMap(b), k);
  }

  lemma MapRemoveMiddle<K, V>(a: map<K, V>, m: map<K, V>, b: map<K, V>, k: K)
    requires k !in a && k !in b
    ensures a + (m - {k}) + b == a + m + b - {k}
  {
  }

  // ---------------------------------------------------------------- the leaves of a level

  /** Every record of the level stands in the leaf whose span holds its key. */
  lemma RecordInSpan(cmp: Cmp, s: seq<Page>, es: Level, g: nat) returns (i: nat, t: nat)
    requires Leaves(cmp, s, es) && g < |Records(s, es)|
    ensures i < |es| && t < |PageAt(s, es[i].pid).recs|
    ensures g == |Records(s, es[..i])| + t
    ensures Records(s, es)[g] == PageAt(s, es[i].pid).recs[t]
    ensures InSpan(cmp, Records(s, es)[g].key, es, i)
  {
    i, t := FlatLocate(RecLists(s, es), g);
    assert RecLists(s, es)[..i] == RecLists(s, es[..i]);
    assert LeafAt(cmp, s, es, i);
  }

  lemma BelowUp(cmp: Cmp, k: Key, b: Bound, c: Bound)
    requires Order(cmp) && BoundLt(cmp, b, c)
    ensures Below(cmp, k, b) ==> Below(cmp, k, c)
  {
  }

  lemma SpanOrder(cmp: Cmp, es: Level, k: Key, i: nat, l: Key, j: nat)
    requires Order(cmp) && Ascending(cmp, es) && i < j
    requires InSpan(cmp, k, es, i) && InSpan(cmp, l, es, j)
    ensures Lt(cmp, k, l)
  {
    var b := es[i + 1].lo;
    if i + 1 < j {
      assert BoundLt(cmp, b, es[j].lo);
      BelowUp(cmp, l, b, es[j].lo);
    }
    assert l == b.key || Lt(cmp, b.key, l);
  }

  /** The leaves, read from left to right, are sorted. */
  lemma RecordsSorted(cmp: Cmp, s: seq<Page>, es: Level)
    requires Order(cmp) && Ascending(cmp, es) && Leaves(cmp, s, es)
    ensures Sorted(cmp, Records(s, es))
  {
    var all := Records(s, es);
    forall a, b | 0 <= a < b < |all|
      ensures Lt(cmp, all[a].key, all[b].key)
    {
      var i, t := RecordInSpan(cmp, s, es, a);
      var j, u := RecordInSpan(cmp, s, es, b);
      hide Records;
      if i < j {
        SpanOrder(cmp, es, all[a].key, i, all[b].key, j);
      } else if i == j {
        assert LeafAt(cmp, s, es, i);
      } else {
        RecordsPrefix(s, es, j, i);
        assert false;
      }
    }
  }

  lemma RecordsPrefix(s: seq<Page>, es: Level, j: nat, i: nat)
    requires j < i <= |es|
    ensures |Records(s, es[..j])| + |PageAt(s, es[j].pid).recs| <= |Records(s, es[..i])|
  {
    RecordsSplit(s, es[..i], j);
    assert es[..i][..j] == es[..j] && es[..i][j] == es[j];
  }

  /** A key is stored exactly if the leaf whose span holds it has it. */
  lemma LookupInLeaf(cmp: Cmp, s: seq<Page>, es: Level, k: Key, i: nat)
    requires Order(cmp) && Ascending(cmp, es) && Leaves(cmp, s, es) && InSpan(cmp, k, es, i)
    ensures k !in ToMap(Records(s, es[..i])) && k !in ToMap(Records(s, es[i + 1..]))
    ensures k in ToMap(Records(s, es)) <==> k in ToMap(PageAt(s, es[i].pid).recs)
    ensures k in ToMap(Records(s, es)) ==> ToMap(Records(s, es))[k] == ToMap(PageAt(s, es[i].pid).recs)[k]
  {
    var a, m, b := Records(s, es[..i]), PageAt(s, es[i].pid).recs, Records(s, es[i + 1..]);
    RecordsSplit(s, es, i);
    NotBefore(cmp, s, es, k, i);
    NotAfter(cmp, s, es, k, i);
    hide ToMap, Records;
    ToMapThree(a, m, b);
  }

  /** The leaf that holds position `g` of the records, when the key there is known. */
  lemma RecordHome(cmp: Cmp, s: seq<Page>, es: Level, g: nat, i: nat)
    requires Order(cmp) && Ascending(cmp, es) && Leaves(cmp, s, es)
    requires g < |Records(s, es)| && InSpan(cmp, Records(s, es)[g].key, es, i)
    ensures |Records(s, es[..i])| <= g < |Records(s, es[..i])| + |PageAt(s, es[i].pid).recs|
  {
    hide Records;
    var j, t := RecordInSpan(cmp, s, es, g);
    SpanUnique(cmp, Records(s, es)[g].key, es, i, j);
  }

  lemma NotBefore(cmp: Cmp, s: seq<Page>, es: Level, k: Key, i: nat)
    requires Order(cmp) && Ascending(cmp, es) && Leaves(cmp, s, es) && InSpan(cmp, k, es, i)
    ensures k !in ToMap(Records(s, es[..i]))
  {
    hide Records, ToMap;
    var a := Records(s, es[..i]);
    RecordsSplit(s, es, i);
    ToMapKeys(a, k);
    forall g | 0 <= g < |a| && a[g].key == k
      ensures false
    {
      assert Records(s, es)[g] == a[g];
      RecordHome(cmp, s, es, g, i);
    }
  }

  lemma NotAfter(cmp: Cmp, s: seq<Page>, es: Level, k: Key, i: nat)
    requires Order(cmp) && Ascending(cmp, es) && Leaves(cmp, s, es) && InSpan(cmp, k, es, i)
    ensures k !in ToMap(Records(s, es[i + 1..]))
  {
    hide Records, ToMap;
    var a, m, b := Records(s, es[..i]), PageAt(s, es[i].pid).recs, Records(s, es[i + 1..]);
    RecordsSplit(s, es, i);
    ToMapKeys(b, k);
    forall g | 0 <= g < |b| && b[g].key == k
      ensures false
    {
      assert Records(s, es)[|a| + |m| + g] == b[g];
      RecordHome(cmp, s, es, |a| + |m| + g, i);
    }
  }
}
