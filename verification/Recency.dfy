/** Least-recently-used order, apart from any cache: the distinct pages of a trace of
    accesses, most recently used first. */
module Recency {
  import opened Pages

  ghost predicate NoRepeats(s: seq<PageId>) {
    forall i, j :: 0 <= i < j < |s| ==> s[i] != s[j]
  }

  /** Where `p` is, or the length when it is not there. */
  function Position(s: seq<PageId>, p: PageId): (r: nat)
    ensures r <= |s| && (r < |s| ==> s[r] == p) && (r == |s| ==> p !in s)
  {
    if s == [] then 0 else if s[0] == p then 0 else 1 + Position(s[1..], p)
  }

  function Drop(s: seq<PageId>, a: nat): seq<PageId>
    requires a <= |s|
  {
    if a < |s| then RemoveAt(s, a) else s
  }

  /** `p` is used: it comes first, the others keep their order. */
  function Touch(s: seq<PageId>, p: PageId): (r: seq<PageId>)
  {
    [p] + Drop(s, Position(s, p))
  }

  /** The pages of a trace, most recently used first. */
  function Recent(trace: seq<PageId>): seq<PageId> {
    if trace == [] then [] else Touch(Recent(trace[..|trace| - 1]), trace[|trace| - 1])
  }

  /** What a cache of `capacity` pages holds. */
  function Resident(s: seq<PageId>, capacity: nat): (r: seq<PageId>)
    ensures |r| == if capacity < |s| then capacity else |s|
  {
    if capacity < |s| then s[..capacity] else s
  }

  /** Where the page that comes `i`-th after touching was before. */
  function PlaceBefore(a: nat, i: nat): (r: nat)
    requires i > 0
    ensures r != a && (r < a <==> i <= a)
  {
    if i <= a then i - 1 else i
  }

  lemma TouchAt(s: seq<PageId>, p: PageId, i: nat)
    requires 0 < i < |Touch(s, p)|
    ensures PlaceBefore(Position(s, p), i) < |s| && Touch(s, p)[i] == s[PlaceBefore(Position(s, p), i)]
  {
  }

  lemma TouchDistinct(s: seq<PageId>, p: PageId)
    requires NoRepeats(s)
    ensures NoRepeats(Touch(s, p))
    ensures forall q :: q in Touch(s, p) <==> q == p || q in s
  {
    hide Position;
    var a, r := Position(s, p), Touch(s, p);
    forall i, j | 0 <= i < j < |r|
      ensures r[i] != r[j]
    {
      hide Touch;
      TouchAt(s, p, j);
      if i > 0 {
        TouchAt(s, p, i);
        assert PlaceBefore(a, i) < PlaceBefore(a, j);
      } else {
        NotAgain(s, p, PlaceBefore(a, j));
      }
    }
    forall q
      ensures q in r <==> q == p || q in s
    {
      if q in s && q != p {
        var i :| 0 <= i < |s| && s[i] == q;
        assert r[if i < a then i + 1 else i] == q;
      }
    }
  }

  lemma NotAgain(s: seq<PageId>, p: PageId, i: nat)
    requires NoRepeats(s) && i < |s| && i != Position(s, p)
    ensures s[i] != p
  {
  }

  // ---------------------------------------------------------------- the order meant

  /** The last time `p` was used, counting from 1; 0 when never. */
  function LastUse(trace: seq<PageId>, p: PageId): (r: nat)
    ensures r <= |trace| && (r > 0 <==> p in trace)
  {
    if trace == [] then 0
    else if trace[|trace| - 1] == p then |trace|
    else LastUse(trace[..|trace| - 1], p)
  }

  /** Recent lists exactly the pages used, each once, later uses first. */
  lemma {:induction false} RecentOrder(trace: seq<PageId>)
    ensures NoRepeats(Recent(trace))
    ensures forall p :: p in Recent(trace) <==> p in trace
    ensures ByUse(trace, Recent(trace))
  {
    if trace != [] {
      var n := |trace| - 1;
      var before, p := trace[..n], trace[n];
      RecentOrder(before);
      TouchDistinct(Recent(before), p);
      forall q
        ensures q in Recent(trace) <==> q in trace
      {
        assert trace == before + [p];
      }
      OrderStep(before, p, trace);
    }
  }

  ghost predicate ByUse(trace: seq<PageId>, s: seq<PageId>) {
    forall i, j :: 0 <= i < j < |s| ==> LastUse(trace, s[i]) > LastUse(trace, s[j])
  }

  lemma OrderStep(before: seq<PageId>, p: PageId, trace: seq<PageId>)
    requires trace == before + [p] && NoRepeats(Recent(before)) && ByUse(before, Recent(before))
    ensures ByUse(trace, Recent(trace))
  {
    assert trace[..|before|] == before;
    assert Recent(trace) == Touch(Recent(before), p);
    hide Recent, Touch, LastUse, PlaceBefore;
    var s := Recent(before);
    var a, r := Position(s, p), Touch(s, p);
    UseAfter(before, p, trace, p);
    forall i, j | 0 <= i < j < |r|
      ensures LastUse(trace, r[i]) > LastUse(trace, r[j])
    {
      LaterUse(before, p, trace, s, j);
      if i > 0 {
        LaterUse(before, p, trace, s, i);
        BeforeMonotone(a, i, j);
      } else {
        TouchFirst(s, p);
      }
    }
  }

  lemma LaterUse(before: seq<PageId>, p: PageId, trace: seq<PageId>, s: seq<PageId>, i: nat)
    requires trace == before + [p] && NoRepeats(s) && 0 < i < |Touch(s, p)|
    ensures PlaceBefore(Position(s, p), i) < |s|
    ensures LastUse(trace, Touch(s, p)[i]) == LastUse(before, s[PlaceBefore(Position(s, p), i)]) < |trace|
  {
    hide Touch, LastUse, PlaceBefore;
    TouchAt(s, p, i);
    NotAgain(s, p, PlaceBefore(Position(s, p), i));
    UseAfter(before, p, trace, Touch(s, p)[i]);
  }

  lemma BeforeMonotone(a: nat, i: nat, j: nat)
    requires 0 < i < j
    ensures PlaceBefore(a, i) < PlaceBefore(a, j)
  {
  }

  lemma UseAfter(before: seq<PageId>, p: PageId, trace: seq<PageId>, q: PageId)
    requires trace == before + [p]
    ensures LastUse(trace, q) == if q == p then |trace| else LastUse(before, q)
  {
    assert trace[..|before|] == before;
  }

  lemma TouchFirst(s: seq<PageId>, p: PageId)
    ensures |Touch(s, p)| > 0 && Touch(s, p)[0] == p
  {
  }

  /** A page is cached exactly when fewer than `capacity` distinct pages were used after it. */
  lemma ResidentMeans(trace: seq<PageId>, capacity: nat, p: PageId)
    requires p in trace
    ensures p in Resident(Recent(trace), capacity) <==> |UsedLater(trace, p)| < capacity
  {
    hide Recent, Position, LastUse;
    RecentOrder(trace);
    var s := Recent(trace);
    var a := Position(s, p);
    LaterIsPrefix(trace, p);
    FirstSize(s, a);
    if a < capacity {
      assert Resident(s, capacity)[a] == p;
    }
    if p in Resident(s, capacity) {
      var i :| 0 <= i < |Resident(s, capacity)| && Resident(s, capacity)[i] == p;
      assert i == a;
    }
  }

  /** The distinct pages used after the last use of `p`. */
  ghost function UsedLater(trace: seq<PageId>, p: PageId): set<PageId> {
    set q | q in trace && LastUse(trace, q) > LastUse(trace, p)
  }

  lemma LaterIsPrefix(trace: seq<PageId>, p: PageId)
    requires p in trace && NoRepeats(Recent(trace)) && ByUse(trace, Recent(trace))
    requires forall q :: q in Recent(trace) <==> q in trace
    ensures UsedLater(trace, p) == First(Recent(trace), Position(Recent(trace), p))
  {
    hide Recent, Position, LastUse;
    var s := Recent(trace);
    var a := Position(s, p);
    forall q
      ensures q in UsedLater(trace, p) <==> q in First(s, a)
    {
      FirstAre(s, a, q);
      if q in UsedLater(trace, p) {
        var i: nat :| i < |s| && s[i] == q;
        assert i < a;
      }
      if q in First(s, a) {
        var i: nat :| i < a && s[i] == q;
        assert LastUse(trace, s[i]) > LastUse(trace, s[a]);
      }
    }
  }

  /** The first `a` pages, as a set. */
  ghost function First(s: seq<PageId>, a: nat): set<PageId>
    requires a <= |s|
  {
    if a == 0 then {} else First(s, a - 1) + {s[a - 1]}
  }

  lemma {:induction false} FirstAre(s: seq<PageId>, a: nat, q: PageId)
    requires a <= |s|
    ensures q in First(s, a) <==> exists i: nat :: i < a && s[i] == q
  {
    if a > 0 {
      FirstAre(s, a - 1, q);
      if q in First(s, a - 1) {
        var i: nat :| i < a - 1 && s[i] == q;
      }
      assert s[a - 1] == q ==> q in First(s, a);
    }
  }

  lemma {:induction false} FirstSize(s: seq<PageId>, a: nat)
    requires NoRepeats(s) && a <= |s|
    ensures |First(s, a)| == a
  {
    if a > 0 {
      FirstSize(s, a - 1);
      FirstAre(s, a - 1, s[a - 1]);
    }
  }

  // ---------------------------------------------------------------- capacity

  /** Stack inclusion: what a cache holds, every larger cache holds. */
  lemma Inclusion(s: seq<PageId>, c: nat, d: nat, p: PageId)
    requires c <= d && p in Resident(s, c)
    ensures p in Resident(s, d)
  {
    var i :| 0 <= i < |Resident(s, c)| && Resident(s, c)[i] == p;
    assert Resident(s, d)[i] == p;
  }

  /** An access that finds its page cached. */
  predicate Hit(trace: seq<PageId>, i: nat, capacity: nat)
    requires i < |trace|
  {
    trace[i] in Resident(Recent(trace[..i]), capacity)
  }

  /** The hits among the counted accesses. */
  function Hits(trace: seq<PageId>, counted: seq<bool>, capacity: nat): (r: nat)
    requires |trace| == |counted|
    ensures r <= |trace|
  {
    if trace == [] then 0
    else
      var n := |trace| - 1;
      Hits(trace[..n], counted[..n], capacity) + if counted[n] && Hit(trace, n, capacity) then 1 else 0
  }

  /** A larger cache never has fewer hits on the same trace. */
  lemma {:induction false} HitsMonotone(trace: seq<PageId>, counted: seq<bool>, c: nat, d: nat)
    requires |trace| == |counted| && c <= d
    ensures Hits(trace, counted, c) <= Hits(trace, counted, d)
  {
    if trace != [] {
      var n := |trace| - 1;
      HitsMonotone(trace[..n], counted[..n], c, d);
      if Hit(trace, n, c) {
        Inclusion(Recent(trace[..n]), c, d, trace[n]);
      }
    }
  }

  // ---------------------------------------------------------------- what touching does to a cache

  /** A hit moves the page to the front of the cached ones. */
  lemma ResidentHit(s: seq<PageId>, c: nat, p: PageId)
    requires NoRepeats(s) && p in Resident(s, c)
    ensures var a := Position(s, p);
      && a < |Resident(s, c)| && Resident(s, c)[a] == p
      && Resident(Touch(s, p), c) == [p] + RemoveAt(Resident(s, c), a)
  {
    var i :| 0 <= i < |Resident(s, c)| && Resident(s, c)[i] == p;
    PositionIs(s, p, i);
    hide Position;
    TakeRemoved(s, i, p, c);
  }

  lemma PositionIs(s: seq<PageId>, p: PageId, i: nat)
    requires NoRepeats(s) && i < |s| && s[i] == p
    ensures Position(s, p) == i
  {
  }

  lemma TakeRemoved(s: seq<PageId>, a: nat, p: PageId, c: nat)
    requires a < |s| && a < c
    ensures Resident([p] + RemoveAt(s, a), c) == [p] + RemoveAt(Resident(s, c), a)
  {
    if c < |s| {
      var l, r := ([p] + RemoveAt(s, a))[..c], [p] + RemoveAt(s[..c], a);
      forall k | 0 <= k < c
        ensures l[k] == r[k]
      {
      }
    }
  }

  /** A miss puts the page in front and pushes the last one out of a full cache. */
  lemma ResidentMiss(s: seq<PageId>, c: nat, p: PageId)
    requires NoRepeats(s) && p !in Resident(s, c) && c > 0
    ensures Resident(Touch(s, p), c) == [p] + if |s| < c then Resident(s, c) else RemoveAt(Resident(s, c), c - 1)
  {
    var a := Position(s, p);
    assert forall i :: 0 <= i < |Resident(s, c)| ==> s[i] == Resident(s, c)[i] != p;
  }
}
