/** The way up of btree_put as one loop invariant: either everything fitted so far and the
    climb is sound, or something was lost and the rest is drift. */
module Ascents {
  import opened Comparator
  import opened Pages
  import opened Levels
  import opened Search
  import opened Fitting
  import opened InternalSteps
  import opened RootSteps
  import opened Height
  import opened Climb
  import opened TornSplits
  import opened Drift

  /** What the propagation starts from: the root, the leaves and their records, whether all is
      going to fit, and for a torn leaf the store right after its split. */
  datatype Origin = Origin(root: PageId, leaves: Level, recs: seq<Rec>, fits: bool, small: bool,
                           torn: bool, base: seq<Page>, below: seq<Level>, up: seq<PageId>)

  /** How it stands: sound, or drifting since a split of page `j` of level `u`. */
  datatype Course =
    | Sound
    | Adrift(base: seq<Page>, below: seq<Level>, u: nat, up: seq<PageId>, sv: seq<Page>, j: nat, left: seq<Rec>,
      right: seq<Rec>)

  ghost predicate OnCourse(cmp: Cmp, o: Origin, c: Course, s: seq<Page>, lv: seq<Level>, path: seq<PageId>, k: Key,
                           ix: seq<nat>, r: nat, sep: Key, pid: PageId)
  {
    && r < |path|
    && match c
       case Sound =>
         && !o.torn && |lv| == |path| == |ix| && Climbing(cmp, s, o.root, lv, path, k, ix, r, sep, pid) && Loaded(s, lv)
         && lv[0] == o.leaves && Records(s, lv[0]) == o.recs
         && o.fits == AscentFits(cmp, s, path, |path| - 2 - r, sep, pid)
         && (o.small ==> SmallStore(s) && |sep| <= MAX_PAYLOAD)
       case Adrift(base, below, u, up, sv, j, left, right) =>
         && Drifting(cmp, base, s, below, u, up, path, |path| - 2 - r, pid, o.root)
         && (if o.torn then base == o.base && below == o.below && u == 0 && up == o.up
             else !o.fits && CutTorn(cmp, sv, o.root, below, u, j, base, left, right, up))
  }

  /** What the propagation leaves. */
  ghost predicate Arrived(cmp: Cmp, o: Origin, s: seq<Page>, root: PageId, lv: seq<Level>) {
    && (!o.torn && o.fits ==>
          && Shape(cmp, s, root, lv, NoGap) && Loaded(s, lv) && lv[0] == o.leaves && Records(s, lv[0]) == o.recs
          && (o.small ==> SmallStore(s)))
    && (!o.torn && !o.fits ==> forall lvz :: !TreeOk(cmp, s, root, lvz))
    && (o.torn ==> Later(o.base, s, o.below, 0, o.up) && RootOf(s, root, o.root))
  }

  // ---------------------------------------------------------------- what the steps need

  lemma OnTop(cmp: Cmp, o: Origin, c: Course, s: seq<Page>, lv: seq<Level>, path: seq<PageId>, k: Key, ix: seq<nat>,
              r: nat, sep: Key, pid: PageId)
    requires OnCourse(cmp, o, c, s, lv, path, k, ix, r, sep, pid) && r + 1 == |path|
    ensures o.root < |s| && pid < |s|
  {
    hide Climbing, Drifting, CutTorn, Records, AscentFits, SmallStore;
    match c
    case Sound => ClimbTop(cmp, s, o.root, lv, path, k, ix, r, sep, pid);
    case Adrift(base, below, u, up, sv, j, left, right) => DriftRange(cmp, base, s, below, u, up, path, -1, pid,
      o.root);
  }

  lemma DriftRange(cmp: Cmp, s: seq<Page>, z: seq<Page>, lv: seq<Level>, u: nat, up: seq<PageId>,
                   path: seq<PageId>, level: int, pid: PageId, root: PageId)
    requires Drifting(cmp, s, z, lv, u, up, path, level, pid, root)
    ensures root < |z| && pid < |z|
  {
  }

  lemma OnParent(cmp: Cmp, o: Origin, c: Course, s: seq<Page>, lv: seq<Level>, path: seq<PageId>, k: Key, ix: seq<nat>,
                 r: nat, sep: Key, pid: PageId)
    requires OnCourse(cmp, o, c, s, lv, path, k, ix, r, sep, pid) && r + 1 < |path|
    ensures var p := path[|path| - 2 - r];
      && Order(cmp) && p < |s| && s[p].kind == InternalPage && s[p].prev == s[p].next == INVALID_PAGE_ID
      && Sorted(cmp, s[p].recs)
      && (forall t :: 0 <= t < |TakenUp(cmp, s[p], sep, pid).recs| ==>
            ChildOf(TakenUp(cmp, s[p], sep, pid).recs[t]) < |s| && ChildOf(TakenUp(cmp, s[p], sep, pid).recs[t]) != p)
  {
    hide Climbing, Drifting, CutTorn, Records, AscentFits, SmallStore, TakenUp, Order, Sorted;
    match c
    case Sound => ClimbParent(cmp, s, o.root, lv, path, k, ix, r, sep, pid);
    case Adrift(base, below, u, up, sv, j, left, right) =>
      DriftParent(cmp, base, s, below, u, up, path, |path| - 2 - r, sep, pid, o.root);
  }

  // ---------------------------------------------------------------- the steps

  /** A drift that began with a torn internal split ends without a tree. */
  lemma DriftEnds(cmp: Cmp, o: Origin, c: Course, s: seq<Page>, root: PageId, lv: seq<Level>)
    requires c.Adrift? && Later(c.base, s, c.below, c.u, c.up) && RootOf(s, root, o.root)
    requires if o.torn then c.base == o.base && c.below == o.below && c.u == 0 && c.up == o.up
             else !o.fits && CutTorn(cmp, c.sv, o.root, c.below, c.u, c.j, c.base, c.left, c.right, c.up)
    ensures Arrived(cmp, o, s, root, lv)
  {
    hide Later, RootOf, CutTorn, TreeOk, Shape, Loaded, Records, SmallStore;
    if !o.torn {
      CutNoTree(cmp, c.sv, o.root, c.below, c.u, c.j, c.base, c.left, c.right, s, c.up, root);
    }
  }

  lemma ArriveTop(cmp: Cmp, o: Origin, c: Course, s: seq<Page>, lv: seq<Level>, path: seq<PageId>, k: Key, ix: seq<nat>,
                  r: nat, sep: Key, pid: PageId, s': seq<Page>)
    requires OnCourse(cmp, o, c, s, lv, path, k, ix, r, sep, pid) && r + 1 == |path|
    requires RootParts(s, s', o.root, pid, Kept([ChildRec(sep, pid)]))
    ensures Arrived(cmp, o, s', |s|, lv + [TopLevel(s)])
  {
    hide Climbing, Drifting, CutTorn, Records, AscentFits, SmallStore, Kept, RootParts, Shape, Loaded, TreeOk, Later,
      RootOf, Fits;
    var rec := ChildRec(sep, pid);
    match c
    case Sound =>
      AscentTop(cmp, s, path, -1, sep, pid);
      if o.fits {
        KeptFacts([rec]);
        GrowthOf(s, s', o.root, sep, pid);
        ClimbGrow(cmp, s, o.root, lv, path, k, ix, r, sep, pid, s');
        if o.small {
          SmallGrow(s, s', o.root, Edge(From(sep), pid));
        }
      } else {
        RootNoTree(cmp, s, s', o.root, pid, rec);
      }
    case Adrift(base, below, u, up, sv, j, left, right) =>
      DriftGrow(cmp, base, s, below, u, up, path, -1, pid, o.root, s', Kept([rec]));
      DriftEnds(cmp, o, c, s', |s|, lv + [TopLevel(s)]);
  }

  lemma GrowthOf(s: seq<Page>, s': seq<Page>, root: PageId, sep: Key, pid: PageId)
    requires RootParts(s, s', root, pid, [ChildRec(sep, pid)])
    ensures RootGrowth(s, s', root, Edge(From(sep), pid))
  {
  }

  lemma AscentTop(cmp: Cmp, s: seq<Page>, path: seq<PageId>, level: int, sep: Key, pid: PageId)
    requires level == -1 < |path|
    ensures AscentFits(cmp, s, path, level, sep, pid) <==> Fits([ChildRec(sep, pid)])
  {
  }

  lemma AscentStep(cmp: Cmp, s: seq<Page>, path: seq<PageId>, level: nat, sep: Key, pid: PageId)
    requires level < |path|
    ensures var p := PageAt(s, path[level]); var all := TakenUp(cmp, p, sep, pid).recs;
            AscentFits(cmp, s, path, level, sep, pid) <==>
            InsertFits(p.recs, ChildRec(sep, pid))
              || (InternalHalvesFit(all) && AscentFits(cmp, s, path, level - 1, all[|all| / 2].key, pid + 1))
  {
  }

  lemma ArriveInsert(cmp: Cmp, o: Origin, c: Course, s: seq<Page>, lv: seq<Level>, path: seq<PageId>, k: Key,
                     ix: seq<nat>, r: nat, sep: Key, pid: PageId, s': seq<Page>)
    requires OnCourse(cmp, o, c, s, lv, path, k, ix, r, sep, pid) && r + 1 < |path|
    requires var p := path[|path| - 2 - r];
      p < |s| && InsertFits(s[p].recs, ChildRec(sep, pid)) && s' == s[p := TakenUp(cmp, s[p], sep, pid)]
    ensures Arrived(cmp, o, s', o.root, lv)
  {
    hide Climbing, Drifting, CutTorn, Records, AscentFits, SmallStore, Shape, Loaded, TreeOk, Later, InsertFits, Fits,
      UpperPos;
    var level := |path| - 2 - r;
    match c
    case Sound =>
      AscentStep(cmp, s, path, level, sep, pid);
      InsertFitsIffFits(s[path[level]].recs, UpperPos(cmp, s[path[level]].recs, sep), ChildRec(sep, pid));
      ClimbInsert(cmp, s, o.root, lv, path, k, ix, r, sep, pid, s');
      if o.small {
        SmallTakeUp(cmp, s, path[level], sep, pid);
      }
    case Adrift(base, below, u, up, sv, j, left, right) =>
      DriftInsert(cmp, base, s, below, u, up, path, level, pid, o.root, s'[path[level]], s');
      DriftEnds(cmp, o, c, s', o.root, lv);
  }

  lemma NextCourse(cmp: Cmp, o: Origin, c: Course, s: seq<Page>, lv: seq<Level>, path: seq<PageId>, k: Key,
                   ix: seq<nat>, r: nat, sep: Key, pid: PageId, zv: seq<Page>, s': seq<Page>)
    returns (c': Course, lv': seq<Level>)
    requires OnCourse(cmp, o, c, s, lv, path, k, ix, r, sep, pid) && r + 1 < |path|
    requires path[|path| - 2 - r] < |s| && !InsertFits(s[path[|path| - 2 - r]].recs, ChildRec(sep, pid))
    requires zv == s[path[|path| - 2 - r] := TakenUp(cmp, s[path[|path| - 2 - r]], sep, pid)]
    requires var all := zv[path[|path| - 2 - r]].recs;
      && |all| / 2 < |all|
      && InternalParts(zv, s', path[|path| - 2 - r], |all| / 2, Kept(all[..|all| / 2]), Kept(all[|all| / 2 + 1..]))
    ensures var all := zv[path[|path| - 2 - r]].recs;
      OnCourse(cmp, o, c', s', lv', path, k, ix, r + 1, all[|all| / 2].key, |s|)
  {
    hide Climbing, Drifting, CutTorn, Records, AscentFits, SmallStore, Shape, Loaded, TakenUp, InternalParts, Kept,
      InternalHalvesFit, InsertFits;
    var level := |path| - 2 - r;
    var all := zv[path[level]].recs;
    var left, right := Kept(all[..|all| / 2]), Kept(all[|all| / 2 + 1..]);
    c', lv' := c, lv;
    match c {
      case Sound =>
        PendingIsLast(cmp, s, o.root, lv, path, k, ix, r, sep, pid);
        AscentStep(cmp, s, path, level, sep, pid);
        if InternalHalvesFit(all) {
          HalvesKept(zv, s', path[level]);
          ClimbCut(cmp, s, o.root, lv, path, k, ix, r, sep, pid, zv, s');
          if o.small {
            SmallTakeUp(cmp, s, path[level], sep, pid);
            MedianIsChild(cmp, s, o.root, lv, path, k, ix, r, sep, pid);
            SmallCut(zv, s', path[level], |all| / 2);
          }
          lv' := lv[r + 1 := InsertAt(lv[r + 1], ix[r + 1] + 1, Edge(From(all[|all| / 2].key), |s|))];
        } else {
          TornStart(cmp, s, o.root, lv, path, k, ix, r, sep, pid, zv, s');
          c' := Adrift(s', lv, r + 1, path[..level], zv, ix[r + 1], left, right);
        }
      case Adrift(base, below, u, up, sv, j, _, _) =>
        DriftCut(cmp, base, s, below, u, up, path, level, sep, pid, o.root, zv, s', |all| / 2, left, right);
    }
  }

  lemma PendingIsLast(cmp: Cmp, s: seq<Page>, root: PageId, lv: seq<Level>, path: seq<PageId>, k: Key,
                      ix: seq<nat>, r: nat, sep: Key, pid: PageId)
    requires Climbing(cmp, s, root, lv, path, k, ix, r, sep, pid)
    ensures pid + 1 == |s|
  {
  }

  lemma HalvesKept(s: seq<Page>, s': seq<Page>, pid: PageId)
    requires pid < |s| && InternalHalvesFit(s[pid].recs)
    requires var all := s[pid].recs;
      InternalParts(s, s', pid, |all| / 2, Kept(all[..|all| / 2]), Kept(all[|all| / 2 + 1..]))
    ensures InternalSplit(s, s', pid, |s[pid].recs| / 2)
  {
    hide Kept, InternalParts, Fits;
    var all := s[pid].recs;
    KeptFacts(all[..|all| / 2]);
    KeptFacts(all[|all| / 2 + 1..]);
  }

  // ---------------------------------------------------------------- the start

  lemma StartSound(cmp: Cmp, o: Origin, s: seq<Page>, lv: seq<Level>, path: seq<PageId>, k: Key, ix: seq<nat>,
                   sep: Key, pid: PageId)
    requires 0 < |path| && !o.torn && Climbing(cmp, s, o.root, lv, path, k, ix, 0, sep, pid) && Loaded(s, lv)
    requires 0 < |lv| && o.leaves == lv[0] && o.recs == Records(s, lv[0])
    requires o.fits == AscentFits(cmp, s, path, |path| - 2, sep, pid)
    requires o.small ==> SmallStore(s) && |sep| <= MAX_PAYLOAD
    ensures OnCourse(cmp, o, Sound, s, lv, path, k, ix, 0, sep, pid)
  {
    hide Shape, Loaded, OnPath, Order, Records, AscentFits, SmallStore;
  }

  lemma StartAdrift(cmp: Cmp, o: Origin, s: seq<Page>, lv: seq<Level>, path: seq<PageId>, k: Key, ix: seq<nat>,
                    sep: Key, pid: PageId)
    requires 0 < |path| && o.torn
    requires Drifting(cmp, o.base, s, o.below, 0, o.up, path, |path| - 2, pid, o.root)
    ensures OnCourse(cmp, o, Adrift(o.base, o.below, 0, o.up, s, 0, [], []), s, lv, path, k, ix, 0, sep, pid)
  {
    hide Drifting;
  }
}
