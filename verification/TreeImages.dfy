/** The pages of a well-formed tree as 4096-byte pages. */
module TreeImages {
  import opened Comparator
  import opened Pages
  import opened Levels
  import opened Frames
  import opened Height
  import opened PackedRecords

  /** A page as written: the tree gives no meaning to first_child_id of a leaf. */
  function Written(p: Page): Page {
    if p.kind == LeafPage then p.(firstChild := INVALID_PAGE_ID) else p
  }

  /** Every page of a well-formed tree fits its 4096 bytes exactly as the tree code sees it:
      no field overflows its width, no record is cut, no two records overlap. */
  lemma TreePageImage(cmp: Cmp, s: seq<Page>, root: PageId, lv: seq<Level>, q: nat, i: nat)
    requires TreeOk(cmp, s, root, lv) && q < |lv| && i < |lv[q]|
    ensures var p := PageAt(s, lv[q][i].pid);
      var w := if p.kind == LeafPage then p.(firstChild := 0) else p;
      exists b :: Image(b, w)
  {
    hide Shape, Room, Filled, Image, PackablePage, Order, Fits;
    var p := PageAt(s, lv[q][i].pid);
    RoomHere(s, lv, q, i);
    RecsPackable(cmp, s, root, lv, q, i);
    LinksPackable(cmp, s, root, lv, q, i);
    ParentPackable(cmp, s, root, lv, q, i);
    PackableParts(Written(p));
    ImageIffFits(Written(p));
  }

  lemma PackableParts(p: Page)
    requires forall t :: 0 <= t < |p.recs| ==> Packable(p.recs[t]) && KindOf(p.recs[t]) == p.kind
    requires p.parent < MAX_PAGES && p.prev < MAX_PAGES && p.next < MAX_PAGES && p.firstChild < MAX_PAGES
    ensures PackablePage(p)
  {
  }

  lemma RoomHere(s: seq<Page>, lv: seq<Level>, q: nat, i: nat)
    requires Room(s, lv) && q < |lv| && i < |lv[q]|
    ensures Fits(PageAt(s, lv[q][i].pid).recs)
  {
  }

  /** A record of a page that fits is shorter than the page. */
  lemma ShortRecord(recs: seq<Rec>, t: nat)
    requires Fits(recs) && t < |recs|
    ensures RecSize(recs[t]) < 65536
  {
    hide RecSize;
    assert recs == recs[..t] + [recs[t]] + recs[t + 1..];
    FitsPart(recs[..t], [recs[t]], recs[t + 1..]);
    assert [recs[t]][..0] == [];
  }

  /** The children of a page are pages of the level below. */
  lemma KidsBelow(cmp: Cmp, s: seq<Page>, root: PageId, lv: seq<Level>, q: nat, i: nat, c: nat)
    requires TreeOk(cmp, s, root, lv) && 0 < q < |lv| && i < |lv[q]| && c <= |PageAt(s, lv[q][i].pid).recs|
    ensures Kids(lv[q][i].lo, PageAt(s, lv[q][i].pid))[c].pid < |s|
  {
    assert Expand(s, lv[q]) == Seen(lv, q - 1, NoGap);
    LevelFacts(cmp, s, root, lv, NoGap, q - 1);
    hide TreeOk, Kids;
    ExpandAt(s, lv[q], i, c);
  }

  lemma RecsPackable(cmp: Cmp, s: seq<Page>, root: PageId, lv: seq<Level>, q: nat, i: nat)
    requires TreeOk(cmp, s, root, lv) && q < |lv| && i < |lv[q]| && Fits(PageAt(s, lv[q][i].pid).recs)
    ensures var p := PageAt(s, lv[q][i].pid);
      && (forall t :: 0 <= t < |p.recs| ==> Packable(p.recs[t]) && KindOf(p.recs[t]) == p.kind)
      && (p.kind == InternalPage ==> p.firstChild < MAX_PAGES)
  {
    var p := PageAt(s, lv[q][i].pid);
    assert PageOk(p, q) by { assert lv[q][i].pid < |s|; }
    assert |s| <= MAX_PAGES;
    hide TreeOk, Fits;
    if q > 0 {
      KidsBelow(cmp, s, root, lv, q, i, 0);
    }
    forall t | 0 <= t < |p.recs|
      ensures Packable(p.recs[t]) && KindOf(p.recs[t]) == p.kind
    {
      ShortRecord(p.recs, t);
      if q > 0 {
        KidsBelow(cmp, s, root, lv, q, i, t + 1);
      }
    }
  }

  lemma LinksPackable(cmp: Cmp, s: seq<Page>, root: PageId, lv: seq<Level>, q: nat, i: nat)
    requires TreeOk(cmp, s, root, lv) && q < |lv| && i < |lv[q]|
    ensures PageAt(s, lv[q][i].pid).prev < MAX_PAGES && PageAt(s, lv[q][i].pid).next < MAX_PAGES
  {
    assert PageOk(PageAt(s, lv[q][i].pid), q) by { assert lv[q][i].pid < |s|; }
    assert |s| <= MAX_PAGES;
    if q == 0 {
      LevelFacts(cmp, s, root, lv, NoGap, 0);
      assert LinkAt(s, lv[0], i);
    }
  }

  lemma ParentPackable(cmp: Cmp, s: seq<Page>, root: PageId, lv: seq<Level>, q: nat, i: nat)
    requires TreeOk(cmp, s, root, lv) && q < |lv| && i < |lv[q]|
    ensures PageAt(s, lv[q][i].pid).parent < MAX_PAGES
  {
    hide Leaves, Chain, ZeroFirst, Distinct, Room, Filled, Order;
    if q == |lv| - 1 {
      assert lv[q] == [Edge(NegInf, root)];
    } else {
      assert Expand(s, lv[q + 1]) == Seen(lv, q, NoGap);
      var j, c := ExpandLocate(s, lv[q + 1], i);
      assert ParentOf(s, lv[q + 1][j].pid);
      assert lv[q + 1][j].pid < |s|;
      assert |s| <= MAX_PAGES;
      hide Expand, Placed, Bounds, Linked;
      KidName(s, lv[q + 1][j], c, lv[q][i].pid);
    }
  }

  lemma KidName(s: seq<Page>, e: Edge, c: nat, pid: PageId)
    requires ParentOf(s, e.pid) && c <= |PageAt(s, e.pid).recs| && Kids(e.lo, PageAt(s, e.pid))[c].pid == pid
    ensures pid < |s| && s[pid].parent == e.pid
  {
  }
}
