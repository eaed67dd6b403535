/** Exactly which pages are lost when the descriptors run out. */
module PmmLost {
  import opened Bits
  import opened PmmModel
  import opened Seqs
  import opened PmmOps
  import opened PmmRegions
  import opened PmmReserve

  // ---------------------------------------------------------------- adding a range

  /** Where the described pages end when [p, end) is tiled with n descriptors taken. */
  function DescribedTo(n: nat, p: nat, end: nat, k: nat): (q: nat)
    ensures p <= q && (p <= end ==> q <= end)
    decreases end - p
  {
    if p >= end || n >= MAX_BLOCK_DESC then p
    else
      BestOrderFits(p, end - p, k);
      DescribedTo(n + 1, p + Pow2(BestOrder(p, end - p, k)), end, k)
  }

  /** That is where the first tile without a descriptor starts. */
  lemma {:induction false} DescribedTiles(n: nat, p: nat, end: nat, k: nat)
    requires n <= MAX_BLOCK_DESC && p <= end
    ensures var ds, room := Tiles(p, end, k), MAX_BLOCK_DESC - n;
      DescribedTo(n, p, end, k) == if room < |ds| then ds[room].head else end
    decreases end - p
  {
    if p < end {
      BestOrderFits(p, end - p, k);
      var o := BestOrder(p, end - p, k);
      if n < MAX_BLOCK_DESC { DescribedTiles(n + 1, p + Pow2(o), end, k); }
    }
  }

  /** From s to r, the pages of [p, end) are free up to q and lost from there on. */
  ghost predicate Parted(r: State, p: nat, q: nat, end: nat)
  {
    forall x: nat :: x in r.owner && p <= x < end ==> if x < q then r.owner[x].Free? else r.owner[x] == Dropped
  }

  /** Of a range that is added, exactly the tiles without descriptors are lost. */
  lemma {:induction false} TileLoses(s: State, p: nat, end: nat, k: nat, r: State)
    requires Inv(s, NONE) && k <= MAX_ORDER && RangeUnclaimed(s, p, end) && p <= end && TilesTo(s, p, end, k, r)
    ensures Parted(r, p, DescribedTo(|s.desc|, p, end, k), end)
    decreases end - p
  {
    if p < end {
      var o := BestOrder(p, end - p, k);
      var t, m := AddBlock(s, p, o), p + Pow2(o);
      TileNext(s, p, end, k, o);
      TileLoses(t, m, end, k, r);
      TileTheorem(t, m, end, k, r);
      FirstTile(s, p, o, t);
      PartedJoin(t, r, p, m, end, DescribedTo(|t.desc|, m, end, k), |s.desc| < MAX_BLOCK_DESC);
    }
  }

  lemma PartedJoin(t: State, r: State, p: nat, m: nat, end: nat, q: nat, described: bool)
    requires p <= m <= end && m <= q && Tiled(t, r, m, end)
    requires Parted(t, p, if described then m else p, m) && Parted(r, m, q, end) && (described || q == m)
    ensures Parted(r, p, if described then q else p, end)
  {
  }

  lemma FirstTile(s: State, p: nat, o: nat, t: State)
    requires |s.free| == MAX_ORDER + 1 && o <= MAX_ORDER && t == AddBlock(s, p, o)
    ensures |t.desc| == if |s.desc| < MAX_BLOCK_DESC then |s.desc| + 1 else |s.desc|
    ensures Parted(t, p, if |s.desc| < MAX_BLOCK_DESC then p + Pow2(o) else p, p + Pow2(o))
  {
    assert forall x: nat :: p <= x < p + Pow2(o) ==> Covers(Desc(p, o), x);
  }

  /** Single pages take one descriptor each. */
  lemma {:induction false} SinglePages(s: State, p: nat, end: nat, r: State)
    requires TilesTo(s, p, end, 0, r) && |s.desc| <= MAX_BLOCK_DESC
    ensures var n := if p < end then end - p else 0;
      && |r.desc| == |s.desc| + Granted(|s.desc|, n)
      && DescribedTo(|s.desc|, p, end, 0) == p + Granted(|s.desc|, n)
    decreases end - p
  {
    if p < end { SinglePages(AddBlock(s, p, 0), p + 1, end, r); }
  }

  // ---------------------------------------------------------------- reserving a range

  /** The pages from p up to end, one by one. */
  function PageSeq(p: nat, end: nat): (ps: seq<nat>)
    ensures |ps| == if p < end then end - p else 0
    decreases end - p
  {
    if p >= end then [] else [p] + PageSeq(p + 1, end)
  }

  lemma {:induction false} PageSeqAt(p: nat, end: nat, j: nat)
    requires p + j < end
    ensures PageSeq(p, end)[j] == p + j
    decreases j
  {
    if j > 0 { PageSeqAt(p + 1, end, j - 1); }
  }

  /** The pages of a block that are put back when [lo, hi) is reserved, in that order. */
  function BackOf(d: Desc, lo: nat, hi: nat): seq<nat>
  {
    if Meets(d, lo, hi) then PageSeq(d.head, lo) + PageSeq(hi, d.head + Pow2(d.order)) else []
  }

  /** While [lo, hi) is reserved, the free pages ps outside it are put back in that order: the first
      find descriptors, the others are lost. No other free page is lost. */
  ghost predicate Sheds(s: State, ps: seq<nat>, r: State, lo: nat, hi: nat)
  {
    && |r.desc| == |s.desc| + Granted(|s.desc|, |ps|)
    && (forall j: nat :: j < |ps| ==> FreeIn(s, ps[j]) && !(lo <= ps[j] < hi))
    && (forall j: nat :: j < |ps| ==> if j < MAX_BLOCK_DESC - |s.desc| then FreeIn(r, ps[j]) else LostIn(r, ps[j]))
    && (forall p: nat :: FreeIn(s, p) && p !in ps ==> FreeIn(r, p) || (lo <= p < hi && ReservedIn(r, p)))
    && (forall p: nat :: LostIn(s, p) ==> LostIn(r, p))
    && (forall p: nat :: ReservedIn(s, p) ==> ReservedIn(r, p))
    && (forall p: nat :: FreeIn(r, p) ==> FreeIn(s, p))
  }

  lemma ShedsNothing(s: State, lo: nat, hi: nat)
    ensures Sheds(s, [], s, lo, hi)
  {
  }

  lemma ShedsTwice(s: State, ps: seq<nat>, t: State, qs: seq<nat>, r: State, lo: nat, hi: nat)
    requires Sheds(s, ps, t, lo, hi) && Sheds(t, qs, r, lo, hi) && |s.desc| <= MAX_BLOCK_DESC
    requires forall p: nat :: p in ps ==> p !in qs
    ensures Sheds(s, ps + qs, r, lo, hi)
  {
    var all, room := ps + qs, MAX_BLOCK_DESC - |s.desc|;
    forall j: nat | j < |all|
      ensures FreeIn(s, all[j]) && !(lo <= all[j] < hi)
      ensures if j < room then FreeIn(r, all[j]) else LostIn(r, all[j])
    {
      if j < |ps| {
        assert all[j] == ps[j] && ps[j] in ps;
      } else {
        assert all[j] == qs[j - |ps|];
        assert FreeIn(t, qs[j - |ps|]);
      }
    }
    assert forall p: nat :: p !in all ==> p !in ps && p !in qs;
  }

  /** From s to r, of the free block d the pages in [lo, hi) are reserved, those before it free up to
      m and those behind it free up to n, the others of it lost; no other page changes. */
  ghost predicate CutOut(s: State, d: Desc, lo: nat, hi: nat, m: nat, n: nat, r: State)
  {
    && (forall p: nat :: p in r.owner <==> p in s.owner)
    && (forall p: nat :: p in s.owner && !Covers(d, p) ==> r.owner[p] == s.owner[p])
    && (forall p: nat :: Covers(d, p) ==> FreeIn(s, p))
    && (forall p: nat :: Covers(d, p) && p in r.owner ==>
          if lo <= p < hi then ReservedIn(r, p) else if p < m || hi <= p < n then FreeIn(r, p) else LostIn(r, p))
  }

  /** How many pages before and behind the range are put back. */
  function Before(d: Desc, lo: nat): nat { if d.head < lo then lo - d.head else 0 }

  function Behind(d: Desc, hi: nat): nat { var end := d.head + Pow2(d.order); if hi < end then end - hi else 0 }

  /** Reserving one block sheds its pages outside the range. */
  lemma BlockSheds(s: State, id: nat, lo: nat, hi: nat, r: State)
    requires Good(s) && OnFree(s, id) && lo < hi && Meets(s.desc[id], lo, hi) && BlockReserved(s, id, lo, hi, r)
    ensures Sheds(s, BackOf(s.desc[id], lo, hi), r, lo, hi)
  {
    var d := s.desc[id];
    var t := Discard(Hold(s, id), id, lo, hi);
    var u :| PagesBack(t, u, d, lo, hi, r);
    DiscardFacts(s, id, lo, hi, t);
    BackSheds(s, d, lo, hi, t, u, r);
  }

  lemma BackSheds(s: State, d: Desc, lo: nat, hi: nat, t: State, u: State, r: State)
    requires Inv(t, NONE) && GivenUp(s, t, d, lo, hi) && lo < hi && Meets(d, lo, hi) && PagesBack(t, u, d, lo, hi, r)
    requires t.desc == s.desc && |s.desc| <= MAX_BLOCK_DESC
    ensures Sheds(s, BackOf(d, lo, hi), r, lo, hi)
  {
    SinglePages(t, d.head, lo, u);
    SinglePages(u, hi, d.head + Pow2(d.order), r);
    BlockCutOut(s, d, lo, hi, t, u, r);
    CutOutSheds(s, d, lo, hi, r);
  }

  lemma BlockCutOut(s: State, d: Desc, lo: nat, hi: nat, t: State, u: State, r: State)
    requires Inv(t, NONE) && GivenUp(s, t, d, lo, hi) && lo < hi && Meets(d, lo, hi) && PagesBack(t, u, d, lo, hi, r)
    requires t.desc == s.desc && |s.desc| <= MAX_BLOCK_DESC
    ensures var g := Granted(|s.desc|, Before(d, lo));
      CutOut(s, d, lo, hi, d.head + g, hi + Granted(|s.desc| + g, Behind(d, hi)), r)
  {
    FirstPagesBack(s, t, u, d, lo, hi);
    LastPagesBack(s, t, u, r, d, lo, hi);
    FirstParted(s, d, lo, hi, t, u);
    LastParted(s, d, lo, hi, t, u, r);
    var g := Granted(|s.desc|, Before(d, lo));
    CutOutFacts(s, d, lo, hi, d.head + g, hi + Granted(|s.desc| + g, Behind(d, hi)), t, u, r);
  }

  lemma FirstParted(s: State, d: Desc, lo: nat, hi: nat, t: State, u: State)
    requires Inv(t, NONE) && GivenUp(s, t, d, lo, hi) && lo < hi && Meets(d, lo, hi) && TilesTo(t, d.head, lo, 0, u)
    ensures var g := Granted(|t.desc|, Before(d, lo)); |u.desc| == |t.desc| + g && Parted(u, d.head, d.head + g, lo)
  {
    GivenUpUnclaimed(s, t, d, lo, hi);
    SinglePages(t, d.head, lo, u);
    if d.head < lo { TileLoses(t, d.head, lo, 0, u); }
  }

  lemma LastParted(s: State, d: Desc, lo: nat, hi: nat, t: State, u: State, r: State)
    requires GivenUp(s, t, d, lo, hi) && lo < hi && Meets(d, lo, hi)
    requires TileOk(t, u, d.head, if d.head < lo then lo else d.head, 0)
    requires TilesTo(u, hi, d.head + Pow2(d.order), 0, r)
    ensures Parted(r, hi, hi + Granted(|u.desc|, Behind(d, hi)), d.head + Pow2(d.order))
  {
    var end := d.head + Pow2(d.order);
    GivenUpUnclaimed(s, t, d, lo, hi);
    SinglePages(u, hi, end, r);
    if hi < end {
      TailUnclaimed(t, u, d.head, if d.head < lo then lo else d.head, hi, end);
      TileLoses(u, hi, end, 0, r);
    }
  }

  lemma CutOutFacts(s: State, d: Desc, lo: nat, hi: nat, m: nat, n: nat, t: State, u: State, r: State)
    requires GivenUp(s, t, d, lo, hi) && lo < hi && Meets(d, lo, hi) && d.head <= m
    requires Tiled(t, u, d.head, if d.head < lo then lo else d.head)
    requires var end := d.head + Pow2(d.order); Tiled(u, r, if hi < end then hi else end, end)
    requires Parted(u, d.head, m, lo) && Parted(r, hi, n, d.head + Pow2(d.order))
    requires m <= if d.head < lo then lo else d.head
    ensures CutOut(s, d, lo, hi, m, n, r)
  {
    assert forall p: nat :: Covers(d, p) <==> d.head <= p < d.head + Pow2(d.order);
  }

  lemma CutOutSheds(s: State, d: Desc, lo: nat, hi: nat, r: State)
    requires lo < hi && Meets(d, lo, hi) && |s.desc| <= MAX_BLOCK_DESC
    requires var g := Granted(|s.desc|, Before(d, lo));
      && CutOut(s, d, lo, hi, d.head + g, hi + Granted(|s.desc| + g, Behind(d, hi)), r)
      && |r.desc| == |s.desc| + g + Granted(|s.desc| + g, Behind(d, hi))
    ensures Sheds(s, BackOf(d, lo, hi), r, lo, hi)
  {
    var ps, room := BackOf(d, lo, hi), MAX_BLOCK_DESC - |s.desc|;
    forall j: nat | j < |ps|
      ensures FreeIn(s, ps[j]) && !(lo <= ps[j] < hi)
      ensures if j < room then FreeIn(r, ps[j]) else LostIn(r, ps[j])
    {
      BackAt(d, lo, hi, j);
    }
    InBack(d, lo, hi);
    assert forall p: nat :: FreeIn(s, p) && !Covers(d, p) ==> FreeIn(r, p);
  }

  lemma BackAt(d: Desc, lo: nat, hi: nat, j: nat)
    requires lo < hi && Meets(d, lo, hi) && j < |BackOf(d, lo, hi)|
    ensures |BackOf(d, lo, hi)| == Before(d, lo) + Behind(d, hi)
    ensures var p := BackOf(d, lo, hi)[j];
      && Covers(d, p) && !(lo <= p < hi)
      && p == if j < Before(d, lo) then d.head + j else hi + (j - Before(d, lo))
  {
    var n := Before(d, lo);
    if j < n { PageSeqAt(d.head, lo, j); } else { PageSeqAt(hi, d.head + Pow2(d.order), j - n); }
  }

  lemma InBack(d: Desc, lo: nat, hi: nat)
    requires lo < hi && Meets(d, lo, hi)
    ensures forall p: nat :: Covers(d, p) && !(lo <= p < hi) ==> p in BackOf(d, lo, hi)
  {
    var first, last := PageSeq(d.head, lo), PageSeq(hi, d.head + Pow2(d.order));
    forall p: nat | Covers(d, p) && !(lo <= p < hi) ensures p in BackOf(d, lo, hi) {
      if p < lo {
        PageSeqAt(d.head, lo, p - d.head);
        assert first[p - d.head] in first;
      } else {
        PageSeqAt(hi, d.head + Pow2(d.order), p - hi);
        assert last[p - hi] in last;
      }
    }
  }

  // ---------------------------------------------------------------- all blocks, in the order they are met

  /** What is put back of the first k of the blocks ids. */
  ghost function BackIds(s: State, ids: seq<nat>, k: nat, lo: nat, hi: nat): seq<nat>
    requires k <= |ids|
  {
    if k == 0 then []
    else BackIds(s, ids, k - 1, lo, hi) + BackId(s, ids[k - 1], lo, hi)
  }

  ghost function BackId(s: State, id: nat, lo: nat, hi: nat): seq<nat>
  {
    if id < |s.desc| then BackOf(s.desc[id], lo, hi) else []
  }

  /** What is put back of the blocks on the lists below order o. */
  ghost function BackBelow(s: State, o: nat, lo: nat, hi: nat): seq<nat>
    requires o <= |s.free|
  {
    if o == 0 then [] else BackBelow(s, o - 1, lo, hi) + BackIds(s, s.free[o - 1], |s.free[o - 1]|, lo, hi)
  }

  /** The pages ps are free and belong to blocks of x. */
  ghost predicate Within(s: State, ps: seq<nat>, x: set<nat>)
  {
    forall p: nat :: p in ps ==> FreeIn(s, p) && s.owner[p].id in x
  }

  lemma BackOfWithin(s: State, id: nat, lo: nat, hi: nat)
    requires Inv(s, NONE) && OnFree(s, id) && lo < hi
    ensures Within(s, BackId(s, id, lo, hi), {id})
  {
    var d := s.desc[id];
    if Meets(d, lo, hi) {
      forall p: nat | p in BackOf(d, lo, hi) ensures p in s.owner && s.owner[p] == Free(id) {
        var j: nat :| j < |BackOf(d, lo, hi)| && BackOf(d, lo, hi)[j] == p;
        BackAt(d, lo, hi, j);
      }
    }
  }

  lemma IdSheds(s: State, id: nat, lo: nat, hi: nat, r: State)
    requires Good(s) && OnFree(s, id) && lo < hi && IdReserved(s, id, lo, hi, r)
    ensures Sheds(s, BackId(s, id, lo, hi), r, lo, hi)
  {
    if Meets(s.desc[id], lo, hi) { BlockSheds(s, id, lo, hi, r); } else { ShedsNothing(s, lo, hi); }
  }

  /** Going through a list sheds the pages of its blocks, in order. */
  lemma {:induction false} WalkSheds(run: seq<State>, ids: seq<nat>, k: nat, lo: nat, hi: nat)
    requires Walk(run, ids, lo, hi) && k < |run| && Good(run[0]) && Distinct(ids) && lo < hi
    requires forall j: nat :: j < |ids| ==> OnFree(run[0], ids[j])
    ensures Sheds(run[0], BackIds(run[0], ids, k, lo, hi), run[k], lo, hi)
    ensures Within(run[0], BackIds(run[0], ids, k, lo, hi), First(ids, k))
  {
    if k == 0 {
      ShedsNothing(run[0], lo, hi);
    } else {
      var j: nat := k - 1;
      WalkSheds(run, ids, j, lo, hi);
      WalkTheorem(run, ids, j, lo, hi);
      WalkShedsStep(run[0], run[j], run[k], ids, k, lo, hi);
    }
  }

  lemma WalkShedsStep(s: State, t: State, r: State, ids: seq<nat>, k: nat, lo: nat, hi: nat)
    requires Good(s) && Good(t) && Distinct(ids) && lo < hi && 0 < k <= |ids| && OnFree(s, ids[k - 1])
    requires Cleared(s, t, First(ids, k - 1), lo, hi) && IdReserved(t, ids[k - 1], lo, hi, r)
    requires Sheds(s, BackIds(s, ids, k - 1, lo, hi), t, lo, hi)
    requires Within(s, BackIds(s, ids, k - 1, lo, hi), First(ids, k - 1))
    ensures Sheds(s, BackIds(s, ids, k, lo, hi), r, lo, hi)
    ensures Within(s, BackIds(s, ids, k, lo, hi), First(ids, k))
  {
    var id := ids[k - 1];
    assert OnFree(t, id) && t.desc[id] == s.desc[id];
    var ps, qs := BackIds(s, ids, k - 1, lo, hi), BackId(s, id, lo, hi);
    assert BackId(t, id, lo, hi) == qs;
    IdSheds(t, id, lo, hi, r);
    BackOfWithin(s, id, lo, hi);
    assert id !in First(ids, k - 1);
    ShedsTwice(s, ps, t, qs, r, lo, hi);
    assert First(ids, k) == First(ids, k - 1) + {id};
  }

  /** The lists above an order are as they were. */
  ghost predicate SameAbove(s: State, r: State, o: nat)
  {
    |r.free| == |s.free| && forall k: nat :: o < k < |s.free| ==> r.free[k] == s.free[k]
  }

  lemma BlockKeepsAbove(s: State, id: nat, lo: nat, hi: nat, r: State)
    requires Inv(s, NONE) && OnFree(s, id) && IdReserved(s, id, lo, hi, r)
    ensures SameAbove(s, r, s.desc[id].order)
  {
    if Meets(s.desc[id], lo, hi) {
      var t := Discard(Hold(s, id), id, lo, hi);
      var u :| PagesBack(t, u, s.desc[id], lo, hi, r);
      PagesBackAbove(t, u, s.desc[id], lo, hi, r);
    }
  }

  lemma PagesBackAbove(t: State, u: State, d: Desc, lo: nat, hi: nat, r: State)
    requires PagesBack(t, u, d, lo, hi, r)
    ensures SameAbove(t, r, 0)
  {
    forall k: nat | 0 < k <= MAX_ORDER ensures |r.free| == |t.free| && r.free[k] == t.free[k] {
      PagesKeepLists(t, d.head, lo, u, k);
      PagesKeepLists(u, hi, d.head + Pow2(d.order), r, k);
    }
    PagesKeepLists(t, d.head, lo, u, 1);
    PagesKeepLists(u, hi, d.head + Pow2(d.order), r, 1);
  }

  lemma {:induction false} WalkKeepsAbove(run: seq<State>, ids: seq<nat>, k: nat, lo: nat, hi: nat, o: nat)
    requires Walk(run, ids, lo, hi) && k < |run| && Good(run[0]) && Distinct(ids) && lo < hi
    requires forall j: nat :: j < |ids| ==> OnFree(run[0], ids[j]) && run[0].desc[ids[j]].order == o
    ensures SameAbove(run[0], run[k], o)
  {
    if k > 0 {
      WalkKeepsAbove(run, ids, k - 1, lo, hi, o);
      WalkTheorem(run, ids, k - 1, lo, hi);
      assert ids[k - 1] !in First(ids, k - 1);
      assert OnFree(run[k - 1], ids[k - 1]);
      BlockKeepsAbove(run[k - 1], ids[k - 1], lo, hi, run[k]);
    }
  }

  /** Going through one free list. */
  lemma ListSheds(s: State, o: nat, lo: nat, hi: nat, r: State)
    requires Good(s) && lo < hi && ListReserved(s, o, lo, hi, r)
    ensures Sheds(s, BackIds(s, s.free[o], |s.free[o]|, lo, hi), r, lo, hi)
    ensures Extends(s, r) && SameAbove(s, r, o)
  {
    var ids := s.free[o];
    var run :| WalkBetween(run, ids, lo, hi, s, r);
    assert forall j: nat :: j < |ids| ==> ids[j] in s.free[o];
    WalkTheorem(run, ids, |ids|, lo, hi);
    WalkSheds(run, ids, |ids|, lo, hi);
    WalkKeepsAbove(run, ids, |ids|, lo, hi, o);
  }

  lemma {:induction false} BackIdsWithin(s: State, ids: seq<nat>, k: nat, o: nat, lo: nat, hi: nat)
    requires k <= |ids| && forall j: nat :: j < |ids| ==> WithinBelow(s, BackId(s, ids[j], lo, hi), o, o + 1)
    ensures WithinBelow(s, BackIds(s, ids, k, lo, hi), o, o + 1)
  {
    if k > 0 {
      var id := ids[k - 1];
      BackIdsWithin(s, ids, k - 1, o, lo, hi);
      WithinBoth(s, BackIds(s, ids, k - 1, lo, hi), BackId(s, id, lo, hi), o, o + 1, o + 1);
    }
  }

  lemma IdWithin(s: State, id: nat, o: nat, lo: nat, hi: nat)
    requires Inv(s, NONE) && OnFree(s, id) && s.desc[id].order == o && lo < hi
    ensures WithinBelow(s, BackId(s, id, lo, hi), o, o + 1)
  {
    BackOfWithin(s, id, lo, hi);
  }

  lemma ListWithin(s: State, o: nat, lo: nat, hi: nat)
    requires Inv(s, NONE) && o <= MAX_ORDER && lo < hi
    ensures WithinBelow(s, BackIds(s, s.free[o], |s.free[o]|, lo, hi), o, o + 1)
  {
    var ids := s.free[o];
    forall j: nat | j < |ids| ensures WithinBelow(s, BackId(s, ids[j], lo, hi), o, o + 1) {
      assert ids[j] in s.free[o];
      IdWithin(s, ids[j], o, lo, hi);
    }
    BackIdsWithin(s, ids, |ids|, o, lo, hi);
  }

  lemma OrdersApart(s: State, ps: seq<nat>, qs: seq<nat>, o: nat)
    requires WithinBelow(s, ps, 0, o) && WithinBelow(s, qs, o, o + 1)
    ensures (forall p: nat :: p in ps ==> p !in qs) && WithinBelow(s, qs, 0, o + 1)
  {
  }

  lemma WithinBoth(s: State, ps: seq<nat>, qs: seq<nat>, j: nat, k: nat, l: nat)
    requires WithinBelow(s, ps, j, k) && WithinBelow(s, qs, j, l) && k <= l
    ensures WithinBelow(s, ps + qs, j, l)
  {
    assert forall p: nat :: p in ps + qs ==> p in ps || p in qs;
  }

  /** The pages ps are free and in blocks of the orders from j up to but not including k. */
  ghost predicate WithinBelow(s: State, ps: seq<nat>, j: nat, k: nat)
  {
    forall p: nat :: p in ps ==> FreeIn(s, p) && s.owner[p].id < |s.desc| && j <= s.desc[s.owner[p].id].order < k
  }

  lemma {:induction false} SameBackIds(s: State, t: State, ids: seq<nat>, k: nat, lo: nat, hi: nat)
    requires Extends(s, t) && k <= |ids| && forall j: nat :: j < |ids| ==> ids[j] < |s.desc|
    ensures BackIds(t, ids, k, lo, hi) == BackIds(s, ids, k, lo, hi)
  {
    if k > 0 {
      SameBackIds(s, t, ids, k - 1, lo, hi);
      SameBackId(s, t, ids[k - 1], lo, hi);
    }
  }

  lemma SameBackList(s: State, t: State, o: nat, lo: nat, hi: nat)
    requires Shape(s, NONE) && o <= MAX_ORDER && Extends(s, t)
    ensures BackIds(t, s.free[o], |s.free[o]|, lo, hi) == BackIds(s, s.free[o], |s.free[o]|, lo, hi)
  {
    var ids := s.free[o];
    assert forall j: nat :: j < |ids| ==> ids[j] in s.free[o];
    SameBackIds(s, t, ids, |ids|, lo, hi);
  }

  lemma SameBackId(s: State, t: State, id: nat, lo: nat, hi: nat)
    requires Extends(s, t) && id < |s.desc|
    ensures BackId(t, id, lo, hi) == BackId(s, id, lo, hi)
  {
  }

  /** Going through all lists sheds what BackBelow says. */
  lemma {:induction false} RoundsShed(run: seq<State>, o: nat, lo: nat, hi: nat)
    requires Rounds(run, lo, hi) && o < |run| && Good(run[0]) && lo < hi
    ensures Sheds(run[0], BackBelow(run[0], o, lo, hi), run[o], lo, hi)
    ensures WithinBelow(run[0], BackBelow(run[0], o, lo, hi), 0, o)
    ensures Extends(run[0], run[o]) && (o > 0 ==> SameAbove(run[0], run[o], o - 1))
  {
    if o == 0 {
      ShedsNothing(run[0], lo, hi);
    } else {
      RoundsShed(run, o - 1, lo, hi);
      RoundsTheorem(run, o - 1, lo, hi);
      RoundShedsStep(run[0], run[o - 1], run[o], o - 1, lo, hi);
    }
  }

  lemma RoundShedsStep(s: State, t: State, r: State, o: nat, lo: nat, hi: nat)
    requires Good(s) && Good(t) && lo < hi && o <= MAX_ORDER && ListReserved(t, o, lo, hi, r) && t.free[o] == s.free[o]
    requires Sheds(s, BackBelow(s, o, lo, hi), t, lo, hi) && WithinBelow(s, BackBelow(s, o, lo, hi), 0, o)
    requires Extends(s, t)
    ensures Sheds(s, BackBelow(s, o + 1, lo, hi), r, lo, hi) && WithinBelow(s, BackBelow(s, o + 1, lo, hi), 0, o + 1)
    ensures Extends(s, r) && SameAbove(t, r, o)
  {
    var ps, qs := BackBelow(s, o, lo, hi), BackIds(s, s.free[o], |s.free[o]|, lo, hi);
    ListSheds(t, o, lo, hi, r);
    SameBackList(s, t, o, lo, hi);
    ListWithin(s, o, lo, hi);
    OrdersApart(s, ps, qs, o);
    ShedsTwice(s, ps, t, qs, r, lo, hi);
    WithinBoth(s, ps, qs, 0, o, o + 1);
  }

  /** What a reservation loses: the pages it puts back after the last descriptor. */
  ghost predicate ReserveLoses(s: State, lo: nat, hi: nat, p: nat)
    requires |s.free| == MAX_ORDER + 1
  {
    lo < hi && LastOf(BackBelow(s, MAX_ORDER + 1, lo, hi), MAX_BLOCK_DESC - |s.desc|, p)
  }

  /** Page p is one of ps, at position n or later. */
  ghost predicate LastOf(ps: seq<nat>, n: int, p: nat)
  {
    exists j: nat :: n <= j < |ps| && ps[j] == p
  }

  /** A reservation loses exactly those pages. */
  lemma ReserveLosesTheorem(s: State, lo: nat, hi: nat, r: State, p: nat)
    requires Good(s) && RangeReserved(s, lo, hi, r)
    ensures LostIn(r, p) <==> LostIn(s, p) || ReserveLoses(s, lo, hi, p)
  {
    if lo < hi {
      var run :| RoundsBetween(run, lo, hi, s, r);
      RoundsShed(run, MAX_ORDER + 1, lo, hi);
      RoundsTheorem(run, MAX_ORDER + 1, lo, hi);
      ShedsLost(s, BackBelow(s, MAX_ORDER + 1, lo, hi), r, lo, hi, p);
    }
  }

  lemma ShedsLost(s: State, ps: seq<nat>, r: State, lo: nat, hi: nat, p: nat)
    requires Sheds(s, ps, r, lo, hi) && Reserving(s, r, lo, hi)
    ensures LostIn(r, p) <==> LostIn(s, p) || LastOf(ps, MAX_BLOCK_DESC - |s.desc|, p)
  {
    if p in ps {
      var j: nat :| j < |ps| && ps[j] == p;
      assert if j < MAX_BLOCK_DESC - |s.desc| then FreeIn(r, ps[j]) else LostIn(r, ps[j]);
    }
  }
}
