/** Reserving a range of pages. */
module PmmReserve {
  import opened Bits
  import opened PmmModel
  import opened Seqs
  import opened PmmRegions

  predicate Meets(d: Desc, lo: nat, hi: nat)
  {
    lo < d.head + Pow2(d.order) && d.head < hi
  }

  /** From s, taking a free block away and putting its pages outside [lo, hi) back, one by
      one, leads to r. */
  ghost predicate BlockReserved(s: State, id: nat, lo: nat, hi: nat, r: State)
    requires id < |s.desc|
  {
    && |s.free| == MAX_ORDER + 1 && s.desc[id].order <= MAX_ORDER
    && exists u :: PagesBack(Discard(Hold(s, id), id, lo, hi), u, s.desc[id], lo, hi, r)
  }

  ghost predicate PagesBack(t: State, u: State, d: Desc, lo: nat, hi: nat, r: State)
  {
    TilesTo(t, d.head, lo, 0, u) && TilesTo(u, hi, d.head + Pow2(d.order), 0, r)
  }

  /** From s to r, free pages of [lo, hi) may have become reserved, and nothing else happened
      to any page, except that free pages outside are lost once the descriptors are exhausted. */
  ghost predicate Reserving(s: State, r: State, lo: nat, hi: nat)
  {
    && (forall p: nat :: p in r.owner <==> p in s.owner)
    && (forall p: nat :: p in s.owner && !s.owner[p].Free? ==> r.owner[p] == s.owner[p])
    && (forall p: nat :: p in s.owner && s.owner[p].Free? ==>
          || r.owner[p].Free?
          || (lo <= p < hi && r.owner[p] == Reserved)
          || (!(lo <= p < hi) && r.owner[p] == Dropped && |r.desc| == MAX_BLOCK_DESC))
  }

  /** The free blocks of r that meet the range are those of s, less the ones in ids. */
  ghost predicate Cleared(s: State, r: State, ids: set<nat>, lo: nat, hi: nat)
  {
    && Extends(s, r) && r.used == s.used
    && (forall x: nat :: OnFree(s, x) && x !in ids ==> OnFree(r, x))
    && (forall x: nat :: OnFree(r, x) && Meets(r.desc[x], lo, hi) ==> OnFree(s, x) && x !in ids)
  }

  /** From s to t, the block d was given up. */
  ghost predicate GivenUp(s: State, t: State, d: Desc, lo: nat, hi: nat)
  {
    && (forall p: nat :: p in t.owner <==> p in s.owner)
    && (forall p: nat :: p in s.owner && !Covers(d, p) ==> t.owner[p] == s.owner[p])
    && (forall p: nat :: Covers(d, p) ==> p in s.owner && s.owner[p].Free?)
    && (forall p: nat :: p in s.owner && Covers(d, p) ==> t.owner[p] == if lo <= p < hi then Reserved else Dropped)
  }

  lemma DiscardFacts(s: State, id: nat, lo: nat, hi: nat, t: State)
    requires Inv(s, NONE) && OnFree(s, id) && t == Discard(Hold(s, id), id, lo, hi)
    ensures Inv(t, NONE) && t.desc == s.desc && t.used == s.used
    ensures forall x: nat :: OnFree(t, x) <==> OnFree(s, x) && x != id
    ensures GivenUp(s, t, s.desc[id], lo, hi)
  {
    HoldInv(s, id);
    DiscardInv(Hold(s, id), id, lo, hi);
    RemoveFacts(s.free[s.desc[id].order], id);
  }

  /** The stages of reserving a block d: t has given it up, u has its first pages back and r
      its last pages too. */
  ghost predicate Stages(d: Desc, lo: nat, hi: nat, t: State, u: State, r: State)
  {
    var lo' := if d.head < lo then lo else d.head;
    var end := d.head + Pow2(d.order);
    var hi' := if hi < end then hi else end;
    TileOk(t, u, d.head, lo', 0) && TileOk(u, r, hi', end, 0)
  }

  lemma ReserveBlockStages(s: State, d: Desc, lo: nat, hi: nat, t: State, u: State, r: State)
    requires Inv(t, NONE) && GivenUp(s, t, d, lo, hi) && lo < hi && Meets(d, lo, hi)
    requires PagesBack(t, u, d, lo, hi, r)
    ensures Stages(d, lo, hi, t, u, r)
  {
    FirstPagesBack(s, t, u, d, lo, hi);
    LastPagesBack(s, t, u, r, d, lo, hi);
  }

  lemma FirstPagesBack(s: State, t: State, u: State, d: Desc, lo: nat, hi: nat)
    requires GivenUp(s, t, d, lo, hi) && lo < hi && Meets(d, lo, hi) && Inv(t, NONE)
    requires TilesTo(t, d.head, lo, 0, u)
    ensures TileOk(t, u, d.head, if d.head < lo then lo else d.head, 0)
  {
    GivenUpUnclaimed(s, t, d, lo, hi);
    if d.head < lo { TileTheorem(t, d.head, lo, 0, u); } else { TileOkNone(t, d.head, 0); }
  }

  lemma LastPagesBack(s: State, t: State, u: State, r: State, d: Desc, lo: nat, hi: nat)
    requires GivenUp(s, t, d, lo, hi) && lo < hi && Meets(d, lo, hi)
    requires TileOk(t, u, d.head, if d.head < lo then lo else d.head, 0)
    requires TilesTo(u, hi, d.head + Pow2(d.order), 0, r)
    ensures var end := d.head + Pow2(d.order); TileOk(u, r, if hi < end then hi else end, end, 0)
  {
    var end := d.head + Pow2(d.order);
    GivenUpUnclaimed(s, t, d, lo, hi);
    if hi < end {
      TailUnclaimed(t, u, d.head, if d.head < lo then lo else d.head, hi, end);
      TileTheorem(u, hi, end, 0, r);
    } else {
      TileOkNone(u, end, 0);
    }
  }

  lemma GivenUpUnclaimed(s: State, t: State, d: Desc, lo: nat, hi: nat)
    requires GivenUp(s, t, d, lo, hi) && lo < hi && Meets(d, lo, hi)
    ensures RangeUnclaimed(t, d.head, lo) && RangeUnclaimed(t, hi, d.head + Pow2(d.order))
  {
    assert forall p: nat :: d.head <= p < d.head + Pow2(d.order) ==> Covers(d, p);
  }

  lemma TailUnclaimed(t: State, u: State, p: nat, m: nat, hi: nat, end: nat)
    requires Tiled(t, u, p, m) && m <= hi && RangeUnclaimed(t, hi, end)
    ensures RangeUnclaimed(u, hi, end)
  {
  }

  lemma GiveUpAndTile(s: State, t: State, u: State, r: State, d: Desc, lo: nat, hi: nat, lo': nat, hi': nat)
    requires GivenUp(s, t, d, lo, hi) && Tiled(t, u, d.head, lo') && Tiled(u, r, hi', d.head + Pow2(d.order))
    requires lo < hi && Meets(d, lo, hi)
    requires lo' == if d.head < lo then lo else d.head
    requires hi' == if hi < d.head + Pow2(d.order) then hi else d.head + Pow2(d.order)
    requires |s.desc| <= |t.desc| <= |u.desc| <= |r.desc| <= MAX_BLOCK_DESC
    ensures Reserving(s, r, lo, hi)
    ensures DropsOnlyWhenFull(s) ==> DropsOnlyWhenFull(r)
  {
    assert forall p: nat :: Covers(d, p) <==> d.head <= p < d.head + Pow2(d.order);
  }

  /** Reserving one block. */
  lemma BlockReservedTheorem(s: State, id: nat, lo: nat, hi: nat, r: State)
    requires Good(s) && OnFree(s, id) && lo < hi && Meets(s.desc[id], lo, hi)
    requires BlockReserved(s, id, lo, hi, r)
    ensures Good(r) && Reserving(s, r, lo, hi) && Cleared(s, r, {id}, lo, hi)
  {
    var d := s.desc[id];
    var t := Discard(Hold(s, id), id, lo, hi);
    var u :| PagesBack(t, u, d, lo, hi, r);
    DiscardFacts(s, id, lo, hi, t);
    ReserveBlockStages(s, d, lo, hi, t, u, r);
    BlockReservedPages(s, d, lo, hi, t, u, r);
    StagesCleared(s, id, lo, hi, t, u, r);
  }

  lemma BlockReservedPages(s: State, d: Desc, lo: nat, hi: nat, t: State, u: State, r: State)
    requires DropsOnlyWhenFull(s) && t.desc == s.desc && |s.desc| <= MAX_BLOCK_DESC
    requires GivenUp(s, t, d, lo, hi) && lo < hi && Meets(d, lo, hi) && Stages(d, lo, hi, t, u, r)
    ensures Good(r) && Reserving(s, r, lo, hi)
  {
    var end := d.head + Pow2(d.order);
    GiveUpAndTile(s, t, u, r, d, lo, hi,
                  if d.head < lo then lo else d.head, if hi < end then hi else end);
  }

  lemma StagesCleared(s: State, id: nat, lo: nat, hi: nat, t: State, u: State, r: State)
    requires id < |s.desc| && lo < hi && Stages(s.desc[id], lo, hi, t, u, r)
    requires t.desc == s.desc && t.used == s.used && forall x: nat :: OnFree(t, x) <==> OnFree(s, x) && x != id
    ensures Cleared(s, r, {id}, lo, hi)
  {
  }

  // ---------------------------------------------------------------- a list, and all lists

  /** From s, looking at one free block and reserving it if it meets the range leads to r. */
  ghost predicate IdReserved(s: State, id: nat, lo: nat, hi: nat, r: State)
  {
    id < |s.desc| && if Meets(s.desc[id], lo, hi) then BlockReserved(s, id, lo, hi, r) else r == s
  }

  /** The states run through while looking at the first of ids. */
  ghost predicate Walk(run: seq<State>, ids: seq<nat>, lo: nat, hi: nat)
  {
    && 0 < |run| <= |ids| + 1
    && forall k: nat :: k < |run| - 1 ==> IdReserved(run[k], ids[k], lo, hi, run[k + 1])
  }

  /** The first k of ids. */
  ghost function First(ids: seq<nat>, k: nat): set<nat>
    requires k <= |ids|
  {
    set j: nat | j < k :: ids[j]
  }

  lemma ReservingTwice(s: State, t: State, r: State, lo: nat, hi: nat)
    requires Reserving(s, t, lo, hi) && Reserving(t, r, lo, hi) && |t.desc| <= |r.desc| <= MAX_BLOCK_DESC
    ensures Reserving(s, r, lo, hi)
  {
  }

  lemma ClearedTwice(s: State, t: State, r: State, a: set<nat>, b: set<nat>, lo: nat, hi: nat)
    requires Cleared(s, t, a, lo, hi) && Cleared(t, r, b, lo, hi)
    ensures Cleared(s, r, a + b, lo, hi)
  {
  }

  lemma IdReservedTheorem(s: State, id: nat, lo: nat, hi: nat, r: State)
    requires Good(s) && OnFree(s, id) && lo < hi && IdReserved(s, id, lo, hi, r)
    ensures Good(r) && Reserving(s, r, lo, hi) && Cleared(s, r, {id}, lo, hi)
  {
    if Meets(s.desc[id], lo, hi) { BlockReservedTheorem(s, id, lo, hi, r); }
  }

  lemma WalkStep(s: State, t: State, r: State, ids: seq<nat>, k: nat, lo: nat, hi: nat)
    requires Good(t) && Reserving(s, t, lo, hi) && Distinct(ids) && lo < hi && 0 < k <= |ids|
    requires Cleared(s, t, First(ids, k - 1), lo, hi) && IdReserved(t, ids[k - 1], lo, hi, r)
    requires OnFree(s, ids[k - 1])
    ensures Good(r) && Reserving(s, r, lo, hi) && Cleared(s, r, First(ids, k), lo, hi)
  {
    assert OnFree(t, ids[k - 1]);
    IdReservedTheorem(t, ids[k - 1], lo, hi, r);
    ReservingTwice(s, t, r, lo, hi);
    ClearedTwice(s, t, r, First(ids, k - 1), {ids[k - 1]}, lo, hi);
    assert First(ids, k) == First(ids, k - 1) + {ids[k - 1]};
  }

  lemma {:induction false} WalkTheorem(run: seq<State>, ids: seq<nat>, k: nat, lo: nat, hi: nat)
    requires Walk(run, ids, lo, hi) && k < |run| && Good(run[0]) && Distinct(ids) && lo < hi
    requires forall j: nat :: j < |ids| ==> OnFree(run[0], ids[j])
    ensures Good(run[k]) && Reserving(run[0], run[k], lo, hi) && Cleared(run[0], run[k], First(ids, k), lo, hi)
  {
    if k > 0 {
      WalkTheorem(run, ids, k - 1, lo, hi);
      WalkStep(run[0], run[k - 1], run[k], ids, k, lo, hi);
    }
  }

  lemma WalkGrows(run: seq<State>, ids: seq<nat>, lo: nat, hi: nat, r: State)
    requires Walk(run, ids, lo, hi) && |run| <= |ids|
    requires IdReserved(run[|run| - 1], ids[|run| - 1], lo, hi, r)
    ensures Walk(run + [r], ids, lo, hi)
  {
  }

  /** From s, going through one free list leads to r. */
  ghost predicate ListReserved(s: State, o: nat, lo: nat, hi: nat, r: State)
  {
    o < |s.free| && exists run :: WalkBetween(run, s.free[o], lo, hi, s, r)
  }

  ghost predicate WalkBetween(run: seq<State>, ids: seq<nat>, lo: nat, hi: nat, s: State, r: State)
  {
    Walk(run, ids, lo, hi) && |run| == |ids| + 1 && run[0] == s && run[|ids|] == r
  }

  /** No free block of an order below o meets the range. */
  ghost predicate ClearBelow(s: State, o: nat, lo: nat, hi: nat)
  {
    forall x: nat :: OnFree(s, x) && s.desc[x].order < o ==> !Meets(s.desc[x], lo, hi)
  }

  lemma ListReservedTheorem(s: State, o: nat, lo: nat, hi: nat, r: State)
    requires Good(s) && lo < hi && ListReserved(s, o, lo, hi, r)
    ensures Good(r) && Reserving(s, r, lo, hi) && r.used == s.used && |s.desc| <= |r.desc|
    ensures ClearBelow(s, o, lo, hi) ==> ClearBelow(r, o + 1, lo, hi)
  {
    var ids := s.free[o];
    var run :| WalkBetween(run, ids, lo, hi, s, r);
    assert forall j: nat :: j < |ids| ==> ids[j] in s.free[o];
    WalkTheorem(run, ids, |ids|, lo, hi);
    assert forall x: nat :: x in ids ==> x in First(ids, |ids|);
  }

  /** The states run through while going through the free lists of the first orders. */
  ghost predicate Rounds(run: seq<State>, lo: nat, hi: nat)
  {
    && 0 < |run| <= MAX_ORDER + 2
    && forall o: nat :: o < |run| - 1 ==> ListReserved(run[o], o, lo, hi, run[o + 1])
  }

  lemma {:induction false} RoundsTheorem(run: seq<State>, o: nat, lo: nat, hi: nat)
    requires Rounds(run, lo, hi) && o < |run| && Good(run[0]) && lo < hi
    ensures Good(run[o]) && Reserving(run[0], run[o], lo, hi) && ClearBelow(run[o], o, lo, hi)
    ensures run[o].used == run[0].used && |run[0].desc| <= |run[o].desc|
  {
    if o > 0 {
      RoundsTheorem(run, o - 1, lo, hi);
      ListReservedTheorem(run[o - 1], o - 1, lo, hi, run[o]);
      ReservingTwice(run[0], run[o - 1], run[o], lo, hi);
    }
  }

  /** From s, reserving the pages [lo, hi) leads to r. */
  ghost predicate RangeReserved(s: State, lo: nat, hi: nat, r: State)
  {
    if lo >= hi then r == s else exists run :: RoundsBetween(run, lo, hi, s, r)
  }

  ghost predicate RoundsBetween(run: seq<State>, lo: nat, hi: nat, s: State, r: State)
  {
    Rounds(run, lo, hi) && |run| == MAX_ORDER + 2 && run[0] == s && run[MAX_ORDER + 1] == r
  }

  /** Afterwards no page of the range is free and no free block meets it; a page that was free
      is then reserved if it is in the range and otherwise still free, unless the descriptors
      ran out; every other page keeps its owner. */
  lemma ReserveTheorem(s: State, lo: nat, hi: nat, r: State)
    requires Good(s) && RangeReserved(s, lo, hi, r)
    ensures Good(r) && r.used == s.used
    ensures forall p: nat :: p in r.owner <==> p in s.owner
    ensures forall p: nat :: p in s.owner && !s.owner[p].Free? ==> r.owner[p] == s.owner[p]
    ensures forall p: nat :: p in s.owner && s.owner[p].Free? && lo <= p < hi ==> r.owner[p].Reserved?
    ensures forall p: nat :: p in s.owner && s.owner[p].Free? && !(lo <= p < hi) ==>
              r.owner[p].Free? || (r.owner[p] == Dropped && |r.desc| == MAX_BLOCK_DESC)
    ensures lo < hi ==> forall x: nat :: OnFree(r, x) ==> !Meets(r.desc[x], lo, hi)
  {
    if lo < hi {
      var run :| RoundsBetween(run, lo, hi, s, r);
      RoundsTheorem(run, MAX_ORDER + 1, lo, hi);
      assert forall x: nat :: OnFree(r, x) ==> !Meets(r.desc[x], lo, hi);
      assert forall p: nat :: p in r.owner && r.owner[p].Free? ==>
        OnFree(r, r.owner[p].id) && Covers(r.desc[r.owner[p].id], p);
    }
  }

  // ---------------------------------------------------------------- what it does to the lists

  /** Putting single pages back only touches the list of order 0. */
  lemma {:induction false} PagesKeepLists(s: State, p: nat, end: nat, r: State, o: nat)
    requires TilesTo(s, p, end, 0, r) && 0 < o <= MAX_ORDER
    ensures |r.free| == |s.free| && r.free[o] == s.free[o]
    decreases end - p
  {
    if p < end { PagesKeepLists(AddBlock(s, p, 0), p + 1, end, r, o); }
  }

  lemma PagesBackList(t: State, u: State, d: Desc, lo: nat, hi: nat, r: State)
    requires PagesBack(t, u, d, lo, hi, r) && d.order <= MAX_ORDER && lo < hi && Meets(d, lo, hi)
    ensures |r.free| == MAX_ORDER + 1 == |t.free| && r.free[d.order] == t.free[d.order]
  {
    if d.order > 0 {
      PagesKeepLists(t, d.head, lo, u, d.order);
      PagesKeepLists(u, hi, d.head + Pow2(d.order), r, d.order);
    } else {
      assert u == t && r == u;
    }
  }

  /** While a list is walked, reserving a block of it only removes that block from it. */
  lemma BlockReservedList(s: State, id: nat, lo: nat, hi: nat, r: State)
    requires Inv(s, NONE) && OnFree(s, id) && lo < hi && Meets(s.desc[id], lo, hi)
    requires BlockReserved(s, id, lo, hi, r)
    ensures var o := s.desc[id].order; |r.free| == |s.free| && r.free[o] == Remove(s.free[o], id)
  {
    var t := Discard(Hold(s, id), id, lo, hi);
    var u :| PagesBack(t, u, s.desc[id], lo, hi, r);
    PagesBackList(t, u, s.desc[id], lo, hi, r);
  }

  lemma {:induction false} RemoveAt(l: seq<nat>, i: nat)
    requires Distinct(l) && i < |l|
    ensures Remove(l, l[i]) == l[..i] + l[i + 1..]
  {
    if i > 0 {
      RemoveAt(l[1..], i - 1);
      assert l[i + 1..] == l[1..][i..] && l[..i] == [l[0]] + l[1..][..i - 1];
    }
  }
}
