/** What merging achieves: no two free buddies, and freeing undoes allocating. */
module PmmBuddies {
  import opened Bits
  import opened PmmModel
  import opened Seqs
  import opened PmmOps

  /** No two free blocks of the same order, below the largest, are buddies. */
  ghost predicate Coalesced(s: State)
  {
    forall x: nat, y: nat {:trigger OnFree(s, x), OnFree(s, y)} ::
      OnFree(s, x) && OnFree(s, y) && s.desc[x].order == s.desc[y].order < MAX_ORDER ==>
        s.desc[y].head != Buddy(s.desc[x])
  }

  // ---------------------------------------------------------------- allocating keeps it

  /** The two halves of an aligned block are buddies. */
  lemma UpperIsBuddy(d: Desc)
    requires BlockOk(d) && d.order > 0
    ensures Buddy(Desc(d.head, d.order - 1)) == Upper(d).head && Buddy(Upper(d)) == d.head
  {
    AlignedWeaken(d.head, d.order, d.order - 1);
    AlignedStep(d.head, d.order - 1);
    XorBit(d.head, d.order - 1);
    BuddyHalves(Desc(d.head, d.order - 1));
  }

  /** A free block whose pages start elsewhere than h. */
  lemma FreeElsewhere(s: State, held: int, x: nat, h: nat)
    requires Inv(s, held) && OnFree(s, x) && h in s.owner && !s.owner[h].Free?
    ensures s.desc[x].head != h && BlockOk(s.desc[x])
  {
    assert Covers(s.desc[x], s.desc[x].head);
  }

  /** Splitting adds one free block, the upper half. */
  lemma SplitOnceFree(s: State, id: nat, x: nat)
    requires Inv(s, id) && s.desc[id].order > 0 && OnFree(SplitOnce(s, id), x)
    ensures var r := SplitOnce(s, id);
      if x == |s.desc| then r.desc[x] == Upper(s.desc[id]) else OnFree(s, x) && r.desc[x] == s.desc[x]
  {
    SplitOnceInv(s, id);
  }

  lemma SplitPair(s: State, id: nat, x: nat, y: nat)
    requires Inv(s, id) && s.desc[id].order > 0 && Coalesced(s)
    requires OnFree(SplitOnce(s, id), x) && OnFree(SplitOnce(s, id), y)
    requires SplitOnce(s, id).desc[x].order == SplitOnce(s, id).desc[y].order < MAX_ORDER
    ensures SplitOnce(s, id).desc[y].head != Buddy(SplitOnce(s, id).desc[x])
  {
    var r := SplitOnce(s, id);
    var d := s.desc[id];
    SplitOnceInv(s, id);
    CutOnce(s, id);
    assert Covers(r.desc[id], d.head);
    UpperIsBuddy(d);
    FreeElsewhere(r, id, x, d.head);
    FreeElsewhere(r, id, y, d.head);
    BuddyHalves(r.desc[x]);
    SplitOnceFree(s, id, x);
    SplitOnceFree(s, id, y);
  }

  lemma SplitOnceCoalesced(s: State, id: nat)
    requires Inv(s, id) && s.desc[id].order > 0 && Coalesced(s)
    ensures Coalesced(SplitOnce(s, id))
  {
    var r := SplitOnce(s, id);
    forall x: nat, y: nat | OnFree(r, x) && OnFree(r, y) && r.desc[x].order == r.desc[y].order < MAX_ORDER
      ensures r.desc[y].head != Buddy(r.desc[x])
    {
      SplitPair(s, id, x, y);
    }
  }

  lemma {:induction false} SplitToCoalesced(s: State, id: nat, order: nat)
    requires Inv(s, id) && order <= s.desc[id].order && Coalesced(s)
    ensures Coalesced(SplitTo(s, id, order))
    decreases s.desc[id].order
  {
    if s.desc[id].order > order {
      SplitOnceInv(s, id);
      SplitOnceCoalesced(s, id);
      SplitToCoalesced(SplitOnce(s, id), id, order);
    }
  }

  /** Every allocation keeps the free blocks fully merged, with or without spare descriptors. */
  lemma AllocKeepsCoalesced(s: State, order: nat)
    requires Inv(s, NONE) && Coalesced(s)
    ensures Coalesced(Alloc(s, order))
  {
    if CanServe(s, order) {
      var id := Served(s, order);
      ServedIsFree(s, order);
      var h := Picked(s, order);
      RemoveFacts(s.free[s.desc[id].order], id);
      assert forall x: nat :: OnFree(h, x) ==> OnFree(s, x);
      SplitToCoalesced(h, id, order);
      var t := SplitTo(h, id, order);
      assert forall x: nat :: OnFree(Take(t, id), x) <==> OnFree(t, x);
    }
  }

  // ---------------------------------------------------------------- freeing keeps it, or not

  /** The aligned block of order j around a page. */
  function Around(h: nat, j: nat): Desc
  {
    Desc(Floor(h, Pow2(j)), j)
  }

  /** The buddy of block e is on its list, among the entries that the search looks at. */
  ghost predicate InReach(s: State, e: Desc)
  {
    e.order < |s.free| && exists i: nat ::
      i < |s.free[e.order]| && i < 1000 && StartsAt(s, s.free[e.order][i], Buddy(e))
  }

  /** The buddy of block e is on its list, too far down. */
  ghost predicate OutOfReach(s: State, e: Desc)
  {
    e.order < |s.free| && exists i: nat ::
      1000 <= i < |s.free[e.order]| && StartsAt(s, s.free[e.order][i], Buddy(e))
  }

  /** A freed block d will be merged up to order k, where its buddy is free and too far down. */
  ghost predicate Overlooks(s: State, d: Desc, k: nat)
  {
    && d.order <= k < MAX_ORDER
    && (forall j: nat :: d.order <= j < k ==> InReach(s, Around(d.head, j)))
    && OutOfReach(s, Around(d.head, k))
  }

  lemma AroundSelf(d: Desc)
    requires BlockOk(d)
    ensures Around(d.head, d.order) == d
  {
    AlignedIsMultiple(d.head, d.order);
    FloorUnique(d.head, Pow2(d.order), d.head);
  }

  /** Merging with the buddy leads to the next larger aligned block. */
  lemma AroundNext(h: nat, e: Desc)
    requires BlockOk(e) && e == Around(h, e.order)
    ensures Around(h, e.order + 1) == Desc(if Buddy(e) < e.head then Buddy(e) else e.head, e.order + 1)
  {
    var low := if Buddy(e) < e.head then Buddy(e) else e.head;
    BuddyHalves(e);
    AlignedIsMultiple(low, e.order + 1);
    FloorUnique(h, Pow2(e.order + 1), low);
  }

  lemma ReachIsMergeable(s: State, id: nat)
    requires Inv(s, id)
    ensures Mergeable(s, id) <==> s.desc[id].order < MAX_ORDER && InReach(s, s.desc[id])
  {
    if Mergeable(s, id) { assert StartsAt(s, Peers(s, id)[BuddyAt(s, id)], Buddy(s.desc[id])); }
  }

  /** Absorbing a buddy does not change who is in reach further up. */
  lemma SameReach(s: State, id: nat, b: nat, e: Desc)
    requires Inv(s, id) && b < |s.desc| && s.desc[id].order < e.order <= MAX_ORDER
    ensures InReach(Absorb(s, id, b), e) <==> InReach(s, e)
  {
    var t := Absorb(s, id, b);
    assert t.free[e.order] == s.free[e.order];
    forall i: nat | i < |s.free[e.order]|
      ensures StartsAt(t, s.free[e.order][i], Buddy(e)) <==> StartsAt(s, s.free[e.order][i], Buddy(e))
    {
      assert s.free[e.order][i] in s.free[e.order];
    }
  }

  /** Merging goes up exactly as far as buddies are in reach. */
  lemma {:induction false} MergesInReach(s: State, id: nat, h: nat)
    requires Inv(s, id) && s.desc[id] == Around(h, s.desc[id].order)
    ensures var o, e := s.desc[id].order, Coalesce(s, id).desc[id];
      && o <= e.order && e == Around(h, e.order)
      && (forall j: nat :: o <= j < e.order ==> InReach(s, Around(h, j)))
      && (e.order < MAX_ORDER ==> !InReach(s, e))
    decreases MAX_ORDER - s.desc[id].order
  {
    ReachIsMergeable(s, id);
    if Mergeable(s, id) {
      var o, b := s.desc[id].order, FoundBuddy(s, id);
      var t := Absorb(s, id, b);
      AbsorbInv(s, id, b);
      AroundNext(h, s.desc[id]);
      MergesInReach(t, id, h);
      var e := Coalesce(t, id).desc[id];
      forall j: nat | o <= j < e.order ensures InReach(s, Around(h, j)) {
        if o < j { SameReach(s, id, b, Around(h, j)); }
      }
      SameReach(s, id, b, e);
    }
  }

  /** The buddy of the block where merging stops is free. */
  ghost predicate BuddyLeft(s: State, id: nat)
    requires Inv(s, NONE) && id in s.used
  {
    var d := MergedUp(s, id).desc[id];
    d.order < MAX_ORDER && exists y: nat :: OnFree(s, y) && s.desc[y] == Desc(Buddy(d), d.order)
  }

  /** No two places of a list hold blocks that start at the same page. */
  lemma OnePlace(s: State, o: nat, i: nat, j: nat, h: nat)
    requires Inv(s, NONE) && o <= MAX_ORDER && i < |s.free[o]| && j < |s.free[o]|
    requires StartsAt(s, s.free[o][i], h) && StartsAt(s, s.free[o][j], h)
    ensures i == j
  {
    var x, y := s.free[o][i], s.free[o][j];
    assert x in s.free[o] && y in s.free[o];
    assert OnFree(s, x) && OnFree(s, y);
    assert Covers(s.desc[x], h) && Covers(s.desc[y], h);
    assert s.owner[h] == Free(x) == Free(y);
    assert Distinct(s.free[o]);
  }

  lemma NotBoth(s: State, e: Desc)
    requires Inv(s, NONE)
    ensures !(InReach(s, e) && OutOfReach(s, e))
  {
    if InReach(s, e) && OutOfReach(s, e) {
      var i: nat :| i < |s.free[e.order]| && i < 1000 && StartsAt(s, s.free[e.order][i], Buddy(e));
      var j: nat :| 1000 <= j < |s.free[e.order]| && StartsAt(s, s.free[e.order][j], Buddy(e));
      OnePlace(s, e.order, i, j, Buddy(e));
      assert false;
    }
  }

  lemma OverlookedIsLeft(s: State, id: nat)
    requires Inv(s, NONE) && id in s.used
    ensures BuddyLeft(s, id) <==> exists k: nat :: Overlooks(s, s.desc[id], k)
  {
    var h, d := Release(s, id), s.desc[id];
    ReleaseInv(s, id);
    AroundSelf(d);
    MergesInReach(h, id, d.head);
    var e := MergedUp(s, id).desc[id];
    SameLists(s, id);
    if BuddyLeft(s, id) {
      var y: nat :| OnFree(s, y) && s.desc[y] == Desc(Buddy(e), e.order);
      var i: nat :| i < |s.free[e.order]| && s.free[e.order][i] == y;
      assert StartsAt(s, s.free[e.order][i], Buddy(e));
      assert InReach(h, e) <==> InReach(s, e);
      assert Overlooks(s, d, e.order);
    }
    if k: nat :| Overlooks(s, d, k) {
      NotBoth(s, Around(d.head, k));
      var f := Around(d.head, k);
      var i: nat :| 1000 <= i < |s.free[k]| && StartsAt(s, s.free[k][i], Buddy(f));
      assert s.free[k][i] in s.free[k];
      assert OnFree(s, s.free[k][i]);
      assert InReach(h, Around(d.head, e.order)) <==> InReach(s, Around(d.head, e.order));
      assert k >= e.order;
      assert k == e.order;
    }
  }

  /** Holding a block does not change who is in reach. */
  lemma SameLists(s: State, id: nat)
    ensures forall e: Desc :: InReach(Release(s, id), e) <==> InReach(s, e)
  {
    var h := Release(s, id);
    assert forall x: nat, q: nat :: StartsAt(h, x, q) <==> StartsAt(s, x, q);
  }

  /** Freeing keeps the free blocks fully merged exactly when no buddy is free but left standing. */
  lemma FreeLeavesBuddy(s: State, id: nat)
    requires Inv(s, NONE) && id in s.used && Coalesced(s)
    ensures Coalesced(FreeId(s, id)) <==> !BuddyLeft(s, id)
  {
    ReleaseInv(s, id);
    var h := Release(s, id);
    var c := MergedUp(s, id);
    var r := Push(c, id);
    CoalesceLists(h, id);
    PushInv(c, id);
    AppendFacts(c.free[c.desc[id].order], id);
    assert forall x: nat :: OnFree(h, x) <==> OnFree(s, x);
    assert forall x: nat :: OnFree(r, x) <==> OnFree(c, x) || x == id;
    BuddyHalves(c.desc[id]);
    if BuddyLeft(s, id) {
      var y: nat :| OnFree(s, y) && s.desc[y] == Desc(Buddy(c.desc[id]), c.desc[id].order);
      assert OnFree(h, y);
      assert y != id;
      assert c.free[c.desc[id].order] == h.free[c.desc[id].order];
      assert OnFree(c, y);
      assert OnFree(r, id) && OnFree(r, y);
    } else {
      forall x: nat, y: nat | OnFree(r, x) && OnFree(r, y) && r.desc[x].order == r.desc[y].order < MAX_ORDER
        ensures r.desc[y].head != Buddy(r.desc[x])
      {
        BuddyHalves(r.desc[x]);
        assert x != id ==> OnFree(s, x) && s.desc[x] == r.desc[x];
        assert y != id ==> OnFree(s, y) && s.desc[y] == r.desc[y];
      }
    }
  }

  /** Freeing keeps the free blocks fully merged exactly when there is no order k at which the
      search overlooks a buddy: at every order below k the buddy of the block around the freed one is
      among the first 1000 entries of its list, and at k it is on its list behind them. */
  lemma FreeKeepsCoalesced(s: State, id: nat)
    requires Inv(s, NONE) && id in s.used && Coalesced(s)
    ensures Coalesced(FreeId(s, id)) <==> !exists k: nat :: Overlooks(s, s.desc[id], k)
  {
    FreeLeavesBuddy(s, id);
    OverlookedIsLeft(s, id);
  }

  /** Lists no longer than the search limit suffice. */
  lemma FreeKeepsCoalescedShortLists(s: State, id: nat)
    requires Inv(s, NONE) && id in s.used && Coalesced(s)
    requires forall o: nat :: o < MAX_ORDER ==> |s.free[o]| <= 1000
    ensures Coalesced(FreeId(s, id))
  {
    FreeKeepsCoalesced(s, id);
  }

  /** A freed block whose buddy is at any of the first 1000 places of its list grows. */
  lemma NearBuddyMerges(s: State, id: nat, i: nat)
    requires Inv(s, NONE) && id in s.used
    requires s.desc[id].order < 9 && i < |s.free[s.desc[id].order]| && i < 1000
    requires StartsAt(s, s.free[s.desc[id].order][i], Buddy(s.desc[id]))
    ensures FreeId(s, id).desc[id].order > s.desc[id].order
  {
    var h, d := Release(s, id), s.desc[id];
    ReleaseInv(s, id);
    assert StartsAt(h, h.free[d.order][i], Buddy(d));
    assert InReach(h, d);
    AroundSelf(d);
    MergesInReach(h, id, d.head);
  }
}
