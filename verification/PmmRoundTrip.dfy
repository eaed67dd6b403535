/** When allocating and then freeing restores the free blocks. */
module PmmRoundTrip {
  import opened PmmModel
  import opened Seqs
  import opened PmmOps
  import opened PmmBuddies

  /** The blocks on the free lists, by start and order. */
  ghost function FreeBlocks(s: State): set<Desc>
  {
    set id: nat | id < |s.desc| && OnFree(s, id) :: s.desc[id]
  }

  /** a is b with some descriptors in addition that nothing refers to. */
  ghost predicate Stale(a: State, b: State)
  {
    && a.free == b.free && a.used == b.used && a.owner == b.owner
    && |b.desc| <= |a.desc| && a.desc[..|b.desc|] == b.desc
  }

  lemma {:induction false} SearchStale(a: State, b: State, list: seq<nat>, head: nat, k: nat)
    requires Stale(a, b) && k <= |list|
    requires forall x: nat :: x in list ==> x < |b.desc|
    ensures Search(a, list, head, k) == Search(b, list, head, k)
    decreases |list| - k
  {
    if k < SEARCH_LIMIT && k < |list| {
      assert list[k] in list;
      assert a.desc[list[k]] == a.desc[..|b.desc|][list[k]];
      SearchStale(a, b, list, head, k + 1);
    }
  }

  lemma {:induction false} CoalesceStale(a: State, b: State, id: nat)
    requires Inv(a, id) && Inv(b, id) && Stale(a, b)
    ensures Stale(Coalesce(a, id), Coalesce(b, id))
    decreases MAX_ORDER - b.desc[id].order
  {
    assert a.desc[id] == a.desc[..|b.desc|][id];
    assert Peers(a, id) == Peers(b, id);
    SearchStale(a, b, Peers(b, id), Buddy(b.desc[id]), 0);
    if Mergeable(b, id) {
      var x := FoundBuddy(b, id);
      assert a.desc[x] == a.desc[..|b.desc|][x];
      AbsorbInv(a, id, x);
      AbsorbInv(b, id, x);
      CoalesceStale(Absorb(a, id, x), Absorb(b, id, x), id);
    }
  }

  /** Merging with the upper half that was just split off undoes the split. */
  lemma AbsorbUndoesSplit(s: State, id: nat)
    requires Inv(s, id) && s.desc[id].order > 0 && |s.desc| < MAX_BLOCK_DESC
    requires s.free[s.desc[id].order - 1] == []
    ensures Inv(SplitOnce(s, id), id) && Mergeable(SplitOnce(s, id), id)
    ensures FoundBuddy(SplitOnce(s, id), id) == |s.desc|
    ensures Stale(Absorb(SplitOnce(s, id), id, |s.desc|), s)
  {
    var t := SplitOnce(s, id);
    var d := s.desc[id];
    SplitOnceInv(s, id);
    UpperIsBuddy(d);
    assert Peers(t, id) == [|s.desc|];
    var r := Absorb(t, id, |s.desc|);
    assert [|s.desc|][1..] == [];
    assert r.free[d.order - 1] == s.free[d.order - 1];
    assert r.free == s.free;
    OwnersRestored(s, id);
    assert r.desc[..|s.desc|] == s.desc;
  }

  lemma OwnersRestored(s: State, id: nat)
    requires Inv(s, id) && s.desc[id].order > 0 && |s.desc| < MAX_BLOCK_DESC
    ensures Absorb(SplitOnce(s, id), id, |s.desc|).owner == s.owner
  {
    var d := s.desc[id];
    assert OnUsed(s, id, id);
    assert forall p: nat :: Covers(Upper(d), p) ==> Covers(d, p);
    PaintBack(s.owner, Upper(d), id, |s.desc|);
  }

  lemma PaintBack(m: map<nat, Owner>, u: Desc, id: nat, n: nat)
    requires forall p: nat :: Covers(u, p) ==> p in m && m[p] == Used(id)
    ensures Paint(Paint(Paint(m, u, Dropped), u, Free(n)), u, Used(id)) == m
  {
  }

  lemma {:induction false} CoalesceUndoesSplit(s: State, id: nat, order: nat)
    requires Inv(s, id) && order <= s.desc[id].order
    requires |s.desc| + s.desc[id].order - order <= MAX_BLOCK_DESC
    requires forall k: nat :: order <= k < s.desc[id].order ==> s.free[k] == []
    ensures Stale(Coalesce(SplitTo(s, id, order), id), Coalesce(s, id))
    decreases s.desc[id].order
  {
    if s.desc[id].order > order {
      AbsorbUndoesSplit(s, id);
      var t := SplitOnce(s, id);
      CoalesceUndoesSplit(t, id, order);
      AbsorbInv(t, id, |s.desc|);
      CoalesceStale(Absorb(t, id, |s.desc|), s, id);
      StaleTrans(Coalesce(SplitTo(s, id, order), id), Coalesce(t, id), Coalesce(s, id));
    }
  }

  lemma StaleTrans(a: State, b: State, c: State)
    requires Stale(a, b) && Stale(b, c)
    ensures Stale(a, c)
  {
    assert a.desc[..|c.desc|] == b.desc[..|c.desc|];
  }

  // ---------------------------------------------------------------- allocate, then free

  /** The block just handed out is the one a free of its address finds. */
  lemma FreeFindsAllocated(s: State, order: nat)
    requires Good(s) && CanServe(s, order)
    ensures var id, a := Served(s, order), Alloc(s, order);
      && Inv(a, NONE) && id in a.used && id < |s.desc|
      && FreeAt(a, s.desc[id].head) == FreeId(a, id)
  {
    AllocTheorem(s, order);
    var id, a := Served(s, order), Alloc(s, order);
    var i := FindUsed(a, a.desc[id].head, 0);
    assert a.used[|s.used|] == id;
    assert a.used[i] in a.used;
    assert Covers(a.desc[id], a.desc[id].head) && Covers(a.desc[a.used[i]], a.desc[id].head);
    assert OnUsed(a, NONE, id) && OnUsed(a, NONE, a.used[i]);
  }

  /** Up to stale descriptors, freeing what was just allocated merges the very block the
      allocation was served from. */
  lemma AllocFreeMerges(s: State, order: nat)
    requires Good(s) && CanServe(s, order)
    requires |s.desc| + FirstOrder(s, order) - order <= MAX_BLOCK_DESC
    ensures var id, a := Served(s, order), Alloc(s, order);
      && Good(a) && id in a.used
      && Stale(MergedUp(a, id), Coalesce(Picked(s, order), id))
  {
    var id, a := Served(s, order), Alloc(s, order);
    AllocTheorem(s, order);
    var h := Picked(s, order);
    var t := SplitTo(h, id, order);
    SplitToInv(h, id, order, t);
    RemoveAbsent(t.used, id);
    assert Release(a, id) == t;
    CoalesceUndoesSplit(h, id, order);
  }

  /** Pushing a held block back, stale descriptors or not, restores the free blocks. */
  lemma PushRestores(s: State, id: nat, c: State)
    requires Inv(s, NONE) && OnFree(s, id) && Inv(c, id) && Stale(c, Hold(s, id))
    ensures FreeBlocks(Push(c, id)) == FreeBlocks(s)
    ensures Push(c, id).used == s.used && Push(c, id).owner == s.owner
  {
    var h, r := Hold(s, id), Push(c, id);
    var o := s.desc[id].order;
    assert forall x: nat :: x < |s.desc| ==> c.desc[x] == c.desc[..|h.desc|][x];
    assert r.owner == s.owner;
    RemoveFacts(s.free[o], id);
    AppendFacts(c.free[o], id);
    forall x: nat ensures OnFree(r, x) <==> OnFree(s, x) {
      if OnFree(r, x) && x != id {
        assert OnFree(c, x);
        assert x in h.free[c.desc[x].order];
        assert x in s.free[c.desc[x].order];
      }
    }
  }

  /** If there are descriptors for the split and the served block finds no buddy of its own,
      allocating and freeing restores the free blocks, and every page its owner. */
  lemma RoundTripRestores(s: State, order: nat)
    requires Good(s) && CanServe(s, order)
    requires |s.desc| + FirstOrder(s, order) - order <= MAX_BLOCK_DESC
    requires !Mergeable(Picked(s, order), Served(s, order))
    ensures var id, a := Served(s, order), Alloc(s, order);
      && Inv(a, NONE) && id in a.used
      && FreeBlocks(FreeId(a, id)) == FreeBlocks(s)
      && FreeId(a, id).used == s.used
      && FreeId(a, id).owner == s.owner
  {
    AllocFreeMerges(s, order);
    ServedIsFree(s, order);
    PushRestores(s, Served(s, order), MergedUp(Alloc(s, order), Served(s, order)));
  }

  /** If the served block does find a buddy, the free blocks are not restored. */
  lemma RoundTripGrows(s: State, order: nat)
    requires Good(s) && CanServe(s, order)
    requires |s.desc| + FirstOrder(s, order) - order <= MAX_BLOCK_DESC
    requires Mergeable(Picked(s, order), Served(s, order))
    ensures var id, a := Served(s, order), Alloc(s, order);
      && Inv(a, NONE) && id in a.used && id < |s.desc|
      && s.desc[id] in FreeBlocks(s) && s.desc[id] !in FreeBlocks(FreeId(a, id))
  {
    AllocFreeMerges(s, order);
    var id, a, h := Served(s, order), Alloc(s, order), Picked(s, order);
    ServedIsFree(s, order);
    var c := MergedUp(a, id);
    var r := FreeId(a, id);
    PushInv(c, id);
    AbsorbInv(h, id, FoundBuddy(h, id));
    CoalesceLists(Absorb(h, id, FoundBuddy(h, id)), id);
    CoalescePages(h, id);
    var e := Coalesce(h, id);
    assert c.desc[id] == c.desc[..|e.desc|][id];
    assert OnFree(r, id) && r.desc[id].order > s.desc[id].order;
    assert Covers(s.desc[id], s.desc[id].head);
    forall x: nat | OnFree(r, x) ensures r.desc[x] != s.desc[id] {
      if r.desc[x].head == s.desc[id].head {
        assert Covers(r.desc[x], s.desc[id].head) && Covers(r.desc[id], s.desc[id].head);
      }
    }
  }

  /** Without descriptors for all the halves, some page of the split block is lost. */
  lemma {:induction false} SplitToLoses(s: State, id: nat, order: nat) returns (p: nat)
    requires Inv(s, id) && order < s.desc[id].order
    requires |s.desc| + s.desc[id].order - order > MAX_BLOCK_DESC
    ensures Covers(s.desc[id], p)
    ensures p in SplitTo(s, id, order).owner && SplitTo(s, id, order).owner[p] == Dropped
    decreases s.desc[id].order
  {
    var t, d := SplitOnce(s, id), s.desc[id];
    SplitOnceInv(s, id);
    if t.desc[id].order > order {
      p := SplitToLoses(t, id, order);
    } else {
      p := Upper(d).head;
      assert Covers(Upper(d), p);
    }
  }

  lemma RoundTripLoses(s: State, order: nat)
    requires Good(s) && CanServe(s, order)
    requires |s.desc| + FirstOrder(s, order) - order > MAX_BLOCK_DESC
    ensures var id, a := Served(s, order), Alloc(s, order);
      && Inv(a, NONE) && id in a.used && id < |s.desc|
      && s.desc[id] in FreeBlocks(s) && s.desc[id] !in FreeBlocks(FreeId(a, id))
  {
    var id, a := Served(s, order), Alloc(s, order);
    AllocTheorem(s, order);
    ServedIsFree(s, order);
    var p := SplitToLoses(Picked(s, order), id, order);
    FreeTheorem(a, id);
    var r := FreeId(a, id);
    assert r.owner[p] == Dropped;
    forall x: nat | OnFree(r, x) ensures r.desc[x] != s.desc[id] {
      assert !Covers(r.desc[x], p);
    }
  }

  /** The block that the allocation will be served from has its buddy on the same list, among the
      first 1000 entries behind it. */
  ghost predicate BuddyNear(s: State, order: nat)
    requires |s.free| == MAX_ORDER + 1 && CanServe(s, order)
  {
    var o := FirstOrder(s, order);
    && o < MAX_ORDER && Served(s, order) < |s.desc|
    && exists i: nat ::
      1 <= i < |s.free[o]| && i <= 1000 && StartsAt(s, s.free[o][i], Buddy(s.desc[Served(s, order)]))
  }

  lemma NearIsMergeable(s: State, order: nat)
    requires Inv(s, NONE) && CanServe(s, order)
    ensures Mergeable(Picked(s, order), Served(s, order)) <==> BuddyNear(s, order)
  {
    var o, id, h := FirstOrder(s, order), Served(s, order), Picked(s, order);
    var list, rest, b := s.free[o], h.free[o], Buddy(s.desc[id]);
    ServedIsFree(s, order);
    ReachIsMergeable(h, id);
    assert rest == list[1..];
    if o < MAX_ORDER && InReach(h, h.desc[id]) {
      var i: nat :| i < |rest| && i < 1000 && StartsAt(h, rest[i], b);
      assert StartsAt(s, list[i + 1], b);
    }
    if BuddyNear(s, order) {
      var i: nat :| 1 <= i < |list| && i <= 1000 && StartsAt(s, list[i], b);
      assert StartsAt(h, rest[i - 1], b);
    }
  }

  /** Allocating and then freeing the same address restores exactly the free blocks there were
      if and only if every half split off gets a descriptor and the block the allocation was
      served from has no free buddy of its own within reach of the search. */
  lemma AllocFreeRoundTrip(s: State, order: nat)
    requires Good(s) && CanServe(s, order)
    ensures var id, a := Served(s, order), Alloc(s, order);
      && Inv(a, NONE) && id < |s.desc|
      && (FreeBlocks(FreeAt(a, s.desc[id].head)) == FreeBlocks(s) <==>
            |s.desc| + FirstOrder(s, order) - order <= MAX_BLOCK_DESC && !BuddyNear(s, order))
  {
    FreeFindsAllocated(s, order);
    NearIsMergeable(s, order);
    if |s.desc| + FirstOrder(s, order) - order > MAX_BLOCK_DESC {
      RoundTripLoses(s, order);
    } else if Mergeable(Picked(s, order), Served(s, order)) {
      RoundTripGrows(s, order);
    } else {
      RoundTripRestores(s, order);
    }
  }

  /** In particular from every fully merged state, however long its lists are. */
  lemma AllocFreeRoundTripCoalesced(s: State, order: nat)
    requires Good(s) && Coalesced(s) && CanServe(s, order)
    requires |s.desc| + FirstOrder(s, order) - order <= MAX_BLOCK_DESC
    ensures var id, a := Served(s, order), Alloc(s, order);
      && Inv(a, NONE) && id < |s.desc|
      && FreeBlocks(FreeAt(a, s.desc[id].head)) == FreeBlocks(s)
      && FreeAt(a, s.desc[id].head).used == s.used
      && FreeAt(a, s.desc[id].head).owner == s.owner
  {
    var id, h := Served(s, order), Picked(s, order);
    ServedIsFree(s, order);
    RemoveFacts(s.free[s.desc[id].order], id);
    if Mergeable(h, id) {
      assert OnFree(s, FoundBuddy(h, id));
      assert false;
    }
    FreeFindsAllocated(s, order);
    RoundTripRestores(s, order);
  }
}
