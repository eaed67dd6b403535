/** What the operations of the allocator do, in terms of addresses. */
module PmmAddresses {
  import opened Bits
  import opened Seqs
  import opened PmmModel
  import opened PmmOps
  import opened PmmRuns

  /** Adding a region adds its pages from the first page boundary at or above its base on, as many as
      its size holds. */
  lemma AddedExactly(base: nat, size: nat, p: nat)
    ensures p in AddedBy(AddRegion(base, size)) <==>
            base <= 4096 * p && 4096 * p + 4096 <= (base + 4095) / 4096 * 4096 + size
  {
    assert Here(p);
  }

  /** Reserving a region reserves exactly the free pages that lie in it as a whole. */
  lemma ReservedExactly(s: State, base: nat, size: nat, p: nat)
    ensures Reserves(s, ReserveRegion(base, size), p) <==>
            InFree(s, p) && base <= 4096 * p && 4096 * p + 4096 <= base + size
  {
  }

  /** The allocated block that starts at an address. */
  ghost predicate StartsBlock(s: State, id: nat, addr: nat)
  {
    id in s.used && id < |s.desc| && 4096 * s.desc[id].head == addr
  }

  /** A free takes effect exactly if its order is no larger than 9 and an allocated block starts at the
      address; then that block leaves the allocated list and its pages are free, whatever the order. */
  lemma FreesExactly(s: State, addr: nat, order: nat, r: State, id: nat)
    requires Good(s) && Step(s, Deallocate(addr, order), r)
    ensures order > 9 || (forall x: nat :: !StartsBlock(s, x, addr)) ==> r == s
    ensures order <= 9 && StartsBlock(s, id, addr) ==> r.used == Remove(s.used, id) && r == FreeId(s, id)
    ensures order <= 9 && StartsBlock(s, id, addr) ==> forall p: nat :: Covers(s.desc[id], p) ==> InFree(r, p)
  {
    if order <= 9 && addr % PAGE == 0 {
      var i := FindUsed(s, addr / PAGE, 0);
      if i < |s.used| { assert StartsBlock(s, s.used[i], addr); }
      if StartsBlock(s, id, addr) {
        FoundBlock(s, addr / PAGE, id);
        FreeTheorem(s, id);
        forall p: nat | Covers(s.desc[id], p) ensures InFree(r, p) { Roles(r, p); }
      }
    }
  }

  /** No other allocated block starts at the same page. */
  lemma FoundBlock(s: State, head: nat, id: nat)
    requires Inv(s, NONE) && id in s.used && s.desc[id].head == head
    ensures var i := FindUsed(s, head, 0); i < |s.used| && s.used[i] == id
  {
    var i := FindUsed(s, head, 0);
    var j: nat :| j < |s.used| && s.used[j] == id;
    assert s.used[i] in s.used;
    assert OnUsed(s, NONE, id) && OnUsed(s, NONE, s.used[i]);
    assert Covers(s.desc[id], head) && Covers(s.desc[s.used[i]], head);
  }
}
