/** The buddy allocator of kernel/pmm.c: free lists, counters and a fixed array of descriptors. */
module Pmm {
  import opened Bits
  import opened PmmModel
  import opened Seqs
  import opened PmmOps
  import opened PmmRegions
  import opened PmmReserve
  import opened PmmCount

  datatype BlockInfo = BlockInfo(baseAddr: nat, order: nat, inUse: bool)

  // ---------------------------------------------------------------- arithmetic on addresses

  function GetBuddyAddr(addr: nat, order: nat): nat
  {
    Xor(addr, PAGE * Pow2(order))
  }

  /** On byte addresses the buddy is the buddy page. */
  lemma BuddyAddr(head: nat, order: nat)
    ensures GetBuddyAddr(PAGE * head, order) == PAGE * Buddy(Desc(head, order))
  {
    Pow2Values();
    XorShift(head, Pow2(order), 12);
  }

  /** The alignment test on byte addresses is the alignment of the page number. */
  lemma AlignedAddr(head: nat, order: nat)
    ensures And(PAGE * head, PAGE * Pow2(order) - 1) == 0 <==> Aligned(head, order)
  {
    Pow2Values();
    Pow2Add(12, order);
    AndMask(PAGE * head, 12 + order);
    AlignedIsMultiple(PAGE * head, 12 + order);
    AlignedScaled(head, 12, order);
  }

  lemma {:induction false} AlignedScaled(a: nat, j: nat, k: nat)
    ensures Aligned(Pow2(j) * a, j + k) <==> Aligned(a, k)
  {
    if j > 0 {
      AlignedScaled(a, j - 1, k);
      DoubleMul(Pow2(j - 1), a);
    }
  }

  /** Whether a block fits, asked of addresses and of page numbers. */
  lemma FitsAddr(addr: nat, remaining: nat, order: nat)
    requires addr % PAGE == 0 && remaining % PAGE == 0
    ensures remaining >= PAGE * Pow2(order) && And(addr, PAGE * Pow2(order) - 1) == 0
       <==> Pow2(order) <= remaining / PAGE && Aligned(addr / PAGE, order)
  {
    AlignedAddr(addr / PAGE, order);
  }

  /** The end of a block compared with a page. */
  lemma EndAddr(d: Desc, hi: nat)
    ensures PAGE * d.head + PAGE * Pow2(d.order) > PAGE * hi <==> d.head + Pow2(d.order) > hi
    ensures PAGE * d.head + PAGE * Pow2(d.order) == PAGE * (d.head + Pow2(d.order))
  {
  }

  class Pmm {
    const blocks: array<BlockInfo>
    var blockCount: nat
    var freeLists: seq<seq<nat>>
    var counts: seq<nat>
    var allocatedBlocks: seq<nat>
    var totalPages: nat
    var freePages: int

    ghost var st: State

    ghost predicate DescsLinked()
      reads this, blocks
    {
      && blocks.Length == MAX_BLOCK_DESC
      && |st.desc| == blockCount <= MAX_BLOCK_DESC
      && forall i: nat :: i < blockCount ==>
           blocks[i].baseAddr == PAGE * st.desc[i].head && blocks[i].order == st.desc[i].order
    }

    ghost predicate CountsOk()
      reads this
    {
      && |freeLists| == |counts| == MAX_ORDER + 1
      && forall o: nat :: o <= MAX_ORDER ==> counts[o] == |freeLists[o]|
    }

    /** The fields hold what the state says. */
    ghost predicate Linked()
      reads this, blocks
    {
      DescsLinked() && CountsOk() && st.free == freeLists && st.used == allocatedBlocks
    }

    /** Blocks on the free lists are marked free, blocks on the allocated list allocated. */
    ghost predicate Marked()
      reads this, blocks
    {
      && (forall o: nat, id: nat {:trigger id in freeLists[o]} ::
            o < |freeLists| && id in freeLists[o] ==> id < blocks.Length && !blocks[id].inUse)
      && (forall id: nat {:trigger id in allocatedBlocks} ::
            id in allocatedBlocks ==> id < blocks.Length && blocks[id].inUse)
    }

    /** By how much free_pages over-reports the pages on the free lists. */
    ghost function Drift(): int
      reads this
    {
      freePages - Weight(freeLists, |freeLists|)
    }

    ghost predicate Valid()
      reads this, blocks
    {
      Linked() && Marked() && Good(st) && Drift() >= 0
    }

    constructor ()
      ensures Valid() && fresh(blocks)
      ensures st == EMPTY
      ensures freePages == 0 && totalPages == 0 && Drift() == 0
    {
      blocks := new BlockInfo[MAX_BLOCK_DESC](_ => BlockInfo(0, 0, false));
      blockCount := 0;
      freeLists := [[], [], [], [], [], [], [], [], [], []];
      counts := [0, 0, 0, 0, 0, 0, 0, 0, 0, 0];
      allocatedBlocks := [];
      totalPages := 0;
      freePages := 0;
      st := EMPTY;
      new;
      WeightEmpty(freeLists, |freeLists|);
    }

    static lemma {:induction false} WeightEmpty(lists: seq<seq<nat>>, k: nat)
      requires k <= |lists| && forall o: nat :: o < |lists| ==> lists[o] == []
      ensures Weight(lists, k) == 0
    {
      if k > 0 { WeightEmpty(lists, k - 1); }
    }

    method AllocBlock() returns (id: int)
      modifies this`blockCount
      ensures if old(blockCount) >= MAX_BLOCK_DESC then id == NONE && blockCount == old(blockCount)
              else id == old(blockCount) && blockCount == old(blockCount) + 1
    {
      if blockCount >= MAX_BLOCK_DESC {
        return NONE;
      }
      id := blockCount;
      blockCount := blockCount + 1;
    }

    /** list_remove from a free list, with its count. */
    method Unlink(id: nat, o: nat)
      requires CountsOk() && o <= MAX_ORDER && id in freeLists[o] && Distinct(freeLists[o])
      modifies this`freeLists, this`counts
      ensures CountsOk() && freeLists == old(freeLists)[o := Remove(old(freeLists)[o], id)]
      ensures old(Marked()) ==> Marked()
      ensures Drift() == old(Drift()) + Pow2(o)
    {
      WeightRemove(freeLists, o, id);
      RemoveFacts(freeLists[o], id);
      freeLists := freeLists[o := Remove(freeLists[o], id)];
      counts := counts[o := counts[o] - 1];
    }

    /** list_push_back onto a free list, with its count. */
    method Append(id: nat, o: nat)
      requires CountsOk() && o <= MAX_ORDER && id < blocks.Length && !blocks[id].inUse
      modifies this`freeLists, this`counts
      ensures old(Marked()) ==> Marked()
      ensures CountsOk() && freeLists == old(freeLists)[o := old(freeLists)[o] + [id]]
      ensures Drift() == old(Drift()) - Pow2(o)
    {
      WeightPush(freeLists, o, id);
      freeLists := freeLists[o := freeLists[o] + [id]];
      counts := counts[o := counts[o] + 1];
    }

    method AddFreeBlock(addr: nat, order: nat, ghost head: nat, ghost held: int)
      requires Linked() && order <= MAX_ORDER && addr == PAGE * head
      modifies this, blocks
      ensures Linked() && st == AddBlock(old(st), head, order)
      ensures Drift() == old(Drift()) && totalPages == old(totalPages)
      ensures forall i: nat :: i < old(blockCount) ==> blocks[i] == old(blocks[i])
      ensures old(Marked()) && FreeIds(old(st), held) && UsedIds(old(st), held) ==> Marked()
    {
      ghost var s := st;
      var id := AllocBlock();
      if id == NONE {
        st := AddBlock(s, head, order);
        return;
      }
      WriteBlock(id, BlockInfo(addr, order, false), held);
      Append(id, order);
      freePages := freePages + Pow2(order);
      st := AddBlock(s, head, order);
    }

    /** Fill in a descriptor that is not in use yet. */
    method WriteBlock(id: nat, info: BlockInfo, ghost held: int)
      requires |st.desc| <= id < blocks.Length && st.free == freeLists && st.used == allocatedBlocks
      modifies blocks
      ensures blocks[id] == info && forall i: nat :: i < blocks.Length && i != id ==> blocks[i] == old(blocks[i])
      ensures old(Marked()) && FreeIds(st, held) && UsedIds(st, held) ==> Marked()
    {
      blocks[id] := info;
    }

    /** Split a free block down to the target order and hand it out. */
    method SplitBlock(id: nat, target: nat)
      requires Valid() && OnFree(st, id) && target <= st.desc[id].order
      modifies this, blocks
      ensures Linked() && Marked()
      ensures Inv(Hold(old(st), id), id)
      ensures st == Take(SplitTo(Hold(old(st), id), id, target), id)
      ensures Drift() == old(Drift()) + Pow2(old(st).desc[id].order)
      ensures totalPages == old(totalPages)
    {
      ghost var h := Hold(st, id);
      ghost var top := st.desc[id].order;
      ghost var drift := Drift() + Pow2(top);
      HoldInv(st, id);
      st := h;
      while blocks[id].order > target
        invariant Splitting(id) && Inv(st, id) && target <= blocks[id].order <= top
        invariant SplitTo(st, id, target) == SplitTo(h, id, target)
        invariant Drift() + Pow2(blocks[id].order) == drift
        invariant totalPages == old(totalPages)
        decreases blocks[id].order
      {
        SplitStep(id);
      }
      HandOut(id);
    }

    /** Move the split block to the allocated list. */
    method HandOut(id: nat)
      requires Splitting(id) && Inv(st, id)
      modifies this, blocks
      ensures Linked() && Marked() && st == Take(old(st), id)
      ensures Drift() == old(Drift()) + Pow2(old(blocks[id].order)) && totalPages == old(totalPages)
    {
      var o := blocks[id].order;
      RemoveFacts(freeLists[o], id);
      Unlink(id, o);
      blocks[id] := blocks[id].(inUse := true);
      allocatedBlocks := allocatedBlocks + [id];
      st := Take(st, id);
    }

    /** The block being split is on its list; the state has it off the list. */
    ghost predicate Splitting(id: nat)
      reads this, blocks
    {
      && DescsLinked() && CountsOk() && Marked() && st.used == allocatedBlocks
      && id < blockCount && blocks[id].order <= MAX_ORDER
      && id in freeLists[blocks[id].order] && Distinct(freeLists[blocks[id].order])
      && st.free == freeLists[blocks[id].order := Remove(freeLists[blocks[id].order], id)]
    }

    /** One round of the splitting loop. */
    method SplitStep(id: nat)
      requires Splitting(id) && Inv(st, id) && blocks[id].order > 0
      modifies this, blocks
      ensures Splitting(id) && Inv(st, id) && st == SplitOnce(old(st), id)
      ensures blocks[id].order == old(blocks[id].order) - 1
      ensures Drift() == old(Drift()) + Pow2(blocks[id].order)
      ensures totalPages == old(totalPages)
    {
      ghost var s := st;
      ghost var u := Upper(s.desc[id]);
      var o := blocks[id].order;
      Halve(id);
      var buddyAddr := blocks[id].baseAddr + PAGE * Pow2(o - 1);
      AddFreeBlock(buddyAddr, o - 1, u.head, id);
      SplitOnceInv(s, id);
      Relink(id);
    }

    /** Take the block off its list and decrease its order. */
    method Halve(id: nat)
      requires Splitting(id) && Inv(st, id) && blocks[id].order > 0
      modifies this, blocks
      ensures Linked() && Marked() && st == Shrink(old(st), id)
      ensures FreeIds(st, id) && UsedIds(st, id)
      ensures blocks[id] == old(blocks[id]).(order := old(blocks[id]).order - 1)
      ensures Drift() == old(Drift()) + Pow2(old(blocks[id]).order)
      ensures totalPages == old(totalPages) && blockCount == old(blockCount)
    {
      var o := blocks[id].order;
      RemoveFacts(freeLists[o], id);
      assert !blocks[id].inUse;
      Unlink(id, o);
      blocks[id] := blocks[id].(order := o - 1);
      ShrinkInv(st, id);
      st := Shrink(st, id);
    }

    /** Put the block on the list of its new order. */
    method Relink(id: nat)
      requires Linked() && Marked() && Inv(st, id) && !blocks[id].inUse
      modifies this`freeLists, this`counts
      ensures Splitting(id)
      ensures Drift() == old(Drift()) - Pow2(blocks[id].order)
    {
      var o := blocks[id].order;
      NotListed(st, id, o);
      RemoveAbsent(freeLists[o], id);
      AppendFacts(freeLists[o], id);
      Append(id, o);
    }

    /** A held descriptor is on no list. */
    static lemma NotListed(s: State, id: nat, o: nat)
      requires Inv(s, id) && o <= MAX_ORDER
      ensures id !in s.free[o] && Distinct(s.free[o])
    {
    }

    /** Find the best fitting free block and split it. */
    method FindFreeBlock(order: nat) returns (id: int)
      requires Valid() && order <= MAX_ORDER
      modifies this, blocks
      ensures Valid() && st == Alloc(old(st), order) && totalPages == old(totalPages)
      ensures if CanServe(old(st), order)
              then id == Served(old(st), order) && Drift() == old(Drift()) + Pow2(FirstOrder(old(st), order))
              else id == NONE && Drift() == old(Drift())
    {
      AllocTheorem(st, order);
      var o := order;
      while o <= MAX_ORDER
        invariant order <= o <= MAX_ORDER + 1
        invariant FirstOrder(st, order) == FirstOrder(st, o)
      {
        if freeLists[o] != [] {
          id := freeLists[o][0];
          ServedIsFree(st, order);
          SplitBlock(id, order);
          return;
        }
        o := o + 1;
      }
      id := NONE;
    }

    /** Allocate 2^order pages; 0 if there is no block to serve the request from. */
    method Allocate(order: nat) returns (addr: nat)
      requires Valid()
      modifies this, blocks
      ensures Valid() && st == Alloc(old(st), order) && totalPages == old(totalPages)
      ensures if CanServe(old(st), order)
              then addr == PAGE * old(st).desc[Served(old(st), order)].head
                && Drift() == old(Drift()) + Pow2(FirstOrder(old(st), order))
              else addr == 0 && Drift() == old(Drift())
    {
      if order > MAX_ORDER {
        return 0;
      }
      AllocTheorem(st, order);
      var id := FindFreeBlock(order);
      if id == NONE {
        return 0;
      }
      addr := blocks[id].baseAddr;
    }

    /** The position of the buddy on its free list, searching no further than the limit. */
    method SearchBuddy(id: nat, buddyAddr: nat) returns (i: nat)
      requires Linked() && Marked() && Inv(st, id)
      requires buddyAddr == PAGE * Buddy(st.desc[id])
      ensures i == Search(st, Peers(st, id), Buddy(st.desc[id]), 0)
    {
      var list := freeLists[blocks[id].order];
      assert list == Peers(st, id);
      i := 0;
      var iterations := 0;
      while i < |list|
        invariant i <= |list| && iterations == i
        invariant Search(st, list, Buddy(st.desc[id]), 0) == Search(st, list, Buddy(st.desc[id]), i)
      {
        iterations := iterations + 1;
        if iterations > 1000 {
          return |list|;
        }
        var b := list[i];
        assert b in freeLists[blocks[id].order];
        if blocks[b].baseAddr == buddyAddr && !blocks[b].inUse {
          return;
        }
        i := i + 1;
      }
    }

    /** Merge a block that is on no list with its buddies and put it on its free list. */
    method CoalesceBlock(id: nat)
      requires Linked() && Marked() && Inv(st, id)
      modifies this, blocks
      ensures Linked() && Marked() && Inv(Coalesce(old(st), id), id)
      ensures st == Push(Coalesce(old(st), id), id)
      ensures Drift() == old(Drift()) + Pow2(Coalesce(old(st), id).desc[id].order) - Pow2(old(st).desc[id].order)
      ensures totalPages == old(totalPages)
    {
      ghost var k, goal := st.desc[id].order, Coalesce(st, id);
      CoalesceInv(st, id, goal);
      while blocks[id].order < MAX_ORDER
        invariant Linked() && Marked() && Inv(st, id) && Coalesce(st, id) == goal
        invariant Drift() == old(Drift()) + Pow2(blocks[id].order) - Pow2(k)
        invariant totalPages == old(totalPages)
        decreases MAX_ORDER - blocks[id].order
      {
        var found := CoalesceStep(id);
        if !found {
          break;
        }
      }
      assert st == goal;
      PutBack(id);
    }

    /** Put the merged block on its free list. */
    method PutBack(id: nat)
      requires Linked() && Marked() && Inv(st, id)
      modifies this, blocks
      ensures Linked() && Marked() && st == Push(old(st), id)
      ensures Drift() == old(Drift()) && totalPages == old(totalPages)
    {
      blocks[id] := blocks[id].(inUse := false);
      var o := blocks[id].order;
      Append(id, o);
      freePages := freePages + Pow2(o);
      st := Push(st, id);
    }

    /** One round of the merging loop. */
    method CoalesceStep(id: nat) returns (found: bool)
      requires Linked() && Marked() && Inv(st, id) && blocks[id].order < MAX_ORDER
      modifies this, blocks
      ensures Linked() && Marked() && Inv(st, id)
      ensures found == Mergeable(old(st), id)
      ensures st == if found then Absorb(old(st), id, FoundBuddy(old(st), id)) else old(st)
      ensures Drift() == old(Drift()) + Pow2(blocks[id].order) - Pow2(old(blocks[id].order))
      ensures totalPages == old(totalPages)
    {
      var o := blocks[id].order;
      var buddyAddr := GetBuddyAddr(blocks[id].baseAddr, o);
      BuddyAddr(st.desc[id].head, o);
      var i := SearchBuddy(id, buddyAddr);
      if i >= |freeLists[o]| {
        return false;
      }
      found := true;
      TakeIn(id, freeLists[o][i], o, buddyAddr);
    }

    /** Merge the free block b into the held block. */
    method TakeIn(id: nat, b: nat, o: nat, buddyAddr: nat)
      requires Linked() && Marked() && Inv(st, id) && o == blocks[id].order < MAX_ORDER
      requires Mergeable(st, id) && b == FoundBuddy(st, id) && buddyAddr == PAGE * st.desc[b].head
      modifies this, blocks
      ensures Linked() && Marked() && Inv(st, id) && st == Absorb(old(st), id, b)
      ensures Drift() == old(Drift()) + Pow2(o + 1) - Pow2(o) && blocks[id].order == o + 1
      ensures totalPages == old(totalPages)
    {
      ghost var s := st;
      AbsorbInv(s, id, b);
      Unlink(b, o);
      if blocks[id].baseAddr > buddyAddr {
        blocks[id] := blocks[id].(baseAddr := buddyAddr);
      }
      blocks[id] := blocks[id].(order := o + 1);
      st := Absorb(s, id, b);
    }

    /** The position on the allocated list of the block at an address. */
    method FindAllocatedBlock(addr: nat) returns (i: nat)
      requires Valid()
      ensures i <= |allocatedBlocks|
      ensures if addr % PAGE == 0 then i == FindUsed(st, addr / PAGE, 0) else i == |allocatedBlocks|
    {
      i := 0;
      while i < |allocatedBlocks|
        invariant i <= |allocatedBlocks|
        invariant FindUsed(st, addr / PAGE, 0) == FindUsed(st, addr / PAGE, i) || addr % PAGE != 0
      {
        assert allocatedBlocks[i] in allocatedBlocks;
        if blocks[allocatedBlocks[i]].baseAddr == addr {
          return;
        }
        i := i + 1;
      }
    }

    /** Free the block that starts at an address; nothing happens if none is allocated there. */
    method Deallocate(addr: nat, order: nat)
      requires Valid()
      modifies this, blocks
      ensures Valid() && totalPages == old(totalPages)
      ensures var i := FindUsed(old(st), addr / PAGE, 0);
        if order <= MAX_ORDER && addr % PAGE == 0 && i < |old(st).used| then
          var id := old(st).used[i];
          && id in old(st).used
          && st == FreeId(old(st), id)
          && Drift() == old(Drift()) + Pow2(MergedUp(old(st), id).desc[id].order) - Pow2(old(st).desc[id].order)
        else
          st == old(st) && Drift() == old(Drift())
    {
      if order > MAX_ORDER {
        return;
      }
      var i := FindAllocatedBlock(addr);
      if i == |allocatedBlocks| {
        return;
      }
      var id := allocatedBlocks[i];
      DeallocateFound(id);
    }

    method DeallocateFound(id: nat)
      requires Valid() && id in st.used
      modifies this, blocks
      ensures Valid() && totalPages == old(totalPages)
      ensures st == FreeId(old(st), id)
      ensures Drift() == old(Drift()) + Pow2(MergedUp(old(st), id).desc[id].order) - Pow2(old(st).desc[id].order)
    {
      FreeTheorem(st, id);
      ReleaseInv(st, id);
      RemoveFacts(allocatedBlocks, id);
      CoalesceLists(Release(st, id), id);
      Pow2Monotone(st.desc[id].order, MergedUp(st, id).desc[id].order);
      allocatedBlocks := Remove(allocatedBlocks, id);
      st := Release(st, id);
      CoalesceBlock(id);
    }

    /** The largest order of a block that fits at addr. */
    method LargestOrder(addr: nat, remaining: nat) returns (order: nat)
      requires addr % PAGE == 0 && remaining % PAGE == 0
      ensures order == BestOrder(addr / PAGE, remaining / PAGE, MAX_ORDER)
    {
      ghost var p, n := addr / PAGE, remaining / PAGE;
      order := MAX_ORDER;
      while order > 0
        invariant order <= MAX_ORDER && BestOrder(p, n, MAX_ORDER) == BestOrder(p, n, order)
      {
        var blockSize := PAGE * Pow2(order);
        FitsAddr(addr, remaining, order);
        if remaining >= blockSize && And(addr, blockSize - 1) == 0 {
          break;
        }
        order := order - 1;
      }
    }

    /** Add a region: its pages, from the rounded up base and for the rounded down size, are
        put on the free lists as the largest possible blocks. */
    method AddRegion(base: nat, size: nat)
      requires Valid()
      requires RangeUnclaimed(st, RoundUp(base), RoundUp(base) + size / PAGE)
      modifies this, blocks
      ensures Valid() && Drift() == old(Drift())
      ensures TilesTo(old(st), RoundUp(base), RoundUp(base) + size / PAGE, MAX_ORDER, st)
      ensures totalPages == old(totalPages) + size / PAGE
    {
      var start := RoundUp(base) * PAGE;
      var size' := size / PAGE * PAGE;
      if size' < PAGE {
        return;
      }
      AddBlocks(start, start + size', RoundUp(base), RoundUp(base) + size / PAGE);
      totalPages := totalPages + size' / PAGE;
    }

    /** The tiling loop. */
    method AddBlocks(start: nat, end: nat, ghost first: nat, ghost last: nat)
      requires Valid() && RangeUnclaimed(st, first, last) && first <= last
      requires start == PAGE * first && end == PAGE * last
      modifies this, blocks
      ensures Valid() && TilesTo(old(st), first, last, MAX_ORDER, st)
      ensures Drift() == old(Drift()) && totalPages == old(totalPages)
    {
      var addr := start;
      ghost var s, p := st, first;
      while addr < end
        invariant addr == PAGE * p && p <= last
        invariant Linked() && Marked() && Inv(st, NONE) && RangeUnclaimed(st, p, last)
        invariant Continues(s, first, st, p, last, MAX_ORDER)
        invariant Drift() == old(Drift()) && totalPages == old(totalPages)
      {
        var order := AddTile(addr, end - addr, p, last, s, first);
        addr := addr + PAGE * Pow2(order);
        p := p + Pow2(order);
      }
      assert p == last;
      TilesToNothing(st, p, last, MAX_ORDER);
      AddRegionGood(s, first, last, st);
    }

    /** One round of the tiling loop. */
    method AddTile(addr: nat, remaining: nat, ghost p: nat, ghost last: nat, ghost s: State, ghost first: nat)
      returns (order: nat)
      requires Linked() && Marked() && Inv(st, NONE) && RangeUnclaimed(st, p, last) && p < last
      requires addr == PAGE * p && remaining == PAGE * (last - p)
      requires Continues(s, first, st, p, last, MAX_ORDER)
      modifies this, blocks
      ensures Linked() && Marked() && Inv(st, NONE) && RangeUnclaimed(st, p + Pow2(order), last)
      ensures order <= MAX_ORDER && p + Pow2(order) <= last
      ensures Continues(s, first, st, p + Pow2(order), last, MAX_ORDER)
      ensures Drift() == old(Drift()) && totalPages == old(totalPages)
    {
      order := LargestOrder(addr, remaining);
      assert addr / PAGE == p && remaining / PAGE == last - p;
      TileNext(st, p, last, MAX_ORDER, order);
      ContinuesNext(s, first, st, p, last, MAX_ORDER, order);
      AddFreeBlock(addr, order, p, NONE);
    }

    static lemma AddRegionGood(s: State, p: nat, end: nat, r: State)
      requires Good(s) && RangeUnclaimed(s, p, end) && p <= end && TilesTo(s, p, end, MAX_ORDER, r)
      ensures Good(r)
    {
      TileTheorem(s, p, end, MAX_ORDER, r);
    }

    /** Put the pages [from, to) back on the free lists: the loop looks for the smallest order
        that fits, which is always a single page. */
    method AddPages(from: nat, to: nat, maxOrder: nat, ghost first: nat, ghost last: nat)
      requires Linked() && Marked() && Inv(st, NONE) && RangeUnclaimed(st, first, last) && maxOrder <= MAX_ORDER
      requires from == PAGE * first && to == PAGE * last && first <= last
      modifies this, blocks
      ensures Linked() && Marked() && TilesTo(old(st), first, last, 0, st)
      ensures Drift() == old(Drift()) && totalPages == old(totalPages)
    {
      var addr, size := from, to - from;
      ghost var s, p := st, first;
      while size >= PAGE
        invariant addr == PAGE * p && size == PAGE * (last - p) && p <= last
        invariant Linked() && Marked() && Inv(st, NONE) && RangeUnclaimed(st, p, last)
        invariant Continues(s, first, st, p, last, 0)
        invariant Drift() == old(Drift()) && totalPages == old(totalPages)
      {
        AddPage(addr, size, maxOrder, p, last, s, first);
        addr := addr + PAGE;
        size := size - PAGE;
        p := p + 1;
      }
      assert p == last;
      TilesToNothing(st, p, last, 0);
    }

    /** One round of that loop. */
    method AddPage(addr: nat, size: nat, maxOrder: nat, ghost p: nat, ghost last: nat, ghost s: State, ghost first: nat)
      requires Linked() && Marked() && Inv(st, NONE) && RangeUnclaimed(st, p, last) && p < last
      requires addr == PAGE * p && size == PAGE * (last - p)
      requires Continues(s, first, st, p, last, 0)
      modifies this, blocks
      ensures Linked() && Marked() && Inv(st, NONE) && RangeUnclaimed(st, p + 1, last)
      ensures Continues(s, first, st, p + 1, last, 0)
      ensures Drift() == old(Drift()) && totalPages == old(totalPages)
    {
      AlignedAddr(p, 0);
      var o := SmallestOrder(addr, size, maxOrder);
      assert !Fits(addr, size, 0) || o == 0;
      TileNext(st, p, last, 0, 0);
      ContinuesNext(s, first, st, p, last, 0, 0);
      AddFreeBlock(addr, o, p, NONE);
    }

    /** The first order, from 0 up, of a block that fits at addr. */
    method SmallestOrder(addr: nat, size: nat, maxOrder: nat) returns (o: nat)
      ensures o <= maxOrder + 1 && (o <= maxOrder ==> Fits(addr, size, o))
      ensures forall j: nat :: j < o ==> !Fits(addr, size, j)
    {
      o := 0;
      while o <= maxOrder
        invariant o <= maxOrder + 1
        invariant forall j: nat :: j < o ==> !Fits(addr, size, j)
      {
        var bs := PAGE * Pow2(o);
        if size >= bs && And(addr, bs - 1) == 0 {
          return;
        }
        o := o + 1;
      }
    }

    /** Take a free block that meets the range away, and put the pages outside the range back. */
    method ReserveOne(id: nat, lo: nat, hi: nat)
      requires Valid() && OnFree(st, id) && lo < hi && Meets(st.desc[id], lo, hi)
      modifies this, blocks
      ensures Linked() && Marked() && BlockReserved(old(st), id, lo, hi, st)
      ensures Drift() == old(Drift()) && totalPages == old(totalPages)
    {
      ghost var s, d := st, st.desc[id];
      var order, start := blocks[id].order, blocks[id].baseAddr;
      TakeOut(id, lo, hi);
      ghost var t := st;
      PutFirstBack(start, order, lo, hi, s, d);
      PutLastBack(start, order, lo, hi, s, t, d);
      assert BlockReserved(s, id, lo, hi, st);
    }

    method TakeOut(id: nat, ghost lo: nat, ghost hi: nat)
      requires Valid() && OnFree(st, id)
      modifies this
      ensures Linked() && Marked() && Inv(st, NONE) && st == Discard(Hold(old(st), id), id, lo, hi)
      ensures GivenUp(old(st), st, old(st).desc[id], lo, hi)
      ensures Drift() == old(Drift()) && totalPages == old(totalPages)
    {
      var order := blocks[id].order;
      ghost var t := Discard(Hold(st, id), id, lo, hi);
      DiscardFacts(st, id, lo, hi, t);
      Unlink(id, order);
      freePages := freePages - Pow2(order);
      st := t;
    }

    method PutFirstBack(start: nat, order: nat, lo: nat, ghost hi: nat, ghost s: State, ghost d: Desc)
      requires Linked() && Marked() && Inv(st, NONE) && order <= MAX_ORDER && start == PAGE * d.head
      requires GivenUp(s, st, d, lo, hi) && lo < hi && Meets(d, lo, hi)
      modifies this, blocks
      ensures Linked() && Marked() && TilesTo(old(st), d.head, lo, 0, st)
      ensures Drift() == old(Drift()) && totalPages == old(totalPages)
    {
      GivenUpUnclaimed(s, st, d, lo, hi);
      if start < PAGE * lo {
        AddPages(start, PAGE * lo, order, d.head, lo);
      } else {
        TilesToNothing(st, d.head, lo, 0);
      }
    }

    method PutLastBack(start: nat, order: nat, lo: nat, hi: nat, ghost s: State, ghost t: State, ghost d: Desc)
      requires Linked() && Marked() && order == d.order <= MAX_ORDER && start == PAGE * d.head
      requires GivenUp(s, t, d, lo, hi) && lo < hi && Meets(d, lo, hi)
      requires Inv(t, NONE) && TilesTo(t, d.head, lo, 0, st)
      modifies this, blocks
      ensures Linked() && Marked() && PagesBack(t, old(st), d, lo, hi, st)
      ensures Drift() == old(Drift()) && totalPages == old(totalPages)
    {
      var end := start + PAGE * Pow2(order);
      ghost var last := d.head + Pow2(d.order);
      GivenUpUnclaimed(s, t, d, lo, hi);
      FirstPagesBack(s, t, st, d, lo, hi);
      EndAddr(d, hi);
      if end > PAGE * hi {
        TailUnclaimed(t, st, d.head, if d.head < lo then lo else d.head, hi, last);
        AddPages(PAGE * hi, end, order, hi, last);
      } else {
        TilesToNothing(st, hi, last, 0);
      }
    }

    /** Reserve on one free list. The walk keeps the next entry before it removes the current
        one, so it meets every entry the list had. */
    method ReserveList(order: nat, lo: nat, hi: nat)
      requires Valid() && order <= MAX_ORDER && lo < hi
      modifies this, blocks
      ensures Valid() && ListReserved(old(st), order, lo, hi, st)
      ensures Drift() == old(Drift()) && totalPages == old(totalPages)
    {
      ghost var ids, run := st.free[order], [st];
      var pos: nat := 0;
      while pos < |freeLists[order]|
        invariant Valid() && Distinct(ids) && Walk(run, ids, lo, hi) && run[0] == old(st) && run[|run| - 1] == st
        invariant pos <= |freeLists[order]| && freeLists[order][pos..] == ids[|run| - 1..]
        invariant Drift() == old(Drift()) && totalPages == old(totalPages)
        decreases |freeLists[order]| - pos
      {
        TailNext(freeLists[order], pos, ids, |run| - 1);
        pos := ReserveEntry(order, pos, lo, hi);
        WalkGrows(run, ids, lo, hi, st);
        run := run + [st];
      }
      assert WalkBetween(run, ids, lo, hi, old(st), st);
    }

    /** Look at one entry of a free list; the position of the next one is the result. */
    method ReserveEntry(order: nat, pos: nat, lo: nat, hi: nat) returns (next: nat)
      requires Valid() && order <= MAX_ORDER && lo < hi && pos < |freeLists[order]|
      modifies this, blocks
      ensures Valid() && IdReserved(old(st), old(freeLists)[order][pos], lo, hi, st)
      ensures next <= |freeLists[order]| && freeLists[order][next..] == old(freeLists)[order][pos + 1..]
      ensures Drift() == old(Drift()) && totalPages == old(totalPages)
    {
      ghost var s, l := st, freeLists[order];
      var id := freeLists[order][pos];
      assert id in freeLists[order];
      var start := blocks[id].baseAddr;
      var end := start + PAGE * Pow2(order);
      if PAGE * lo < end && PAGE * hi > start {
        ReserveOne(id, lo, hi);
        BlockReservedTheorem(s, id, lo, hi, st);
        BlockReservedList(s, id, lo, hi, st);
        RemoveAt(l, pos);
        next := pos;
      } else {
        next := pos + 1;
      }
    }

    /** Reserve a region, rounded inward to whole pages. */
    method ReserveRegion(base: nat, size: nat)
      requires Valid()
      modifies this, blocks
      ensures Valid() && RangeReserved(old(st), RoundUp(base), (base + size) / PAGE, st)
      ensures Drift() == old(Drift()) && totalPages == old(totalPages)
    {
      var lo, hi := RoundUp(base), (base + size) / PAGE;
      if lo >= hi {
        return;
      }
      ghost var run := [st];
      var order := 0;
      while order <= MAX_ORDER
        invariant order <= MAX_ORDER + 1
        invariant Valid() && Rounds(run, lo, hi) && |run| == order + 1 && run[0] == old(st) && run[order] == st
        invariant Drift() == old(Drift()) && totalPages == old(totalPages)
      {
        ReserveList(order, lo, hi);
        run := run + [st];
        order := order + 1;
      }
      assert RoundsBetween(run, lo, hi, old(st), st);
    }
  }

  /** What the tiling of [p, end) from t leads to, that of [first, end) from s leads to as well. */
  ghost predicate Continues(s: State, first: nat, t: State, p: nat, end: nat, k: nat)
  {
    forall r {:trigger TilesTo(t, p, end, k, r)} :: TilesTo(t, p, end, k, r) ==> TilesTo(s, first, end, k, r)
  }

  lemma ContinuesNext(s: State, first: nat, t: State, p: nat, end: nat, k: nat, o: nat)
    requires Continues(s, first, t, p, end, k) && |t.free| == MAX_ORDER + 1 && k <= MAX_ORDER
    requires p < end && o == BestOrder(p, end - p, k)
    ensures Continues(s, first, AddBlock(t, p, o), p + Pow2(o), end, k)
  {
    forall r | TilesTo(AddBlock(t, p, o), p + Pow2(o), end, k, r) ensures TilesTo(s, first, end, k, r) {
      assert TilesTo(t, p, end, k, r);
    }
  }

  lemma TailNext(a: seq<nat>, i: nat, b: seq<nat>, j: nat)
    requires i < |a| && j <= |b| && a[i..] == b[j..]
    ensures j < |b| && a[i] == b[j] && a[i + 1..] == b[j + 1..]
  {
    assert |a[i..]| == |b[j..]|;
    assert a[i] == a[i..][0] == b[j..][0];
    assert a[i + 1..] == a[i..][1..] == b[j..][1..];
  }

  predicate Fits(addr: nat, size: nat, o: nat)
  {
    size >= PAGE * Pow2(o) && And(addr, PAGE * Pow2(o) - 1) == 0
  }
}
