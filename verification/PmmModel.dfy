/**
 The buddy allocator as a value: which descriptor describes which block, which list every
 descriptor is on, and who owns every page that was ever added.
 */
module PmmModel {
  import opened Bits
  import opened Seqs

  const MAX_ORDER: nat := 9
  const MAX_BLOCK_DESC: nat := 2048
  const SEARCH_LIMIT: nat := 1000

  /** A block of 2^order pages starting at page number head. */
  datatype Desc = Desc(head: nat, order: nat)

  /** What became of a page: on a free list, handed out, reserved away, or lost when no
      descriptor was left to describe it. */
  datatype Owner = Free(id: nat) | Used(id: nat) | Reserved | Dropped

  datatype State = State(
    desc: seq<Desc>,          // the descriptors taken so far
    free: seq<seq<nat>>,      // one list of descriptor numbers per order
    used: seq<nat>,           // the allocated list
    owner: map<nat, Owner>)   // by page number

  const NONE: int := -1

  /** The allocator after initialization. */
  const EMPTY: State := State([], [[], [], [], [], [], [], [], [], [], []], [], map[])

  predicate Covers(d: Desc, p: nat)
  {
    d.head <= p < d.head + Pow2(d.order)
  }

  predicate BlockOk(d: Desc)
  {
    d.order <= MAX_ORDER && Aligned(d.head, d.order)
  }

  ghost predicate ListsDistinct(s: State)
  {
    (forall o: nat :: o < |s.free| ==> Distinct(s.free[o])) && Distinct(s.used)
  }

  ghost predicate FreeIds(s: State, held: int)
  {
    forall o: nat, id: nat {:trigger id in s.free[o]} :: o < |s.free| && id in s.free[o] ==>
      id < |s.desc| && s.desc[id].order == o && BlockOk(s.desc[id]) && id != held
  }

  ghost predicate UsedIds(s: State, held: int)
  {
    forall id: nat {:trigger id in s.used} :: id in s.used ==> id < |s.desc| && BlockOk(s.desc[id]) && id != held
  }

  ghost predicate HeldId(s: State, held: int)
  {
    held >= 0 ==> held < |s.desc| && BlockOk(s.desc[held])
  }

  /** Every list holds distinct descriptors of aligned blocks, a free list those of its own
      order. The descriptor `held` (if not NONE) is on no list: an operation is working on it. */
  ghost predicate Shape(s: State, held: int)
  {
    && |s.free| == MAX_ORDER + 1
    && |s.desc| <= MAX_BLOCK_DESC
    && HeldId(s, held)
    && ListsDistinct(s)
    && FreeIds(s, held)
    && UsedIds(s, held)
  }

  ghost predicate OnFree(s: State, id: nat)
  {
    id < |s.desc| && s.desc[id].order < |s.free| && id in s.free[s.desc[id].order]
  }

  ghost predicate OnUsed(s: State, held: int, id: nat)
  {
    id < |s.desc| && (id in s.used || id == held)
  }

  /** Every page of a free block is owned by that block's descriptor. */
  ghost predicate FreeOwn(s: State)
  {
    forall id: nat, p: nat {:trigger OnFree(s, id), Covers(s.desc[id], p)} ::
      OnFree(s, id) && Covers(s.desc[id], p) ==> p in s.owner && s.owner[p] == Free(id)
  }

  /** And so is every page of a block that is handed out or held. */
  ghost predicate UsedOwn(s: State, held: int)
  {
    forall id: nat, p: nat {:trigger OnUsed(s, held, id), Covers(s.desc[id], p)} ::
      OnUsed(s, held, id) && Covers(s.desc[id], p) ==> p in s.owner && s.owner[p] == Used(id)
  }

  /** Every page owned as free lies in that descriptor's listed block. */
  ghost predicate FreeOwners(s: State)
  {
    forall p: nat :: p in s.owner && s.owner[p].Free? ==>
      OnFree(s, s.owner[p].id) && Covers(s.desc[s.owner[p].id], p)
  }

  ghost predicate UsedOwners(s: State, held: int)
  {
    forall p: nat :: p in s.owner && s.owner[p].Used? ==>
      OnUsed(s, held, s.owner[p].id) && Covers(s.desc[s.owner[p].id], p)
  }

  ghost predicate Inv(s: State, held: int)
  {
    Shape(s, held) && FreeOwn(s) && UsedOwn(s, held) && FreeOwners(s) && UsedOwners(s, held)
  }

  /** Pages are only lost once the descriptors are exhausted. */
  ghost predicate DropsOnlyWhenFull(s: State)
  {
    forall p: nat :: p in s.owner && s.owner[p] == Dropped ==> |s.desc| == MAX_BLOCK_DESC
  }

  /** What holds between two operations. */
  ghost predicate Good(s: State)
  {
    Inv(s, NONE) && DropsOnlyWhenFull(s)
  }

  // ---------------------------------------------------------------- owners of pages

  ghost predicate FreeIn(s: State, p: nat) { p in s.owner && s.owner[p].Free? }

  ghost predicate LostIn(s: State, p: nat) { p in s.owner && s.owner[p] == Dropped }

  ghost predicate ReservedIn(s: State, p: nat) { p in s.owner && s.owner[p] == Reserved }

  predicate Here(p: nat) { true }

  /** The map with the pages of block d given the owner v. */
  ghost function Paint(m: map<nat, Owner>, d: Desc, v: Owner): (r: map<nat, Owner>)
    ensures forall p: nat :: p in r <==> p in m || Covers(d, p)
    ensures forall p: nat :: p in r ==> r[p] == if Covers(d, p) then v else m[p]
  {
    m + map p: nat {:trigger Here(p)} | d.head <= p < d.head + Pow2(d.order) && Here(p) :: v
  }

  // ---------------------------------------------------------------- the elementary steps

  /** Take a free block off its list. */
  ghost function Hold(s: State, id: nat): State
    requires |s.free| == MAX_ORDER + 1 && id < |s.desc| && s.desc[id].order <= MAX_ORDER
  {
    var d := s.desc[id];
    s.(free := s.free[d.order := Remove(s.free[d.order], id)],
       owner := Paint(s.owner, d, Used(id)))
  }

  /** Put the held block at the back of its list. */
  ghost function Push(s: State, id: nat): State
    requires |s.free| == MAX_ORDER + 1 && id < |s.desc| && s.desc[id].order <= MAX_ORDER
  {
    var d := s.desc[id];
    s.(free := s.free[d.order := s.free[d.order] + [id]],
       owner := Paint(s.owner, d, Free(id)))
  }

  /** The upper half of a block. */
  function Upper(d: Desc): Desc
    requires d.order > 0
  {
    Desc(d.head + Pow2(d.order - 1), d.order - 1)
  }

  /** Cut the held block down to its lower half; the upper half is undescribed for now. */
  ghost function Shrink(s: State, id: nat): State
    requires id < |s.desc| && s.desc[id].order > 0
  {
    var d := s.desc[id];
    s.(desc := s.desc[id := Desc(d.head, d.order - 1)],
       owner := Paint(s.owner, Upper(d), Dropped))
  }

  /** Describe a block and put it at the back of its free list, if a descriptor is left. */
  ghost function AddBlock(s: State, head: nat, order: nat): State
    requires |s.free| == MAX_ORDER + 1 && order <= MAX_ORDER
  {
    var n := |s.desc|;
    if n >= MAX_BLOCK_DESC then
      s.(owner := Paint(s.owner, Desc(head, order), Dropped))
    else
      s.(desc := s.desc + [Desc(head, order)],
         free := s.free[order := s.free[order] + [n]],
         owner := Paint(s.owner, Desc(head, order), Free(n)))
  }

  /** Hand the held block out. */
  ghost function Take(s: State, id: nat): State
  {
    s.(used := s.used + [id])
  }

  /** Hold a block that was handed out. */
  ghost function Release(s: State, id: nat): State
  {
    s.(used := Remove(s.used, id))
  }

  /** Merge the free block b into the held block. */
  ghost function Absorb(s: State, id: nat, b: nat): State
    requires |s.free| == MAX_ORDER + 1 && id < |s.desc| && b < |s.desc|
    requires s.desc[id].order <= MAX_ORDER
  {
    var d := s.desc[id];
    var low := if s.desc[b].head < d.head then s.desc[b].head else d.head;
    s.(desc := s.desc[id := Desc(low, d.order + 1)],
       free := s.free[d.order := Remove(s.free[d.order], b)],
       owner := Paint(s.owner, s.desc[b], Used(id)))
  }

  /** Give up the held block: its pages in [lo, hi) are reserved, the others undescribed. */
  ghost function Discard(s: State, id: nat, lo: nat, hi: nat): State
    requires id < |s.desc|
  {
    var d := s.desc[id];
    s.(owner := map p | p in s.owner ::
                  if !Covers(d, p) then s.owner[p] else if lo <= p < hi then Reserved else Dropped)
  }

  // ---------------------------------------------------------------- each step keeps Inv

  /** No descriptor is both free and used. */
  lemma Apart(s: State, held: int, id: nat)
    requires Inv(s, held)
    ensures !(OnFree(s, id) && OnUsed(s, held, id))
  {
    if id < |s.desc| { assert Covers(s.desc[id], s.desc[id].head); }
  }

  lemma HoldInv(s: State, id: nat)
    requires Inv(s, NONE) && OnFree(s, id)
    ensures Inv(Hold(s, id), id)
  {
    var t := Hold(s, id);
    RemoveFacts(s.free[s.desc[id].order], id);
    Apart(s, NONE, id);
    assert Shape(t, id);
    assert forall x: nat :: OnFree(t, x) <==> OnFree(s, x) && x != id;
    assert forall x: nat :: OnUsed(t, id, x) <==> OnUsed(s, NONE, x) || x == id;
    assert FreeOwn(t) && UsedOwn(t, id);
    assert FreeOwners(t) && UsedOwners(t, id);
  }

  lemma PushInv(s: State, id: nat)
    requires Inv(s, id)
    ensures Inv(Push(s, id), NONE)
  {
    var t := Push(s, id);
    AppendFacts(s.free[s.desc[id].order], id);
    assert OnUsed(s, id, id);
    assert Shape(t, NONE);
    assert forall x: nat :: OnFree(t, x) <==> OnFree(s, x) || x == id;
    assert forall x: nat :: OnUsed(t, NONE, x) <==> OnUsed(s, id, x) && x != id;
    assert FreeOwn(t) && UsedOwn(t, NONE);
    assert FreeOwners(t) && UsedOwners(t, NONE);
  }

  lemma ShrinkInv(s: State, id: nat)
    requires Inv(s, id) && s.desc[id].order > 0
    ensures Inv(Shrink(s, id), id)
  {
    var d := s.desc[id];
    var t := Shrink(s, id);
    AlignedWeaken(d.head, d.order, d.order - 1);
    assert OnUsed(s, id, id);
    assert forall p: nat :: Covers(d, p) <==> Covers(t.desc[id], p) || Covers(Upper(d), p);
    assert Shape(t, id);
    assert forall x: nat :: OnFree(t, x) <==> OnFree(s, x);
    assert forall x: nat :: OnUsed(t, id, x) <==> OnUsed(s, id, x);
    assert FreeOwn(t) && UsedOwn(t, id);
    assert FreeOwners(t) && UsedOwners(t, id);
  }

  /** The pages of a block that nobody describes. */
  ghost predicate Unclaimed(s: State, head: nat, order: nat)
  {
    forall p: nat :: Covers(Desc(head, order), p) ==> p !in s.owner || s.owner[p] == Dropped
  }

  lemma AddBlockInv(s: State, held: int, head: nat, order: nat)
    requires Inv(s, held) && BlockOk(Desc(head, order)) && Unclaimed(s, head, order)
    ensures Inv(AddBlock(s, head, order), held)
  {
    var t := AddBlock(s, head, order);
    var n := |s.desc|;
    if n < MAX_BLOCK_DESC {
      AppendFacts(s.free[order], n);
      assert Shape(t, held);
      assert forall x: nat :: OnFree(t, x) <==> OnFree(s, x) || x == n;
    } else {
      assert Shape(t, held);
      assert forall x: nat :: OnFree(t, x) <==> OnFree(s, x);
    }
    assert forall x: nat :: OnUsed(t, held, x) <==> OnUsed(s, held, x);
    assert FreeOwn(t) && UsedOwn(t, held);
    assert FreeOwners(t) && UsedOwners(t, held);
  }

  lemma TakeInv(s: State, id: nat)
    requires Inv(s, id)
    ensures Inv(Take(s, id), NONE)
  {
    var t := Take(s, id);
    AppendFacts(s.used, id);
    assert Shape(t, NONE);
    assert forall x: nat :: OnFree(t, x) <==> OnFree(s, x);
    assert forall x: nat :: OnUsed(t, NONE, x) <==> OnUsed(s, id, x);
    assert FreeOwn(t) && UsedOwn(t, NONE);
    assert FreeOwners(t) && UsedOwners(t, NONE);
  }

  lemma ReleaseInv(s: State, id: nat)
    requires Inv(s, NONE) && id in s.used
    ensures Inv(Release(s, id), id)
  {
    var t := Release(s, id);
    RemoveFacts(s.used, id);
    assert OnUsed(s, NONE, id);
    Apart(s, NONE, id);
    assert forall x: nat :: OnFree(t, x) <==> OnFree(s, x);
    assert Shape(t, id);
    assert forall x: nat :: OnUsed(t, id, x) <==> OnUsed(s, NONE, x);
    assert FreeOwn(t) && UsedOwn(t, id);
    assert FreeOwners(t) && UsedOwners(t, id);
  }

  /** The page number that differs from head in bit `order` only. */
  function Buddy(d: Desc): nat
  {
    Xor(d.head, Pow2(d.order))
  }

  /** An aligned block and its buddy are the two halves of an aligned block. */
  lemma BuddyHalves(d: Desc)
    requires BlockOk(d)
    ensures if Buddy(d) > d.head then Buddy(d) == d.head + Pow2(d.order) && Aligned(d.head, d.order + 1)
            else Buddy(d) == d.head - Pow2(d.order) && Aligned(Buddy(d), d.order + 1)
    ensures Aligned(Buddy(d), d.order)
    ensures Buddy(Desc(Buddy(d), d.order)) == d.head
  {
    XorBit(d.head, d.order);
    AlignedStep(d.head, d.order);
    if Bit(d.head, d.order) == 0 {
      XorBit(d.head + Pow2(d.order), d.order);
    } else {
      var low: nat := d.head - Pow2(d.order);
      AlignedWeaken(low, d.order + 1, d.order);
      AlignedStep(low, d.order);
      XorBit(low, d.order);
    }
  }

  lemma AbsorbInv(s: State, id: nat, b: nat)
    requires Inv(s, id) && s.desc[id].order < MAX_ORDER
    requires b in s.free[s.desc[id].order]
    requires b < |s.desc| && s.desc[b].head == Buddy(s.desc[id])
    ensures Inv(Absorb(s, id, b), id)
  {
    var d := s.desc[id];
    var t := Absorb(s, id, b);
    RemoveFacts(s.free[d.order], b);
    BuddyHalves(d);
    assert BlockOk(t.desc[id]);
    assert Shape(t, id);
    assert forall x: nat :: OnFree(t, x) <==> OnFree(s, x) && x != b;
    assert forall x: nat :: OnUsed(t, id, x) <==> OnUsed(s, id, x);
    assert OnUsed(s, id, id) && OnFree(s, b);
    assert forall p: nat :: Covers(t.desc[id], p) <==> Covers(d, p) || Covers(s.desc[b], p);
    assert FreeOwn(t) && UsedOwn(t, id);
    assert FreeOwners(t) && UsedOwners(t, id);
  }

  lemma DiscardInv(s: State, id: nat, lo: nat, hi: nat)
    requires Inv(s, id)
    ensures Inv(Discard(s, id, lo, hi), NONE)
  {
    var t := Discard(s, id, lo, hi);
    assert Shape(t, NONE);
    assert forall x: nat :: OnFree(t, x) <==> OnFree(s, x);
    assert forall x: nat :: OnUsed(t, NONE, x) <==> OnUsed(s, id, x) && x != id;
    assert OnUsed(s, id, id);
    assert FreeOwn(t) && UsedOwn(t, NONE);
    assert FreeOwners(t) && UsedOwners(t, NONE);
  }
}
