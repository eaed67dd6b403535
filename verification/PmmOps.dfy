/** Allocation and freeing of the buddy allocator as functions of its state. */
module PmmOps {
  import opened Bits
  import opened PmmModel
  import opened Seqs

  // ---------------------------------------------------------------- splitting

  /** Halve the held block; the upper half goes on its free list. */
  ghost function SplitOnce(s: State, id: nat): State
    requires |s.free| == MAX_ORDER + 1 && id < |s.desc| && 0 < s.desc[id].order <= MAX_ORDER
  {
    var u := Upper(s.desc[id]);
    AddBlock(Shrink(s, id), u.head, u.order)
  }

  lemma SplitOnceInv(s: State, id: nat)
    requires Inv(s, id) && s.desc[id].order > 0
    ensures Inv(SplitOnce(s, id), id)
    ensures DropsOnlyWhenFull(s) ==> DropsOnlyWhenFull(SplitOnce(s, id))
  {
    var d := s.desc[id];
    AlignedWeaken(d.head, d.order, d.order - 1);
    AlignedStep(d.head, d.order - 1);
    ShrinkInv(s, id);
    AddBlockInv(Shrink(s, id), id, Upper(d).head, Upper(d).order);
  }

  /** Halve the held block until it has the wanted order. */
  ghost function SplitTo(s: State, id: nat, order: nat): (r: State)
    requires |s.free| == MAX_ORDER + 1 && id < |s.desc| && s.desc[id].order <= MAX_ORDER
    ensures |r.free| == MAX_ORDER + 1 && id < |r.desc| && r.desc[id].order <= MAX_ORDER
    decreases s.desc[id].order
  {
    if s.desc[id].order <= order then s else SplitTo(SplitOnce(s, id), id, order)
  }

  lemma {:induction false} SplitToInv(s: State, id: nat, order: nat, r: State)
    requires Inv(s, id) && order <= s.desc[id].order && r == SplitTo(s, id, order)
    ensures Inv(r, id)
    ensures DropsOnlyWhenFull(s) ==> DropsOnlyWhenFull(r)
    decreases s.desc[id].order
  {
    if s.desc[id].order > order {
      SplitOnceInv(s, id);
      SplitToInv(SplitOnce(s, id), id, order, r);
    }
  }

  /** How many of k new blocks still find a descriptor when n are taken. */
  function Granted(n: nat, k: nat): nat
  {
    if n + k <= MAX_BLOCK_DESC then k else if n <= MAX_BLOCK_DESC then MAX_BLOCK_DESC - n else 0
  }

  /** What splitting does to the descriptors and the lists. */
  lemma {:induction false} SplitToLists(s: State, id: nat, order: nat)
    requires Inv(s, id) && order <= s.desc[id].order
    ensures var r := SplitTo(s, id, order);
      && |r.desc| == |s.desc| + Granted(|s.desc|, s.desc[id].order - order)
      && r.desc[id] == Desc(s.desc[id].head, order)
      && (forall x: nat :: x < |s.desc| && x != id ==> r.desc[x] == s.desc[x])
      && r.used == s.used
      && (forall k: nat :: k <= MAX_ORDER && (k < order || s.desc[id].order <= k) ==> r.free[k] == s.free[k])
    decreases s.desc[id].order
  {
    if s.desc[id].order > order {
      SplitOnceInv(s, id);
      SplitToLists(SplitOnce(s, id), id, order);
    }
  }

  /** Where the pages that stay described begin when block d is cut down to an order with n
      descriptors taken: the halves cut off first still find descriptors, the later ones, further
      to the front, do not. */
  function KeptFrom(n: nat, d: Desc, order: nat): nat
    requires order <= d.order
  {
    d.head + Pow2(d.order - Granted(n, d.order - order))
  }

  /** From s to r, the block d was cut down to its first pages e: those stay with id, and of the
      others exactly those before KeptFrom are lost for want of descriptors; the rest is free. */
  ghost predicate CutDown(s: State, r: State, id: nat, d: Desc, e: Desc)
  {
    && e.order <= d.order
    && r.owner.Keys == s.owner.Keys
    && (forall p: nat :: Covers(d, p) ==> p in s.owner)
    && (forall p: nat :: Covers(e, p) ==> Covers(d, p))
    && (forall p: nat :: p in s.owner && !Covers(d, p) ==> r.owner[p] == s.owner[p])
    && (forall p: nat :: p in s.owner && Covers(e, p) ==> r.owner[p] == Used(id))
    && (forall p: nat :: p in s.owner && Covers(d, p) && !Covers(e, p) ==>
          if p < KeptFrom(|s.desc|, d, e.order) then r.owner[p] == Dropped else r.owner[p].Free?)
  }

  lemma CutOnce(s: State, id: nat)
    requires Inv(s, id) && s.desc[id].order > 0
    ensures var r := SplitOnce(s, id); CutDown(s, r, id, s.desc[id], r.desc[id])
  {
    var d := s.desc[id];
    var r := SplitOnce(s, id);
    assert OnUsed(s, id, id);
    assert forall p: nat :: Covers(d, p) <==> Covers(r.desc[id], p) || Covers(Upper(d), p);
    assert r.owner.Keys == s.owner.Keys;
  }

  lemma CutTwice(s: State, t: State, r: State, id: nat, d: Desc, e: Desc, f: Desc)
    requires CutDown(s, t, id, d, e) && CutDown(t, r, id, e, f) && d.order > 0 && e == Desc(d.head, d.order - 1)
    requires |t.desc| == if |s.desc| < MAX_BLOCK_DESC then |s.desc| + 1 else |s.desc|
    ensures CutDown(s, r, id, d, f)
  {
    var k := d.order - Granted(|s.desc|, d.order - f.order);
    Pow2Monotone(k, d.order);
    if |s.desc| < MAX_BLOCK_DESC {
      assert k == e.order - Granted(|t.desc|, e.order - f.order);
      Pow2Monotone(k, e.order);
    }
  }

  lemma {:induction false} SplitToPages(s: State, id: nat, order: nat)
    requires Inv(s, id) && order <= s.desc[id].order
    ensures var r := SplitTo(s, id, order); CutDown(s, r, id, s.desc[id], r.desc[id])
    decreases s.desc[id].order
  {
    assert OnUsed(s, id, id);
    if s.desc[id].order > order {
      var t := SplitOnce(s, id);
      SplitOnceInv(s, id);
      SplitToPages(t, id, order);
      SplitToLists(t, id, order);
      CutOnce(s, id);
      CutTwice(s, t, SplitTo(t, id, order), id, s.desc[id], t.desc[id], SplitTo(t, id, order).desc[id]);
    }
  }

  // ---------------------------------------------------------------- allocating

  /** The least order from `order` up whose list is not empty; MAX_ORDER + 1 if there is none. */
  ghost function FirstOrder(s: State, order: nat): (o: nat)
    requires |s.free| == MAX_ORDER + 1 && order <= MAX_ORDER + 1
    ensures order <= o <= MAX_ORDER + 1
    ensures forall k: nat :: order <= k < o ==> s.free[k] == []
    ensures o <= MAX_ORDER ==> s.free[o] != []
    decreases MAX_ORDER + 1 - order
  {
    if order == MAX_ORDER + 1 || s.free[order] != [] then order else FirstOrder(s, order + 1)
  }

  ghost predicate CanServe(s: State, order: nat)
    requires |s.free| == MAX_ORDER + 1
  {
    order <= MAX_ORDER && FirstOrder(s, order) <= MAX_ORDER
  }

  /** The descriptor an allocation is served from: the front of that list. */
  ghost function Served(s: State, order: nat): nat
    requires |s.free| == MAX_ORDER + 1 && CanServe(s, order)
  {
    s.free[FirstOrder(s, order)][0]
  }

  lemma ServedIsFree(s: State, order: nat)
    requires Inv(s, NONE) && CanServe(s, order)
    ensures OnFree(s, Served(s, order))
    ensures s.desc[Served(s, order)].order == FirstOrder(s, order)
  {
    assert Served(s, order) in s.free[FirstOrder(s, order)];
  }

  /** That descriptor taken off its list. */
  ghost function Picked(s: State, order: nat): (h: State)
    requires Inv(s, NONE) && CanServe(s, order)
    ensures Inv(h, Served(s, order)) && h.desc == s.desc
    ensures h.desc[Served(s, order)].order == FirstOrder(s, order)
  {
    ServedIsFree(s, order);
    HoldInv(s, Served(s, order));
    Hold(s, Served(s, order))
  }

  ghost function Alloc(s: State, order: nat): State
    requires Inv(s, NONE)
  {
    if !CanServe(s, order) then s
    else Take(SplitTo(Picked(s, order), Served(s, order), order), Served(s, order))
  }

  /** An allocation is served exactly when some free block is large enough, and then from a
      smallest such block: its first pages are handed out, the rest of it stays free. No page
      outside that block changes hands. */
  lemma AllocTheorem(s: State, order: nat)
    requires Good(s)
    ensures Good(Alloc(s, order))
    ensures CanServe(s, order) <==> exists id: nat :: OnFree(s, id) && order <= s.desc[id].order
    ensures !CanServe(s, order) ==> Alloc(s, order) == s
    ensures CanServe(s, order) ==>
      var id, r := Served(s, order), Alloc(s, order);
      && OnFree(s, id) && order <= s.desc[id].order
      && (forall x: nat :: OnFree(s, x) && order <= s.desc[x].order ==> s.desc[id].order <= s.desc[x].order)
      && r.used == s.used + [id]
      && r.desc[id] == Desc(s.desc[id].head, order)
      && CutDown(s, r, id, s.desc[id], r.desc[id])
  {
    AllocServes(s, order);
    if CanServe(s, order) {
      var id := Served(s, order);
      ServedIsFree(s, order);
      var h := Picked(s, order);
      assert DropsOnlyWhenFull(h);
      SplitToInv(h, id, order, SplitTo(h, id, order));
      SplitToLists(h, id, order);
      SplitToPages(h, id, order);
      TakeInv(SplitTo(h, id, order), id);
      assert h.owner.Keys == s.owner.Keys;
    }
  }

  lemma AllocServes(s: State, order: nat)
    requires Inv(s, NONE)
    ensures CanServe(s, order) <==> exists id: nat :: OnFree(s, id) && order <= s.desc[id].order
    ensures CanServe(s, order) ==> forall x: nat :: OnFree(s, x) && order <= s.desc[x].order ==>
              s.desc[x].order >= FirstOrder(s, order)
  {
    if CanServe(s, order) { ServedIsFree(s, order); }
    forall x: nat | OnFree(s, x) && order <= s.desc[x].order
      ensures CanServe(s, order) && s.desc[x].order >= FirstOrder(s, order)
    {
      assert s.free[s.desc[x].order] != [];
    }
  }

  // ---------------------------------------------------------------- merging

  ghost predicate StartsAt(s: State, x: nat, head: nat)
  {
    x < |s.desc| && s.desc[x].head == head
  }

  /** The position of the first of the list's entries, from k up and below the search limit,
      that starts at page head; the length of the list if there is none. */
  ghost function Search(s: State, list: seq<nat>, head: nat, k: nat): (i: nat)
    requires k <= |list|
    ensures k <= i <= |list|
    ensures i < |list| ==> i < SEARCH_LIMIT && StartsAt(s, list[i], head)
    ensures forall j: nat :: k <= j < |list| && j < SEARCH_LIMIT && j < i ==> !StartsAt(s, list[j], head)
    decreases |list| - k
  {
    if k >= SEARCH_LIMIT || k == |list| then |list|
    else if StartsAt(s, list[k], head) then k
    else Search(s, list, head, k + 1)
  }

  /** The list the held block's buddy would be on. */
  ghost function Peers(s: State, id: nat): seq<nat>
    requires id < |s.desc| && s.desc[id].order < |s.free|
  {
    s.free[s.desc[id].order]
  }

  /** The position of the held block's buddy there, if the search finds it. */
  ghost function BuddyAt(s: State, id: nat): (i: nat)
    requires id < |s.desc| && s.desc[id].order < |s.free|
    ensures i <= |Peers(s, id)|
  {
    Search(s, Peers(s, id), Buddy(s.desc[id]), 0)
  }

  /** The held block has a larger block to grow into and its buddy is found. */
  ghost predicate Mergeable(s: State, id: nat)
  {
    && id < |s.desc| && s.desc[id].order < |s.free| && s.desc[id].order < MAX_ORDER
    && BuddyAt(s, id) < |Peers(s, id)|
  }

  ghost function FoundBuddy(s: State, id: nat): (b: nat)
    requires Mergeable(s, id)
    ensures b in s.free[s.desc[id].order] && b < |s.desc| && s.desc[b].head == Buddy(s.desc[id])
  {
    Peers(s, id)[BuddyAt(s, id)]
  }

  /** Merge the held block with its buddy for as long as that is found. */
  ghost function Coalesce(s: State, id: nat): (r: State)
    requires |s.free| == MAX_ORDER + 1 && id < |s.desc| && s.desc[id].order <= MAX_ORDER
    ensures |r.free| == MAX_ORDER + 1 && id < |r.desc| && r.desc[id].order <= MAX_ORDER
    decreases MAX_ORDER - s.desc[id].order
  {
    if !Mergeable(s, id) then s else Coalesce(Absorb(s, id, FoundBuddy(s, id)), id)
  }

  lemma {:induction false} CoalesceInv(s: State, id: nat, r: State)
    requires Inv(s, id) && r == Coalesce(s, id)
    ensures Inv(r, id)
    decreases MAX_ORDER - s.desc[id].order
  {
    if Mergeable(s, id) {
      AbsorbInv(s, id, FoundBuddy(s, id));
      CoalesceInv(Absorb(s, id, FoundBuddy(s, id)), id, r);
    }
  }

  lemma {:induction false} CoalesceLists(s: State, id: nat)
    requires Inv(s, id)
    ensures var r := Coalesce(s, id);
      && !Mergeable(r, id)
      && |r.desc| == |s.desc|
      && (forall x: nat :: x < |s.desc| && x != id ==> r.desc[x] == s.desc[x])
      && r.used == s.used
      && s.desc[id].order <= r.desc[id].order
      && (forall k: nat :: k <= MAX_ORDER && (k < s.desc[id].order || r.desc[id].order <= k) ==> r.free[k] == s.free[k])
      && (forall x: nat :: OnFree(r, x) ==> OnFree(s, x))
    decreases MAX_ORDER - s.desc[id].order
  {
    if Mergeable(s, id) {
      var b := FoundBuddy(s, id);
      AbsorbInv(s, id, b);
      RemoveFacts(s.free[s.desc[id].order], b);
      CoalesceLists(Absorb(s, id, b), id);
    }
  }

  /** From s to r, the block of id grew over free pages only. */
  ghost predicate Grown(s: State, r: State, id: nat, d: Desc, e: Desc)
  {
    && r.owner.Keys == s.owner.Keys
    && (forall p: nat :: Covers(d, p) ==> Covers(e, p))
    && (forall p: nat :: Covers(e, p) ==> p in s.owner && r.owner[p] == Used(id))
    && (forall p: nat :: p in s.owner && Covers(e, p) && !Covers(d, p) ==> s.owner[p].Free?)
    && (forall p: nat :: p in s.owner && !Covers(e, p) ==> r.owner[p] == s.owner[p])
  }

  lemma GrowOnce(s: State, id: nat, b: nat)
    requires Inv(s, id) && s.desc[id].order < MAX_ORDER
    requires b in s.free[s.desc[id].order]
    requires b < |s.desc| && s.desc[b].head == Buddy(s.desc[id])
    ensures var r := Absorb(s, id, b); Grown(s, r, id, s.desc[id], r.desc[id])
  {
    var d, r := s.desc[id], Absorb(s, id, b);
    BuddyHalves(d);
    assert OnUsed(s, id, id) && OnFree(s, b);
    assert forall p: nat :: Covers(r.desc[id], p) <==> Covers(d, p) || Covers(s.desc[b], p);
    assert r.owner.Keys == s.owner.Keys;
  }

  lemma GrowTwice(s: State, t: State, r: State, id: nat, d: Desc, e: Desc, f: Desc)
    requires Grown(s, t, id, d, e) && Grown(t, r, id, e, f)
    ensures Grown(s, r, id, d, f)
  {
  }

  lemma {:induction false} CoalescePages(s: State, id: nat)
    requires Inv(s, id)
    ensures var r := Coalesce(s, id); Grown(s, r, id, s.desc[id], r.desc[id])
    decreases MAX_ORDER - s.desc[id].order
  {
    assert OnUsed(s, id, id);
    if Mergeable(s, id) {
      var b := FoundBuddy(s, id);
      var t := Absorb(s, id, b);
      AbsorbInv(s, id, b);
      GrowOnce(s, id, b);
      CoalescePages(t, id);
      var r := Coalesce(t, id);
      GrowTwice(s, t, r, id, s.desc[id], t.desc[id], r.desc[id]);
    }
  }

  // ---------------------------------------------------------------- freeing

  /** A handed out block off its list and merged. */
  ghost function MergedUp(s: State, id: nat): (c: State)
    requires Inv(s, NONE) && id in s.used
    ensures Inv(c, id)
  {
    ReleaseInv(s, id);
    CoalesceInv(Release(s, id), id, Coalesce(Release(s, id), id));
    Coalesce(Release(s, id), id)
  }

  ghost function FreeId(s: State, id: nat): State
    requires Inv(s, NONE) && id in s.used
  {
    Push(MergedUp(s, id), id)
  }

  /** The first allocated descriptor from position k up that starts at page head, if any. */
  ghost function FindUsed(s: State, head: nat, k: nat): (i: nat)
    requires Inv(s, NONE) && k <= |s.used|
    ensures k <= i <= |s.used|
    ensures i < |s.used| ==> s.used[i] < |s.desc| && s.desc[s.used[i]].head == head
    ensures forall j: nat :: k <= j < i ==> s.used[j] < |s.desc| && s.desc[s.used[j]].head != head
    decreases |s.used| - k
  {
    if k == |s.used| then k
    else
      assert s.used[k] in s.used;
      if s.desc[s.used[k]].head == head then k else FindUsed(s, head, k + 1)
  }

  /** Freeing the block that starts at page head; nothing happens if none is handed out there. */
  ghost function FreeAt(s: State, head: nat): State
    requires Inv(s, NONE)
  {
    var i := FindUsed(s, head, 0);
    if i == |s.used| then s else FreeId(s, s.used[i])
  }

  /** Freeing a block makes its pages free and leaves every other page as it was: free pages
      stay free, though perhaps in a larger block, and the others keep their owner. */
  lemma FreeTheorem(s: State, id: nat)
    requires Good(s) && id in s.used
    ensures var r := FreeId(s, id);
      && Good(r)
      && |r.desc| == |s.desc|
      && r.used == Remove(s.used, id)
      && r.owner.Keys == s.owner.Keys
      && (forall p: nat :: Covers(s.desc[id], p) ==> p in s.owner && s.owner[p] == Used(id) && r.owner[p].Free?)
      && (forall p: nat :: p in s.owner && !Covers(s.desc[id], p) ==>
            if s.owner[p].Free? then r.owner[p].Free? else r.owner[p] == s.owner[p])
  {
    ReleaseInv(s, id);
    var h := Release(s, id);
    var c := MergedUp(s, id);
    CoalesceLists(h, id);
    CoalescePages(h, id);
    PushInv(c, id);
    assert OnUsed(s, NONE, id);
    assert Push(c, id).owner.Keys == c.owner.Keys;
  }

  /** A freed block, merged, goes to the back of the list of its order; longer blocks are not touched. */
  lemma FreeAppends(s: State, id: nat)
    requires Inv(s, NONE) && id in s.used
    ensures var r := FreeId(s, id);
      && id < |r.desc| && s.desc[id].order <= r.desc[id].order <= 9
      && r.free[r.desc[id].order] == s.free[r.desc[id].order] + [id]
      && forall k: nat :: r.desc[id].order < k <= 9 ==> r.free[k] == s.free[k]
  {
    ReleaseInv(s, id);
    CoalesceLists(Release(s, id), id);
  }

  /** An allocation takes the front of the first list that is not empty, from its order on. */
  lemma AllocTakesFront(s: State, order: nat, o: nat)
    requires Inv(s, NONE) && order <= o <= 9 && s.free[o] != [] && forall k: nat :: order <= k < o ==> s.free[k] == []
    ensures var r, id := Alloc(s, order), s.free[o][0];
      && id < |s.desc| && |r.free| == 10 && |r.desc| > id
      && r.used == s.used + [id] && r.desc[id] == Desc(s.desc[id].head, order) && r.free[o] == s.free[o][1..]
      && forall k: nat :: k <= 9 && (k < order || o < k) ==> r.free[k] == s.free[k]
  {
    assert FirstOrder(s, order) == o;
    var id := Served(s, order);
    ServedIsFree(s, order);
    var h := Picked(s, order);
    SplitToLists(h, id, order);
    assert h.free[o] == s.free[o][1..];
  }
}
