/** What holds over every run of the allocator. */
module PmmRuns {
  import opened Bits
  import opened PmmModel
  import opened Seqs
  import opened PmmOps
  import opened PmmRegions
  import opened PmmReserve
  import opened PmmCount
  import opened PmmLost
  import P = Pmm

  datatype Op =
    | AddRegion(base: nat, size: nat)
    | ReserveRegion(base: nat, size: nat)
    | Allocate(order: nat)
    | Deallocate(addr: nat, order: nat)

  /** The pages an operation puts under management. */
  ghost function AddedBy(op: Op): set<nat>
  {
    if op.AddRegion? then Range(RoundUp(op.base), op.size / PAGE) else {}
  }

  /** The operation may be called: regions are added once. */
  ghost predicate Allowed(s: State, op: Op)
  {
    AddedBy(op) !! s.owner.Keys
  }

  /** From s, the operation leads to r. What it would do to a state that is not consistent is left
      open: that no run meets one has to be shown. */
  ghost predicate Step(s: State, op: Op, r: State)
  {
    && Allowed(s, op)
    && (Inv(s, NONE) ==>
          match op
          case AddRegion(base, size) => TilesTo(s, RoundUp(base), RoundUp(base) + size / PAGE, MAX_ORDER, r)
          case ReserveRegion(base, size) => RangeReserved(s, RoundUp(base), (base + size) / PAGE, r)
          case Allocate(order) => r == Alloc(s, order)
          case Deallocate(addr, order) =>
            r == if order <= MAX_ORDER && addr % PAGE == 0 then FreeAt(s, addr / PAGE) else s)
  }

  /** From s to r, exactly the given pages came under management, and pages that were reserved
      or lost stay so. */
  ghost predicate Keeps(s: State, r: State, added: set<nat>)
  {
    && r.owner.Keys == s.owner.Keys + added
    && forall p :: p in s.owner && (s.owner[p] == Reserved || s.owner[p] == Dropped) ==> r.owner[p] == s.owner[p]
  }

  ghost predicate Fresh(s: State, lo: nat, hi: nat)
  {
    forall q: nat :: lo <= q < hi ==> q !in s.owner
  }

  lemma AllowedRange(s: State, base: nat, size: nat)
    requires Allowed(s, AddRegion(base, size))
    ensures Fresh(s, RoundUp(base), RoundUp(base) + size / PAGE)
  {
    assert forall q: nat :: RoundUp(base) <= q < RoundUp(base) + size / PAGE ==>
             Here(q) && q in AddedBy(AddRegion(base, size));
  }

  lemma AddTiles(s: State, base: nat, size: nat, r: State)
    requires Inv(s, NONE) && Step(s, AddRegion(base, size), r)
    ensures var lo, hi := RoundUp(base), RoundUp(base) + size / PAGE;
      Fresh(s, lo, hi) && TilesTo(s, lo, hi, MAX_ORDER, r)
  {
    AllowedRange(s, base, size);
  }

  lemma AddKeeps(s: State, base: nat, size: nat, r: State)
    requires Good(s) && Step(s, AddRegion(base, size), r)
    ensures Good(r) && Keeps(s, r, AddedBy(AddRegion(base, size)))
  {
    var added := AddedBy(AddRegion(base, size));
    var lo, hi := RoundUp(base), RoundUp(base) + size / PAGE;
    assert forall q: nat :: lo <= q < hi ==> Here(q) && q in added;
    TileTheorem(s, lo, hi, MAX_ORDER, r);
    assert r.owner.Keys == s.owner.Keys + added;
  }

  lemma AllocKeeps(s: State, order: nat)
    requires Good(s)
    ensures Good(Alloc(s, order)) && Keeps(s, Alloc(s, order), {})
  {
    AllocTheorem(s, order);
    if CanServe(s, order) {
      var id := Served(s, order);
      assert forall p: nat :: Covers(s.desc[id], p) ==> s.owner[p] == Free(id);
    }
  }

  lemma FreeKeeps(s: State, head: nat)
    requires Good(s)
    ensures Good(FreeAt(s, head)) && Keeps(s, FreeAt(s, head), {})
  {
    var i := FindUsed(s, head, 0);
    if i < |s.used| { FreeTheorem(s, s.used[i]); }
  }

  /** Every operation keeps the invariants. */
  lemma StepTheorem(s: State, op: Op, r: State)
    requires Good(s) && Step(s, op, r)
    ensures Good(r) && Keeps(s, r, AddedBy(op))
  {
    match op
    case AddRegion(base, size) => AddKeeps(s, base, size, r);
    case ReserveRegion(base, size) =>
      ReserveTheorem(s, RoundUp(base), (base + size) / PAGE, r);
      assert r.owner.Keys == s.owner.Keys;
    case Allocate(order) => AllocKeeps(s, order);
    case Deallocate(addr, order) =>
      if order <= MAX_ORDER && addr % PAGE == 0 { FreeKeeps(s, addr / PAGE); }
  }

  /** The states run through from initialization on. */
  ghost predicate Run(run: seq<State>, ops: seq<Op>)
  {
    && |run| == |ops| + 1 && run[0] == EMPTY
    && forall i: nat :: i < |ops| ==> Step(run[i], ops[i], run[i + 1])
  }

  /** All the pages added by the first n operations. */
  ghost function Added(ops: seq<Op>, n: nat): set<nat>
    requires n <= |ops|
  {
    if n == 0 then {} else Added(ops, n - 1) + AddedBy(ops[n - 1])
  }

  lemma EmptyGood()
    ensures Good(EMPTY)
  {
  }

  lemma {:induction false} RunGood(run: seq<State>, ops: seq<Op>, n: nat)
    requires Run(run, ops) && n <= |ops|
    ensures Good(run[n]) && run[n].owner.Keys == Added(ops, n)
  {
    if n == 0 {
      EmptyGood();
    } else {
      var i: nat := n - 1;
      RunGood(run, ops, i);
      RunGoodStep(run, ops, i);
      assert n == i + 1;
    }
  }

  lemma RunGoodStep(run: seq<State>, ops: seq<Op>, i: nat)
    requires Run(run, ops) && i < |ops| && Good(run[i]) && run[i].owner.Keys == Added(ops, i)
    ensures Good(run[i + 1]) && run[i + 1].owner.Keys == Added(ops, i + 1)
  {
    StepTheorem(run[i], ops[i], run[i + 1]);
  }

  ghost predicate Listed(s: State, id: nat)
  {
    OnFree(s, id) || OnUsed(s, NONE, id)
  }

  // ---------------------------------------------------------------- conservation

  /** Page p is in a block on a free list. */
  ghost predicate InFree(s: State, p: nat)
  {
    exists id: nat :: OnFree(s, id) && Covers(s.desc[id], p)
  }

  /** Page p is in a block on the allocated list. */
  ghost predicate InUsed(s: State, p: nat)
  {
    exists id: nat :: OnUsed(s, NONE, id) && Covers(s.desc[id], p)
  }

  /** Page p is taken away by a reservation: it is in its range and in a free block. */
  ghost predicate Reserves(s: State, op: Op, p: nat)
  {
    op.ReserveRegion? && RoundUp(op.base) <= p < (op.base + op.size) / PAGE && InFree(s, p)
  }

  /** Page p is in a block that add_free_block refuses for want of a descriptor: a tile of a region
      that is added, a half that a split cuts off, or a page that a reservation puts back. */
  ghost predicate Loses(s: State, op: Op, p: nat)
  {
    && |s.free| == MAX_ORDER + 1
    && match op
       case AddRegion(base, size) =>
         var lo, hi := RoundUp(base), RoundUp(base) + size / PAGE; DescribedTo(|s.desc|, lo, hi, MAX_ORDER) <= p < hi
       case ReserveRegion(base, size) => ReserveLoses(s, RoundUp(base), (base + size) / PAGE, p)
       case Allocate(order) => CanServe(s, order) && SplitLoses(s, Served(s, order), order, p)
       case Deallocate(_, _) => false
  }

  ghost predicate SplitLoses(s: State, id: nat, order: nat, p: nat)
  {
    && id < |s.desc| && order <= s.desc[id].order
    && s.desc[id].head + Pow2(order) <= p < KeptFrom(|s.desc|, s.desc[id], order)
  }

  lemma Roles(s: State, p: nat)
    requires Inv(s, NONE)
    ensures InFree(s, p) <==> FreeIn(s, p)
    ensures InUsed(s, p) <==> p in s.owner && s.owner[p].Used?
  {
    if FreeIn(s, p) { assert OnFree(s, s.owner[p].id) && Covers(s.desc[s.owner[p].id], p); }
    if p in s.owner && s.owner[p].Used? { assert OnUsed(s, NONE, s.owner[p].id) && Covers(s.desc[s.owner[p].id], p); }
  }

  /** From s to r, page p is lost or reserved exactly as Loses and Reserves say. */
  ghost predicate Fates(s: State, op: Op, r: State, p: nat)
  {
    && (LostIn(r, p) <==> LostIn(s, p) || Loses(s, op, p))
    && (ReservedIn(r, p) <==> ReservedIn(s, p) || Reserves(s, op, p))
  }

  lemma AddFates(s: State, base: nat, size: nat, lo: nat, hi: nat, r: State, p: nat)
    requires Inv(s, NONE) && lo == RoundUp(base) && hi == lo + size / PAGE
    requires Fresh(s, lo, hi) && TilesTo(s, lo, hi, MAX_ORDER, r)
    ensures Fates(s, AddRegion(base, size), r, p)
  {
    TilesFates(s, r, lo, hi, p);
    AddLoses(s, base, size, p);
  }

  lemma AddLoses(s: State, base: nat, size: nat, p: nat)
    requires |s.free| == MAX_ORDER + 1
    ensures var lo, hi := RoundUp(base), RoundUp(base) + size / PAGE;
      Loses(s, AddRegion(base, size), p) <==> DescribedTo(|s.desc|, lo, hi, MAX_ORDER) <= p < hi
    ensures !Reserves(s, AddRegion(base, size), p)
  {
  }

  lemma TilesFates(s: State, r: State, lo: nat, hi: nat, p: nat)
    requires Inv(s, NONE) && lo <= hi && Fresh(s, lo, hi) && TilesTo(s, lo, hi, MAX_ORDER, r)
    ensures LostIn(r, p) <==> LostIn(s, p) || DescribedTo(|s.desc|, lo, hi, MAX_ORDER) <= p < hi
    ensures ReservedIn(r, p) <==> ReservedIn(s, p)
  {
    TileTheorem(s, lo, hi, MAX_ORDER, r);
    TileLoses(s, lo, hi, MAX_ORDER, r);
    TiledFates(s, r, lo, DescribedTo(|s.desc|, lo, hi, MAX_ORDER), hi, p);
  }

  lemma TiledFates(s: State, r: State, lo: nat, m: nat, hi: nat, p: nat)
    requires Tiled(s, r, lo, hi) && Parted(r, lo, m, hi) && lo <= m && Fresh(s, lo, hi)
    ensures LostIn(r, p) <==> LostIn(s, p) || m <= p < hi
    ensures ReservedIn(r, p) <==> ReservedIn(s, p)
  {
  }

  lemma RangeFates(s: State, lo: nat, hi: nat, r: State, p: nat)
    requires Good(s) && RangeReserved(s, lo, hi, r)
    ensures LostIn(r, p) <==> LostIn(s, p) || ReserveLoses(s, lo, hi, p)
    ensures ReservedIn(r, p) <==> ReservedIn(s, p) || (lo <= p < hi && InFree(s, p))
  {
    ReserveTheorem(s, lo, hi, r);
    ReserveLosesTheorem(s, lo, hi, r, p);
    Roles(s, p);
  }

  lemma ReserveFates(s: State, base: nat, size: nat, lo: nat, hi: nat, r: State, p: nat)
    requires Good(s) && lo == RoundUp(base) && hi == (base + size) / PAGE && RangeReserved(s, lo, hi, r)
    ensures Fates(s, ReserveRegion(base, size), r, p)
  {
    RangeFates(s, lo, hi, r, p);
  }

  lemma AllocFates(s: State, order: nat, p: nat)
    requires Good(s)
    ensures Fates(s, Allocate(order), Alloc(s, order), p)
  {
    AllocTheorem(s, order);
    if CanServe(s, order) {
      var id := Served(s, order);
      CutFates(s, Alloc(s, order), id, order, p);
    }
  }

  lemma CutFates(s: State, r: State, id: nat, order: nat, p: nat)
    requires Inv(s, NONE) && OnFree(s, id) && order <= s.desc[id].order
    requires CutDown(s, r, id, s.desc[id], Desc(s.desc[id].head, order))
    ensures LostIn(r, p) <==> LostIn(s, p) || SplitLoses(s, id, order, p)
    ensures ReservedIn(r, p) <==> ReservedIn(s, p)
  {
    var d, e := s.desc[id], Desc(s.desc[id].head, order);
    Pow2Monotone(order, d.order);
    Pow2Monotone(d.order - Granted(|s.desc|, d.order - order), d.order);
    assert SplitLoses(s, id, order, p) ==> Covers(d, p) && !Covers(e, p);
    assert Covers(d, p) ==> FreeIn(s, p);
  }

  lemma FreeFates(s: State, addr: nat, order: nat, r: State, p: nat)
    requires Good(s) && Step(s, Deallocate(addr, order), r)
    ensures Fates(s, Deallocate(addr, order), r, p)
  {
    var i := FindUsed(s, addr / PAGE, 0);
    if order <= MAX_ORDER && addr % PAGE == 0 && i < |s.used| { FreeTheorem(s, s.used[i]); }
  }

  lemma StepFates(s: State, op: Op, r: State, p: nat)
    requires Good(s) && Step(s, op, r)
    ensures Fates(s, op, r, p)
  {
    match op
    case AddRegion(base, size) =>
      AddTiles(s, base, size, r);
      AddFates(s, base, size, RoundUp(base), RoundUp(base) + size / PAGE, r, p);
    case ReserveRegion(base, size) => ReserveFates(s, base, size, RoundUp(base), (base + size) / PAGE, r, p);
    case Allocate(order) => AllocFates(s, order, p);
    case Deallocate(addr, order) => FreeFates(s, addr, order, r, p);
  }

  /** One of the first n operations lost page p. */
  ghost predicate LostBy(run: seq<State>, ops: seq<Op>, n: nat, p: nat)
    requires n <= |ops| < |run|
  {
    exists i: nat :: i < n && Loses(run[i], ops[i], p)
  }

  /** One of the first n operations reserved page p. */
  ghost predicate ReservedBy(run: seq<State>, ops: seq<Op>, n: nat, p: nat)
    requires n <= |ops| < |run|
  {
    exists i: nat :: i < n && Reserves(run[i], ops[i], p)
  }

  lemma {:induction false} RunFates(run: seq<State>, ops: seq<Op>, n: nat, p: nat)
    requires Run(run, ops) && n <= |ops|
    ensures LostIn(run[n], p) <==> LostBy(run, ops, n, p)
    ensures ReservedIn(run[n], p) <==> ReservedBy(run, ops, n, p)
  {
    if n > 0 {
      var i: nat := n - 1;
      RunFates(run, ops, i, p);
      RunGood(run, ops, i);
      StepFates(run[i], ops[i], run[i + 1], p);
      RunFatesStep(run, ops, i, p);
    }
  }

  lemma RunFatesStep(run: seq<State>, ops: seq<Op>, i: nat, p: nat)
    requires i < |ops| < |run|
    ensures LostBy(run, ops, i + 1, p) <==> LostBy(run, ops, i, p) || Loses(run[i], ops[i], p)
    ensures ReservedBy(run, ops, i + 1, p) <==> ReservedBy(run, ops, i, p) || Reserves(run[i], ops[i], p)
  {
    if LostBy(run, ops, i + 1, p) { var j: nat :| j < i + 1 && Loses(run[j], ops[j], p); }
    if ReservedBy(run, ops, i + 1, p) { var j: nat :| j < i + 1 && Reserves(run[j], ops[j], p); }
  }

  /** Conservation: at every point of every run, a page has been added exactly if it is in a block on
      a free list, in a block on the allocated list, was taken by a reservation, or was in a block
      that was refused for want of a descriptor; and it is only one of these. Blocks are refused only
      once all descriptors are taken. */
  lemma RunConserves(run: seq<State>, ops: seq<Op>, n: nat, p: nat)
    requires Run(run, ops) && n <= |ops|
    ensures p in Added(ops, n) <==>
      InFree(run[n], p) || InUsed(run[n], p) || ReservedBy(run, ops, n, p) || LostBy(run, ops, n, p)
    ensures !(InFree(run[n], p) && InUsed(run[n], p)) && !(ReservedBy(run, ops, n, p) && LostBy(run, ops, n, p))
    ensures InFree(run[n], p) || InUsed(run[n], p) ==> !ReservedBy(run, ops, n, p) && !LostBy(run, ops, n, p)
    ensures LostBy(run, ops, n, p) ==> |run[n].desc| == MAX_BLOCK_DESC
  {
    RunGood(run, ops, n);
    RunFates(run, ops, n, p);
    Roles(run[n], p);
  }

  ghost predicate Retired(s: State, p: nat)
  {
    p in s.owner && (s.owner[p] == Reserved || s.owner[p] == Dropped)
  }

  lemma StepRetires(run: seq<State>, ops: seq<Op>, i: nat, p: nat)
    requires Run(run, ops) && i < |ops| && Retired(run[i], p)
    ensures Retired(run[i + 1], p) && run[i + 1].owner[p] == run[i].owner[p]
  {
    RunGood(run, ops, i);
    StepTheorem(run[i], ops[i], run[i + 1]);
  }

  /** Pages once reserved or lost stay so for the rest of the run. */
  lemma {:induction false} RunRetires(run: seq<State>, ops: seq<Op>, m: nat, n: nat, p: nat)
    requires Run(run, ops) && m <= n <= |ops| && Retired(run[m], p)
    ensures Retired(run[n], p) && run[n].owner[p] == run[m].owner[p]
    decreases n - m
  {
    if m < n {
      var i: nat := n - 1;
      RunRetires(run, ops, m, i, p);
      StepRetires(run, ops, i, p);
      assert n == i + 1;
    }
  }

  /** At every point of every run, every block on a list is aligned to its size and on the list
      of its order, no descriptor is listed twice, and no two listed blocks share a page. */
  lemma RunSeparates(run: seq<State>, ops: seq<Op>, n: nat)
    requires Run(run, ops) && n <= |ops|
    ensures var s := run[n];
      && (forall o: nat, id: nat :: o < |s.free| && id in s.free[o] ==> id < |s.desc| && s.desc[id].order == o)
      && (forall x: nat :: Listed(s, x) ==> s.desc[x].head % Pow2(s.desc[x].order) == 0)
      && (forall o: nat :: o < |s.free| ==> Distinct(s.free[o])) && Distinct(s.used)
      && (forall x: nat :: !(OnFree(s, x) && x in s.used))
      && (forall x: nat, y: nat, p: nat {:trigger Listed(s, x), Listed(s, y), Covers(s.desc[x], p)} ::
            Listed(s, x) && Listed(s, y) && x != y && Covers(s.desc[x], p) ==> !Covers(s.desc[y], p))
  {
    RunGood(run, ops, n);
    var s := run[n];
    forall x: nat | Listed(s, x) ensures s.desc[x].head % Pow2(s.desc[x].order) == 0 {
      AlignedIsMultiple(s.desc[x].head, s.desc[x].order);
    }
    forall x: nat ensures !(OnFree(s, x) && x in s.used) {
      Apart(s, NONE, x);
    }
    assert forall x: nat, y: nat, p: nat {:trigger Listed(s, x), Listed(s, y), Covers(s.desc[x], p)} ::
      Listed(s, x) && Listed(s, y) && x != y && Covers(s.desc[x], p) ==> s.owner[p].id == x && !Covers(s.desc[y], p);
  }

  // ---------------------------------------------------------------- the page counter

  /** By how much an operation makes free_pages over-report: by the size of the block that an
      allocation is served from, and by what a freed block grows in merging. */
  ghost function DriftOf(s: State, op: Op): int
  {
    if !Inv(s, NONE) then 0
    else
      match op
      case Allocate(order) => if CanServe(s, order) then Pow2(FirstOrder(s, order)) else 0
      case Deallocate(addr, order) =>
        var i := FindUsed(s, addr / PAGE, 0);
        if order <= MAX_ORDER && addr % PAGE == 0 && i < |s.used| then FreeDrift(s, s.used[i]) else 0
      case AddRegion(_, _) => 0
      case ReserveRegion(_, _) => 0
  }

  ghost function FreeDrift(s: State, id: nat): (d: int)
    requires Inv(s, NONE) && id in s.used
    ensures d >= 0
  {
    ReleaseInv(s, id);
    CoalesceLists(Release(s, id), id);
    Pow2Monotone(s.desc[id].order, MergedUp(s, id).desc[id].order);
    Pow2(MergedUp(s, id).desc[id].order) - Pow2(s.desc[id].order)
  }

  /** The allocator performs every operation as a step. */
  method Perform(pmm: P.Pmm, op: Op)
    requires pmm.Valid() && Allowed(pmm.st, op)
    modifies pmm, pmm.blocks
    ensures pmm.Valid() && Step(old(pmm.st), op, pmm.st)
    ensures pmm.Drift() == old(pmm.Drift()) + DriftOf(old(pmm.st), op)
  {
    match op
    case AddRegion(base, size) =>
      AllowedRange(pmm.st, base, size);
      pmm.AddRegion(base, size);
    case ReserveRegion(base, size) => pmm.ReserveRegion(base, size);
    case Allocate(order) => var _ := pmm.Allocate(order);
    case Deallocate(addr, order) => pmm.Deallocate(addr, order);
  }

  /** What the first n operations add up to. */
  ghost function TotalDrift(run: seq<State>, ops: seq<Op>, n: nat): int
    requires n <= |ops| && n <= |run|
  {
    if n == 0 then 0 else TotalDrift(run, ops, n - 1) + DriftOf(run[n - 1], ops[n - 1])
  }

  /** Allocation i is served. */
  ghost predicate ServedAt(run: seq<State>, ops: seq<Op>, i: nat)
    requires i < |ops| && i < |run|
  {
    ops[i].Allocate? && |run[i].free| == MAX_ORDER + 1 && CanServe(run[i], ops[i].order)
  }

  ghost predicate NoneServed(run: seq<State>, ops: seq<Op>, n: nat)
    requires n <= |ops| && n <= |run|
  {
    forall i: nat :: i < n ==> !ServedAt(run, ops, i)
  }

  lemma TilesUnused(s: State, lo: nat, hi: nat, r: State)
    requires Inv(s, NONE) && lo <= hi && Fresh(s, lo, hi) && TilesTo(s, lo, hi, MAX_ORDER, r)
    ensures r.used == s.used
  {
    TileTheorem(s, lo, hi, MAX_ORDER, r);
  }

  lemma StepUnused(s: State, op: Op, r: State)
    requires Good(s) && Step(s, op, r) && s.used == [] && !(op.Allocate? && CanServe(s, op.order))
    ensures r.used == [] && DriftOf(s, op) == 0
  {
    match op
    case AddRegion(base, size) =>
      AddTiles(s, base, size, r);
      TilesUnused(s, RoundUp(base), RoundUp(base) + size / PAGE, r);
    case ReserveRegion(base, size) => ReserveTheorem(s, RoundUp(base), (base + size) / PAGE, r);
    case Allocate(_) =>
    case Deallocate(_, _) =>
  }

  /** Until an allocation is served nothing is handed out and free_pages is exact. */
  lemma {:induction false} RunUnused(run: seq<State>, ops: seq<Op>, n: nat)
    requires Run(run, ops) && n <= |ops| && NoneServed(run, ops, n)
    ensures run[n].used == [] && TotalDrift(run, ops, n) == 0
  {
    if n > 0 {
      var i: nat := n - 1;
      RunUnused(run, ops, i);
      RunGood(run, ops, i);
      assert !ServedAt(run, ops, i);
      StepUnused(run[i], ops[i], run[i + 1]);
      assert n == i + 1;
    }
  }

  lemma {:induction false} DriftGrows(run: seq<State>, ops: seq<Op>, n: nat)
    requires Run(run, ops) && n <= |ops|
    ensures TotalDrift(run, ops, n) >= 0
    ensures TotalDrift(run, ops, n) == 0 ==> NoneServed(run, ops, n)
  {
    if n > 0 {
      var i: nat := n - 1;
      DriftGrows(run, ops, i);
      RunGood(run, ops, i);
      assert ServedAt(run, ops, i) ==> DriftOf(run[i], ops[i]) > 0;
    }
  }

  /** free_pages is exact exactly until the first allocation is served. */
  lemma DriftExact(run: seq<State>, ops: seq<Op>, n: nat)
    requires Run(run, ops) && n <= |ops|
    ensures TotalDrift(run, ops, n) >= 0
    ensures TotalDrift(run, ops, n) == 0 <==> NoneServed(run, ops, n)
  {
    DriftGrows(run, ops, n);
    if NoneServed(run, ops, n) { RunUnused(run, ops, n); }
  }

  lemma {:induction false} DriftPrefix(run: seq<State>, ops: seq<Op>, n: nat, s: State)
    requires n <= |ops| && n <= |run|
    ensures TotalDrift(run + [s], ops, n) == TotalDrift(run, ops, n)
  {
    if n > 0 { DriftPrefix(run, ops, n - 1, s); }
  }

  /** Every sequence of operations that adds no page twice is a run of the allocator, and in the end
      free_pages is the number of free pages and the sum of the drifts. */
  method Execute(ops: seq<Op>) returns (pmm: P.Pmm, ghost run: seq<State>)
    requires forall i: nat :: i < |ops| ==> AddedBy(ops[i]) !! Added(ops, i)
    ensures pmm.Valid() && Run(run, ops) && pmm.st == run[|ops|]
    ensures pmm.freePages == |FreePages(pmm.st)| + TotalDrift(run, ops, |ops|)
  {
    pmm := new P.Pmm();
    run := [pmm.st];
    var i := 0;
    while i < |ops|
      invariant i <= |ops| && pmm.Valid() && fresh(pmm) && fresh(pmm.blocks)
      invariant pmm.st.owner.Keys == Added(ops, i)
      invariant Going(run, ops, i) && pmm.st == run[i] && pmm.Drift() == TotalDrift(run, ops, i)
    {
      ghost var s := pmm.st;
      Perform(pmm, ops[i]);
      StepTheorem(s, ops[i], pmm.st);
      DriftPrefix(run, ops, i, pmm.st);
      GoingOn(run, ops, i, pmm.st);
      run := run + [pmm.st];
      i := i + 1;
    }
    WeightIsFreePages(pmm.st);
  }

  /** The states after the first n operations. */
  ghost predicate Going(run: seq<State>, ops: seq<Op>, n: nat)
  {
    && n <= |ops| && |run| == n + 1 && run[0] == EMPTY
    && forall i: nat :: i < n ==> Step(run[i], ops[i], run[i + 1])
  }

  lemma GoingOn(run: seq<State>, ops: seq<Op>, n: nat, r: State)
    requires Going(run, ops, n) && n < |ops| && Step(run[n], ops[n], r)
    ensures Going(run + [r], ops, n + 1)
    ensures TotalDrift(run + [r], ops, n + 1) == TotalDrift(run + [r], ops, n) + DriftOf(run[n], ops[n])
  {
    var run' := run + [r];
    forall i: nat | i < n + 1 ensures Step(run'[i], ops[i], run'[i + 1]) {
      assert i < n ==> Step(run[i], ops[i], run[i + 1]);
    }
  }

  /** A region whose base is not page aligned is rounded up without shrinking its size: pages
      beyond its end are taken exactly when the cut at the base and the cut at the size add up
      to less than a page. */
  lemma AddRegionOvershoots(base: nat, size: nat)
    requires size >= PAGE
    ensures (exists p :: p in AddedBy(AddRegion(base, size)) && PAGE * p + PAGE > base + size) <==>
            base % PAGE != 0 && base % PAGE + size % PAGE < PAGE
  {
    var last := RoundUp(base) + size / PAGE - 1;
    assert Here(last);
    assert last in AddedBy(AddRegion(base, size));
  }
}
