/** Runs that show what the allocator does not keep. */
module PmmLimit {
  import opened Bits
  import opened PmmModel
  import opened PmmOps
  import opened PmmBuddies
  import opened PmmRegions
  import opened PmmRoundTrip
  import opened PmmRuns

  /** Page 0 is added and handed out; then pages 2, 4, ..., 2000 and page 1 are added, one by one. */
  function Head(i: nat): nat
  {
    if i == 1001 then 1 else 2 * i
  }

  /** After n pages were added. */
  ghost function Stage(n: nat): State
    requires 0 < n <= 1002
  {
    State(seq(n, i requires 0 <= i < n => Desc(Head(i), 0)),
          EMPTY.free[0 := seq(n - 1, i requires 0 <= i < n - 1 => i + 1)],
          [0],
          map p: nat | p <= 2000 && ((p % 2 == 0 && p / 2 < n) || (p == 1 && n == 1002)) ::
            if p == 0 then Used(0) else if p == 1 then Free(1001) else Free(p / 2))
  }

  /** Page 0 added, not yet handed out. */
  ghost function First(): State
  {
    State([Desc(0, 0)], EMPTY.free[0 := [0]], [], map[0 := Free(0)])
  }

  ghost function Visited(i: nat): State
    requires i <= 1003
  {
    if i == 0 then EMPTY else if i == 1 then First() else Stage(i - 1)
  }

  function Called(i: nat): Op
  {
    if i == 0 then AddRegion(0, PAGE)
    else if i == 1 then Allocate(0)
    else if i == 1003 then Deallocate(0, 0)
    else AddRegion(PAGE * Head(i - 1), PAGE)
  }

  lemma {:induction false} BestOrderOne(p: nat, k: nat)
    ensures BestOrder(p, 1, k) == 0
  {
    if k > 0 {
      assert Pow2(k) >= 2;
      BestOrderOne(p, k - 1);
    }
  }

  /** Adding a single page. */
  lemma AddPage(s: State, p: nat)
    requires |s.free| == MAX_ORDER + 1 && p !in s.owner
    ensures Step(s, AddRegion(PAGE * p, PAGE), AddBlock(s, p, 0))
  {
    BestOrderOne(p, MAX_ORDER);
    assert RoundUp(PAGE * p) == p;
    assert AddedBy(AddRegion(PAGE * p, PAGE)) <= {p};
    TilesToNothing(AddBlock(s, p, 0), p + 1, p + 1, MAX_ORDER);
  }

  lemma NextOwners(n: nat)
    requires 0 < n < 1002
    ensures Head(n) !in Stage(n).owner
    ensures Paint(Stage(n).owner, Desc(Head(n), 0), Free(n)) == Stage(n + 1).owner
  {
  }

  lemma NextStage(n: nat)
    requires 0 < n < 1002
    ensures Head(n) !in Stage(n).owner && AddBlock(Stage(n), Head(n), 0) == Stage(n + 1)
  {
    var s, r := AddBlock(Stage(n), Head(n), 0), Stage(n + 1);
    assert s.desc == r.desc;
    assert s.free[0] == r.free[0];
    assert s.free == r.free;
    NextOwners(n);
  }

  lemma FirstAdded()
    ensures Step(EMPTY, AddRegion(0, PAGE), First())
  {
    AddPage(EMPTY, 0);
    var s, r := AddBlock(EMPTY, 0, 0), First();
    assert s.desc == r.desc;
    assert s.free[0] == r.free[0];
    assert s.free == r.free;
    assert s.owner == r.owner;
  }

  lemma FirstTaken()
    ensures |First().free| == MAX_ORDER + 1 && Take(Hold(First(), 0), 0) == Stage(1)
  {
    var s, r := Take(Hold(First(), 0), 0), Stage(1);
    assert s.desc == r.desc;
    assert s.free[0] == r.free[0];
    assert s.free == r.free;
    assert s.owner == r.owner;
  }

  lemma FirstAllocated()
    ensures Step(First(), Allocate(0), Stage(1))
  {
    var s := First();
    FirstTaken();
    if Inv(s, NONE) {
      assert FirstOrder(s, 0) == 0;
      assert Served(s, 0) == 0;
      assert Alloc(s, 0) == Take(Hold(s, 0), 0);
    }
  }

  ghost function Visits(r: State): seq<State>
  {
    seq(1005, i requires 0 <= i < 1005 => if i < 1004 then Visited(i) else r)
  }

  function Calls(): seq<Op>
  {
    seq(1004, i requires 0 <= i < 1004 => Called(i))
  }

  lemma VisitedStep(i: nat)
    requires i < 1003
    ensures Step(Visited(i), Called(i), Visited(i + 1))
  {
    if i == 0 {
      FirstAdded();
    } else if i == 1 {
      FirstAllocated();
    } else {
      NextStage(i - 1);
      AddPage(Stage(i - 1), Head(i - 1));
    }
  }

  lemma Reached(r: State)
    requires Step(Stage(1002), Deallocate(0, 0), r)
    ensures Run(Visits(r), Calls())
  {
    var run, ops := Visits(r), Calls();
    forall i: nat | i < 1004 ensures Step(run[i], ops[i], run[i + 1]) {
      if i < 1003 { VisitedStep(i); }
    }
  }

  lemma Freed(s: State) returns (r: State)
    ensures Step(s, Deallocate(0, 0), r)
  {
    r := if Inv(s, NONE) then FreeAt(s, 0) else s;
  }

  /** A state of a run is consistent. */
  lemma StageGood()
    ensures Good(Stage(1002))
  {
    var r := Freed(Stage(1002));
    Reached(r);
    RunGood(Visits(r), Calls(), 1003);
  }

  lemma StageLists()
    ensures forall id: nat :: OnFree(Stage(1002), id) <==> 0 < id < 1002
  {
    var s := Stage(1002);
    forall id: nat ensures id in s.free[0] <==> 0 < id < 1002 {
      if 0 < id < 1002 { assert s.free[0][id - 1] == id; }
    }
    assert forall id: nat :: id < 1002 ==> s.desc[id].order == 0;
  }

  lemma StageCoalesced()
    ensures Coalesced(Stage(1002))
  {
    var s := Stage(1002);
    StageLists();
    forall x: nat, y: nat | OnFree(s, x) && OnFree(s, y) ensures s.desc[y].head != Buddy(s.desc[x]) {
      XorBit(s.desc[x].head, 0);
    }
  }

  /** The buddy of page 0 is the last of 1001 entries. */
  lemma StageOverlooks()
    ensures Overlooks(Stage(1002), Desc(0, 0), 0)
  {
    var s := Stage(1002);
    XorBit(0, 0);
    assert StartsAt(s, s.free[0][1000], 1);
  }

  /** Page 0 is all that is handed out. */
  ghost predicate HoldsFirst(s: State)
  {
    s.used == [0] && |s.desc| > 0 && s.desc[0] == Desc(0, 0)
  }

  lemma FreeFails(s: State) returns (r: State)
    requires Good(s) && Coalesced(s) && HoldsFirst(s) && Overlooks(s, Desc(0, 0), 0)
    ensures Step(s, Deallocate(0, 0), r) && !Coalesced(r)
  {
    assert FindUsed(s, 0, 0) == 0;
    FreeKeepsCoalesced(s, 0);
    r := FreeId(s, 0);
  }

  lemma StageHoldsFirst()
    ensures HoldsFirst(Stage(1002))
  {
  }

  lemma LastStep() returns (r: State)
    ensures Step(Stage(1002), Deallocate(0, 0), r) && !Coalesced(r)
  {
    StageGood();
    StageCoalesced();
    StageOverlooks();
    StageHoldsFirst();
    r := FreeFails(Stage(1002));
  }

  /** A run from initialization on that is fully merged after 1003 operations and, once page 0 is
      freed, has two free buddies. */
  lemma FreeOverlooksBuddy() returns (run: seq<State>, ops: seq<Op>)
    ensures Run(run, ops) && |ops| == 1004 && ops[1003] == Deallocate(0, 0)
    ensures Coalesced(run[1003]) && !Coalesced(run[1004])
  {
    var r := LastStep();
    StageCoalesced();
    Reached(r);
    run, ops := Visits(r), Calls();
  }

  // ---------------------------------------------------------------- round trips that change the blocks

  /** Pages 0 and 1, added one after the other. */
  ghost function Twins(): State
  {
    State([Desc(0, 0), Desc(1, 0)], EMPTY.free[0 := [0, 1]], [], map[0 := Free(0), 1 := Free(1)])
  }

  lemma TwinsAdded()
    ensures Step(First(), AddRegion(PAGE, PAGE), Twins())
  {
    AddPage(First(), 1);
    var s, r := AddBlock(First(), 1, 0), Twins();
    assert s.desc == r.desc;
    assert s.free[0] == r.free[0];
    assert s.free == r.free;
    assert s.owner == r.owner;
  }

  lemma TwinsGood()
    ensures Good(Twins())
  {
    FirstAdded();
    TwinsAdded();
    EmptyGood();
    StepTheorem(EMPTY, AddRegion(0, PAGE), First());
    StepTheorem(First(), AddRegion(PAGE, PAGE), Twins());
  }

  /** A single page is served from page 0, whose buddy is near. */
  ghost predicate WillMerge(s: State)
  {
    && |s.free| == MAX_ORDER + 1 && CanServe(s, 0) && Served(s, 0) == 0
    && |s.desc| > 0 && s.desc[0].head == 0 && BuddyNear(s, 0)
  }

  lemma ThereAndBack(s: State) returns (a: State, r: State)
    requires Good(s) && WillMerge(s)
    ensures Step(s, Allocate(0), a) && Step(a, Deallocate(0, 0), r) && FreeBlocks(r) != FreeBlocks(s)
  {
    AllocFreeRoundTrip(s, 0);
    AllocKeeps(s, 0);
    a := Alloc(s, 0);
    r := FreeAt(a, 0);
  }

  lemma TwinsNear(s: State)
    requires s == Twins()
    ensures WillMerge(s)
  {
    XorBit(0, 0);
    assert FirstOrder(s, 0) == 0;
    assert StartsAt(s, s.free[0][1], 1);
  }

  /** Two pages added apart are not merged; allocating and freeing the first one merges them. */
  lemma RoundTripMerges() returns (run: seq<State>, ops: seq<Op>)
    ensures Run(run, ops) && |ops| == 4 && ops[2] == Allocate(0) && ops[3] == Deallocate(0, 0)
    ensures FreeBlocks(run[4]) != FreeBlocks(run[2])
  {
    FirstAdded();
    TwinsAdded();
    TwinsGood();
    TwinsNear(Twins());
    var a, r := ThereAndBack(Twins());
    run := [EMPTY, First(), Twins(), a, r];
    ops := [AddRegion(0, PAGE), AddRegion(PAGE, PAGE), Allocate(0), Deallocate(0, 0)];
  }

  /** Pages 0 and 1 free as one block, after n rounds of allocating and freeing page 0. Every round
      leaves one more descriptor behind. */
  ghost function Round(n: nat): State
  {
    State([Desc(0, 1)] + Stale1(n), EMPTY.free[1 := [0]], [], map[0 := Free(0), 1 := Free(0)])
  }

  /** Page 0 handed out in the round after that. */
  ghost function Half(n: nat): State
  {
    State([Desc(0, 0)] + Stale1(n + 1), EMPTY.free[0 := [n + 1]], [0], map[0 := Used(0), 1 := Free(n + 1)])
  }

  ghost function Stale1(n: nat): (ds: seq<Desc>)
    ensures |ds| == n && forall i: nat :: i < n ==> ds[i] == Desc(1, 0)
  {
    seq(n, i requires 0 <= i < n => Desc(1, 0))
  }

  lemma PairAdded()
    ensures Step(EMPTY, AddRegion(0, 2 * PAGE), Round(0))
  {
    PairOrder(MAX_ORDER);
    PairBlock();
    var s := AddBlock(EMPTY, 0, 1);
    assert Pow2(1) == 2;
    TilesToNothing(s, 2, 2, MAX_ORDER);
    assert TilesTo(EMPTY, 0, 2, MAX_ORDER, s);
  }

  lemma PairBlock()
    ensures AddBlock(EMPTY, 0, 1) == Round(0)
  {
    var s, r := AddBlock(EMPTY, 0, 1), Round(0);
    assert Pow2(1) == 2;
    assert s.desc == r.desc;
    assert s.free[1] == r.free[1];
    assert s.free == r.free;
    assert s.owner == r.owner;
  }

  lemma {:induction false} PairOrder(k: nat)
    requires k >= 1
    ensures BestOrder(0, 2, k) == 1
  {
    if k > 1 {
      Pow2Monotone(2, k);
      assert Pow2(2) == 4;
      PairOrder(k - 1);
    } else {
      assert Pow2(1) == 2;
    }
  }

  /** Splitting the pair while there are descriptors left. */
  lemma PairSplit(n: nat)
    requires n < 2047
    ensures |Round(n).free| == MAX_ORDER + 1 && Take(SplitOnce(Hold(Round(n), 0), 0), 0) == Half(n)
  {
    var s := Hold(Round(n), 0);
    assert Pow2(1) == 2 && Pow2(0) == 1;
    assert s.free[1] == [];
    assert Upper(s.desc[0]) == Desc(1, 0);
    var r, h := SplitOnce(s, 0), Half(n);
    PairDescs(n);
    PairLists(n, s.free);
    HalfOwners(n);
  }

  lemma PairDescs(n: nat)
    ensures Round(n).desc[0 := Desc(0, 0)] + [Desc(1, 0)] == Half(n).desc
    ensures Half(n).desc[0 := Desc(0, 1)] == Round(n + 1).desc
  {
  }

  lemma PairLists(n: nat, free: seq<seq<nat>>)
    requires free == Round(n).free[1 := []]
    ensures free[0 := free[0] + [n + 1]] == Half(n).free
  {
    var r := free[0 := free[0] + [n + 1]];
    assert r[0] == Half(n).free[0] && r[1] == Half(n).free[1];
  }

  lemma HalfOwners(n: nat)
    ensures var m := Paint(Round(n).owner, Desc(0, 1), Used(0));
      Paint(Paint(m, Desc(1, 0), Dropped), Desc(1, 0), Free(n + 1)) == Half(n).owner
  {
    assert Pow2(1) == 2 && Pow2(0) == 1;
  }

  lemma RoundOwners(n: nat)
    ensures Paint(Paint(Half(n).owner, Desc(1, 0), Used(0)), Desc(0, 1), Free(0)) == Round(n + 1).owner
  {
    assert Pow2(1) == 2 && Pow2(0) == 1;
  }

  lemma RoundAllocates(n: nat)
    requires n < 2047
    ensures Step(Round(n), Allocate(0), Half(n))
  {
    var s := Round(n);
    if Inv(s, NONE) {
      assert FirstOrder(s, 0) == 1;
      assert Served(s, 0) == 0;
      PairSplit(n);
      SplitsOnce(Picked(s, 0));
    }
  }

  lemma SplitsOnce(h: State)
    requires |h.free| == MAX_ORDER + 1 && |h.desc| > 0 && h.desc[0].order == 1
    ensures SplitTo(h, 0, 0) == SplitOnce(h, 0)
  {
    var t := SplitOnce(h, 0);
    assert t.desc[0].order == 0;
    assert SplitTo(t, 0, 0) == t;
  }

  /** Merging the two pages again. */
  lemma PairMerged(n: nat)
    ensures var h := Release(Half(n), 0);
      |h.free| == MAX_ORDER + 1 && |h.desc| == n + 2 && Push(Absorb(h, 0, n + 1), 0) == Round(n + 1)
  {
    var h := Release(Half(n), 0);
    assert Pow2(1) == 2 && Pow2(0) == 1;
    assert h.used == [];
    var r, e := Push(Absorb(h, 0, n + 1), 0), Round(n + 1);
    PairDescs(n);
    assert r.free[0] == e.free[0] && r.free[1] == e.free[1];
    assert r.free == e.free;
    RoundOwners(n);
  }

  lemma HalfMergeable(n: nat, h: State)
    requires h == Release(Half(n), 0)
    ensures Mergeable(h, 0) && FoundBuddy(h, 0) == n + 1 && !Mergeable(Absorb(h, 0, n + 1), 0)
  {
    XorBit(0, 0);
    assert Peers(h, 0) == [n + 1];
    assert StartsAt(h, n + 1, 1);
    var t := Absorb(h, 0, n + 1);
    assert Peers(t, 0) == [];
  }

  lemma HalfFrees(n: nat)
    ensures Step(Half(n), Deallocate(0, 0), Round(n + 1))
  {
    var s := Half(n);
    if Inv(s, NONE) {
      assert FindUsed(s, 0, 0) == 0;
      HalfMergeable(n, Release(s, 0));
      PairMerged(n);
      MergesOnce(Release(s, 0), n + 1);
    }
  }

  lemma MergesOnce(h: State, b: nat)
    requires |h.free| == MAX_ORDER + 1 && |h.desc| > b && h.desc[0].order <= MAX_ORDER
    requires Mergeable(h, 0) && FoundBuddy(h, 0) == b && !Mergeable(Absorb(h, 0, b), 0)
    ensures Coalesce(h, 0) == Absorb(h, 0, b)
  {
  }

  lemma RunOn(run: seq<State>, ops: seq<Op>, op: Op, r: State)
    requires Run(run, ops) && Step(run[|ops|], op, r)
    ensures Run(run + [r], ops + [op])
  {
    var run', ops' := run + [r], ops + [op];
    forall i: nat | i < |ops'| ensures Step(run'[i], ops'[i], run'[i + 1]) {
      assert i < |ops| ==> Step(run[i], ops[i], run[i + 1]);
    }
  }

  /** The run of n rounds. */
  lemma {:induction false} RunOfRounds(n: nat) returns (run: seq<State>, ops: seq<Op>)
    requires n <= 2047
    ensures Run(run, ops) && |ops| == 2 * n + 1 && run[2 * n + 1] == Round(n)
  {
    if n == 0 {
      PairAdded();
      run, ops := [EMPTY, Round(0)], [AddRegion(0, 2 * PAGE)];
    } else {
      var j: nat := n - 1;
      run, ops := RunOfRounds(j);
      RoundAllocates(j);
      HalfFrees(j);
      RunOn(run, ops, Allocate(0), Half(j));
      RunOn(run + [Half(j)], ops + [Allocate(0)], Deallocate(0, 0), Round(n));
      run, ops := run + [Half(j)] + [Round(n)], ops + [Allocate(0)] + [Deallocate(0, 0)];
    }
  }

  /** No descriptor is left, and page 0 is next. */
  ghost predicate WillDrop(s: State)
  {
    && |s.free| == MAX_ORDER + 1 && CanServe(s, 0) && FirstOrder(s, 0) == 1 && Served(s, 0) == 0
    && |s.desc| == MAX_BLOCK_DESC && s.desc[0].head == 0
  }

  lemma SpentDrops()
    ensures WillDrop(Round(2047))
  {
    assert FirstOrder(Round(2047), 0) == 1;
  }

  lemma ThereAndLost(s: State) returns (a: State, r: State)
    requires Good(s) && WillDrop(s)
    ensures Step(s, Allocate(0), a) && Step(a, Deallocate(0, 0), r) && FreeBlocks(r) != FreeBlocks(s)
  {
    AllocFreeRoundTrip(s, 0);
    AllocKeeps(s, 0);
    a := Alloc(s, 0);
    r := FreeAt(a, 0);
  }

  /** A run that uses up the descriptors by allocating and freeing the same page 2047 times; doing it
      once more does not restore the free block. */
  lemma RoundTripDrops() returns (run: seq<State>, ops: seq<Op>)
    ensures Run(run, ops) && |ops| == 4097 && ops[4095] == Allocate(0) && ops[4096] == Deallocate(0, 0)
    ensures FreeBlocks(run[4097]) != FreeBlocks(run[4095])
  {
    run, ops := RunOfRounds(2047);
    SpentDrops();
    run, ops := DropsNext(run, ops);
  }

  lemma DropsNext(run: seq<State>, ops: seq<Op>) returns (run': seq<State>, ops': seq<Op>)
    requires Run(run, ops) && WillDrop(run[|ops|])
    ensures Run(run', ops') && |ops'| == |ops| + 2 && ops'[|ops|] == Allocate(0) && ops'[|ops| + 1] == Deallocate(0, 0)
    ensures FreeBlocks(run'[|ops| + 2]) != FreeBlocks(run'[|ops|])
  {
    RunGood(run, ops, |ops|);
    var a, r := ThereAndLost(run[|ops|]);
    RunOn(run, ops, Allocate(0), a);
    RunOn(run + [a], ops + [Allocate(0)], Deallocate(0, 0), r);
    run', ops' := run + [a] + [r], ops + [Allocate(0)] + [Deallocate(0, 0)];
  }

  // ---------------------------------------------------------------- page 0

  /** A run that hands page 0 out: the address that the caller gets is the one for a failure. */
  lemma ZeroIsServed() returns (run: seq<State>, ops: seq<Op>)
    ensures Run(run, ops) && ops == [AddRegion(0, PAGE), Allocate(0)]
    ensures |run[1].free| == MAX_ORDER + 1 && CanServe(run[1], 0) && Served(run[1], 0) == 0
    ensures run[1].desc == [Desc(0, 0)]
    ensures run[2].used == [0] && run[2].desc == [Desc(0, 0)]
  {
    FirstAdded();
    FirstAllocated();
    assert FirstOrder(First(), 0) == 0;
    run, ops := [EMPTY, First(), Stage(1)], [AddRegion(0, PAGE), Allocate(0)];
    assert Stage(1).desc == [Desc(0, 0)];
  }
}
