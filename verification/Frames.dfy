/** Single pages of the buddy allocator, as its callers see them: sets of page addresses. */
module Frames {
  import opened Bits
  import opened PmmModel
  import opened PmmOps
  import P = Pmm
  import opened PteBits

  /** The free pages, the pages handed out one by one, the larger blocks handed out (all the pages
      of each by its first page), and the pages lost for want of descriptors. */
  datatype Pages = Pages(pool: set<nat>, used: set<nat>, large: map<nat, set<nat>>, lost: set<nat>)

  /** Page q belongs to the allocated block of page p. */
  ghost predicate SameBlock(s: State, p: nat, q: int)
  {
    q >= 0 && p in s.owner && s.owner[p].Used? && q in s.owner && s.owner[q] == s.owner[p]
  }

  /** Page p is the first page of an allocated block. */
  ghost predicate Head(s: State, p: nat) { SameBlock(s, p, p) && !SameBlock(s, p, p - 1) }

  ghost predicate Single(s: State, p: nat) { Head(s, p) && !SameBlock(s, p, p + 1) }

  /** The pages of the allocated block of page p. */
  ghost function Block(s: State, p: nat): set<nat>
  {
    set q: nat | q in s.owner && SameBlock(s, p, q) :: PAGE * q
  }

  ghost function LargeHeads(s: State): set<nat>
  {
    set p: nat | p in s.owner && Head(s, p) && !Single(s, p) :: PAGE * p
  }

  ghost function View(s: State): Pages
  {
    Pages(set p: nat | p in s.owner && FreeIn(s, p) :: PAGE * p,
          set p: nat | p in s.owner && Single(s, p) :: PAGE * p,
          map a | a in LargeHeads(s) :: Block(s, a / PAGE),
          set p: nat | p in s.owner && LostIn(s, p) :: PAGE * p)
  }

  /** Frame addresses fit into a page table entry. */
  ghost predicate Managed(s: State)
  {
    forall p: nat :: p in s.owner ==> p < FRAMES
  }

  ghost predicate PagesOk(m: Pages)
  {
    && m.pool !! m.used && m.pool !! m.large.Keys && m.used !! m.large.Keys && m.pool !! m.lost
    && forall a :: a in m.pool ==> IsFrame(a)
  }

  /** Page a was taken from the pool; others may have been lost. */
  ghost predicate Taken(m: Pages, a: nat, m': Pages)
  {
    && a in m.pool && m'.used == m.used + {a} && m'.large == m.large
    && m.lost <= m'.lost && m'.pool + m'.lost == m.pool + m.lost - {a}
  }

  /** Page a was given back: by itself if it had been handed out by itself, with all its block if it
      is the first page of a larger block, not at all otherwise. */
  ghost predicate Given(m: Pages, a: nat, m': Pages)
  {
    m' == if a in m.used then m.(pool := m.pool + {a}, used := m.used - {a})
          else if a in m.large then m.(pool := m.pool + m.large[a], large := m.large - {a})
          else m
  }

  /** Page a, which starts no larger block, was given back, if it had been handed out. */
  ghost predicate GivenPage(m: Pages, a: nat, m': Pages)
  {
    a !in m.large && Given(m, a, m')
  }

  /** The same pages are handed out, and none that were free are gone unless lost. */
  ghost predicate SameUse(m: Pages, m': Pages)
  {
    m'.used == m.used && m'.large == m.large && m.lost <= m'.lost && m'.pool + m'.lost == m.pool + m.lost
  }

  // ---------------------------------------------------------------- blocks and their first pages

  lemma ViewOk(s: State)
    requires Managed(s)
    ensures PagesOk(View(s))
  {
    var m := View(s);
    forall a | a in m.pool ensures IsFrame(a) {
      var p: nat :| p in s.owner && FreeIn(s, p) && a == PAGE * p;
    }
    assert forall p: nat, q: nat :: PAGE * p == PAGE * q ==> p == q;
  }

  lemma InView(s: State, p: nat)
    ensures PAGE * p in View(s).pool <==> FreeIn(s, p)
    ensures PAGE * p in View(s).used <==> Single(s, p)
    ensures PAGE * p in View(s).large <==> Head(s, p) && !Single(s, p)
    ensures PAGE * p in View(s).lost <==> LostIn(s, p)
    ensures PAGE * p in View(s).large ==> View(s).large[PAGE * p] == Block(s, p)
  {
    SameAddress(p);
    InLarge(s, p);
    assert FreeIn(s, p) ==> p in s.owner;
    assert Head(s, p) ==> p in s.owner;
  }

  lemma SameAddress(p: nat)
    ensures forall q: nat :: PAGE * p == PAGE * q ==> p == q
    ensures PAGE * p / PAGE == p
  {
  }

  lemma InLarge(s: State, p: nat)
    ensures PAGE * p in LargeHeads(s) <==> Head(s, p) && !Single(s, p)
  {
    SameAddress(p);
    assert Head(s, p) ==> p in s.owner;
  }

  /** The pages that an allocated descriptor owns are those of its block. */
  lemma OwnedBlock(s: State, id: nat, p: nat)
    requires Inv(s, NONE) && id in s.used
    ensures id < |s.desc| && (p in s.owner && s.owner[p] == Used(id) <==> Covers(s.desc[id], p))
  {
    assert OnUsed(s, NONE, id);
  }

  lemma UsedHead(s: State, id: nat)
    requires Inv(s, NONE) && id in s.used
    ensures id < |s.desc| && Head(s, s.desc[id].head) && s.owner[s.desc[id].head] == Used(id)
    ensures Single(s, s.desc[id].head) <==> s.desc[id].order == 0
  {
    var d := s.desc[id];
    OwnedBlock(s, id, d.head);
    OwnedBlock(s, id, d.head + 1);
    if d.head > 0 { OwnedBlock(s, id, d.head - 1); }
    Pow2Monotone(1, d.order + 1);
    if d.order > 0 { Pow2Monotone(1, d.order); }
  }

  lemma HeadIsUsed(s: State, p: nat)
    requires Inv(s, NONE) && Head(s, p)
    ensures var id := s.owner[p].id; id in s.used && id < |s.desc| && s.desc[id].head == p
  {
    var id := s.owner[p].id;
    assert OnUsed(s, NONE, id) && Covers(s.desc[id], p);
    if p > 0 { OwnedBlock(s, id, p - 1); }
  }

  /** Two views differ by a page in each set as their states do, page by page. */
  lemma ViewMultiple(s: State, a: nat)
    requires a in View(s).pool + View(s).used + View(s).large.Keys + View(s).lost
    ensures a == PAGE * (a / PAGE)
  {
    var p: nat :| p in s.owner && a == PAGE * p;
  }

  // ---------------------------------------------------------------- allocating

  ghost predicate SameBlocks(s: State, r: State, p: nat)
  {
    forall q: nat :: SameBlock(r, p, q) <==> SameBlock(s, p, q)
  }

  lemma BlocksSame(s: State, r: State, p: nat)
    requires SameBlocks(s, r, p)
    ensures Block(r, p) == Block(s, p)
  {
  }

  /** Pages keep their role when page h is handed out by itself. */
  ghost predicate Picks(s: State, h: nat, r: State)
  {
    forall p: nat {:trigger Here(p)} ::
      && (FreeIn(r, p) || LostIn(r, p) <==> (FreeIn(s, p) || LostIn(s, p)) && p != h)
      && (LostIn(s, p) ==> LostIn(r, p))
      && (Single(r, p) <==> Single(s, p) || p == h)
      && (Head(r, p) && !Single(r, p) <==> Head(s, p) && !Single(s, p))
      && (p != h ==> SameBlocks(s, r, p))
  }

  /** From s to r, block d of free pages was cut down to page h, which went to a new owner. */
  lemma AllocOwners(s: State, r: State, id: nat, d: Desc)
    requires Inv(s, NONE) && OnFree(s, id) && d == s.desc[id] && CutDown(s, r, id, d, Desc(d.head, 0))
    ensures FreeIn(s, d.head) && Picks(s, d.head, r)
  {
    assert forall p: nat :: Covers(d, p) ==> s.owner[p] == Free(id);
    assert forall p: nat :: Covers(Desc(d.head, 0), p) <==> p == d.head;
    assert Covers(d, d.head);
    FreshOwner(s, id);
    forall p: nat
      ensures FreeIn(r, p) || LostIn(r, p) <==> (FreeIn(s, p) || LostIn(s, p)) && p != d.head
      ensures LostIn(s, p) ==> LostIn(r, p)
      ensures Single(r, p) <==> Single(s, p) || p == d.head
      ensures Head(r, p) && !Single(r, p) <==> Head(s, p) && !Single(s, p)
      ensures p != d.head ==> SameBlocks(s, r, p)
    {
      forall q: nat ensures p != d.head ==> (SameBlock(r, p, q) <==> SameBlock(s, p, q)) {
        AllocBlocks(s, r, id, d.head, p, q);
      }
      AllocBlocks(s, r, id, d.head, p, p);
      AllocBlocks(s, r, id, d.head, p, p - 1);
      AllocBlocks(s, r, id, d.head, p, p + 1);
      assert p in s.owner ==> Covers(d, p) || r.owner[p] == s.owner[p];
    }
  }

  lemma AllocBlocks(s: State, r: State, id: nat, h: nat, p: nat, q: int)
    requires h in s.owner && s.owner[h] == Free(id) && r.owner.Keys == s.owner.Keys && r.owner[h] == Used(id)
    requires forall x: nat :: x in s.owner ==> s.owner[x] != Used(id)
    requires forall x: nat :: x in s.owner && x != h ==>
      if s.owner[x].Used? then r.owner[x] == s.owner[x] else !r.owner[x].Used?
    ensures SameBlock(r, p, q) <==> SameBlock(s, p, q) || (p == h && q == h)
    ensures p == h ==> !SameBlock(s, p, q)
  {
  }

  lemma FreshOwner(s: State, id: nat)
    requires Inv(s, NONE) && OnFree(s, id)
    ensures forall p: nat :: p in s.owner ==> s.owner[p] != Used(id)
  {
    var h := s.desc[id].head;
    assert Covers(s.desc[id], h);
    assert s.owner[h] == Free(id);
    assert id in s.used ==> OnUsed(s, NONE, id);
  }

  lemma PicksTaken(s: State, h: nat, r: State)
    requires FreeIn(s, h) && Picks(s, h, r)
    ensures Taken(View(s), PAGE * h, View(r))
  {
    var m, m', a := View(s), View(r), PAGE * h;
    InView(s, h);
    forall x: nat
      ensures x in m'.used <==> x in m.used + {a}
      ensures x in m'.large <==> x in m.large
      ensures x in m.large ==> m'.large[x] == m.large[x]
      ensures x in m.lost ==> x in m'.lost
      ensures x in m'.pool + m'.lost <==> x in m.pool + m.lost - {a}
    {
      if x in m.pool + m.used + m.large.Keys + m.lost { ViewMultiple(s, x); }
      if x in m'.pool + m'.used + m'.large.Keys + m'.lost { ViewMultiple(r, x); }
      InView(s, x / PAGE);
      InView(r, x / PAGE);
      assert Here(x / PAGE);
      if x in m.large { BlocksSame(s, r, x / PAGE); }
    }
  }

  /** An order 0 allocation takes a page from the pool; it fails exactly when the pool is empty. */
  lemma AllocView(s: State)
    requires Good(s)
    ensures CanServe(s, 0) <==> View(s).pool != {}
    ensures CanServe(s, 0) ==>
      Served(s, 0) < |s.desc| && Taken(View(s), PAGE * s.desc[Served(s, 0)].head, View(Alloc(s, 0)))
  {
    AllocTheorem(s, 0);
    assert forall p: nat :: FreeIn(s, p) ==> OnFree(s, s.owner[p].id);
    if CanServe(s, 0) {
      var id := Served(s, 0);
      AllocOwners(s, Alloc(s, 0), id, s.desc[id]);
      PicksTaken(s, s.desc[id].head, Alloc(s, 0));
    }
  }

  /** The next single page to be handed out is page 0. */
  ghost predicate ServesZero(s: State)
  {
    |s.free| == MAX_ORDER + 1 && CanServe(s, 0) && Served(s, 0) < |s.desc| && s.desc[Served(s, 0)].head == 0
  }

  // ---------------------------------------------------------------- freeing

  /** Pages keep their role when the block that starts at page h becomes free. */
  ghost predicate Returns(s: State, h: nat, r: State)
  {
    forall p: nat {:trigger Here(p)} ::
      && (FreeIn(r, p) <==> FreeIn(s, p) || SameBlock(s, h, p))
      && (LostIn(r, p) <==> LostIn(s, p))
      && (Single(r, p) <==> Single(s, p) && p != h)
      && (Head(r, p) && !Single(r, p) <==> Head(s, p) && !Single(s, p) && p != h)
      && (!SameBlock(s, h, p) ==> SameBlocks(s, r, p))
  }

  /** From s to r the pages of id become free, and no page gets a new user. */
  ghost predicate SetFree(s: State, r: State, id: nat)
  {
    && r.owner.Keys == s.owner.Keys
    && forall x: nat :: x in s.owner ==>
         if s.owner[x] == Used(id) || s.owner[x].Free? then r.owner[x].Free? else r.owner[x] == s.owner[x]
  }

  lemma FreeSets(s: State, id: nat)
    requires Good(s) && id in s.used
    ensures SetFree(s, FreeId(s, id), id)
  {
    FreeTheorem(s, id);
    forall p: nat | p in s.owner && s.owner[p] == Used(id) ensures Covers(s.desc[id], p) { OwnedBlock(s, id, p); }
  }

  lemma ReturnBlocks(s: State, r: State, id: nat, h: nat, p: nat, q: int)
    requires h in s.owner && s.owner[h] == Used(id) && SetFree(s, r, id)
    ensures SameBlock(r, p, q) <==> SameBlock(s, p, q) && !SameBlock(s, h, p)
  {
  }

  /** A block has one first page. */
  lemma OneHead(s: State, id: nat, p: nat)
    requires Inv(s, NONE) && id in s.used && Head(s, p) && s.owner[p] == Used(id)
    ensures id < |s.desc| && p == s.desc[id].head
  {
    HeadIsUsed(s, p);
  }

  lemma ReturnOwners(s: State, id: nat)
    requires Good(s) && id in s.used
    ensures Returns(s, s.desc[id].head, FreeId(s, id))
  {
    var h, r := s.desc[id].head, FreeId(s, id);
    FreeSets(s, id);
    UsedHead(s, id);
    forall p: nat
      ensures FreeIn(r, p) <==> FreeIn(s, p) || SameBlock(s, h, p)
      ensures LostIn(r, p) <==> LostIn(s, p)
      ensures Single(r, p) <==> Single(s, p) && p != h
      ensures Head(r, p) && !Single(r, p) <==> Head(s, p) && !Single(s, p) && p != h
      ensures !SameBlock(s, h, p) ==> SameBlocks(s, r, p)
    {
      forall q: int ensures SameBlock(r, p, q) <==> SameBlock(s, p, q) && !SameBlock(s, h, p) {
        ReturnBlocks(s, r, id, h, p, q);
      }
      if Head(s, p) && SameBlock(s, h, p) { OneHead(s, id, p); }
    }
  }

  /** A page handed out by itself is all of its block. */
  lemma SingleBlock(s: State, id: nat)
    requires Inv(s, NONE) && id in s.used
    ensures id < |s.desc| && (Single(s, s.desc[id].head) ==> Block(s, s.desc[id].head) == {PAGE * s.desc[id].head})
  {
    var h := s.desc[id].head;
    UsedHead(s, id);
    if Single(s, h) {
      forall q: nat ensures SameBlock(s, h, q) <==> q == h { OwnedBlock(s, id, q); }
    }
  }

  lemma InBlock(s: State, h: nat, x: nat)
    ensures x in Block(s, h) <==> x == PAGE * (x / PAGE) && SameBlock(s, h, x / PAGE)
  {
    assert forall q: nat :: PAGE * q / PAGE == q;
  }

  /** What becomes of address x. */
  lemma ReturnsAt(s: State, h: nat, r: State, x: nat)
    requires Head(s, h) && Returns(s, h, r)
    ensures var m, m', a := View(s), View(r), PAGE * h;
      && (x in m'.used <==> x in m.used && x != a)
      && (x in m'.large <==> x in m.large && x != a)
      && (x in m'.large ==> m'.large[x] == m.large[x])
      && (x in m.lost <==> x in m'.lost)
      && (x in m'.pool <==> x in m.pool || x in Block(s, h))
  {
    var m, m' := View(s), View(r);
    if x in m.pool + m.used + m.large.Keys + m.lost { ViewMultiple(s, x); }
    if x in m'.pool + m'.used + m'.large.Keys + m'.lost { ViewMultiple(r, x); }
    InView(s, x / PAGE);
    InView(r, x / PAGE);
    InBlock(s, h, x);
    assert Here(x / PAGE);
    if x in m'.large { BlocksSame(s, r, x / PAGE); }
  }

  lemma ReturnsGiven(s: State, h: nat, r: State)
    requires Head(s, h) && Returns(s, h, r) && (Single(s, h) ==> Block(s, h) == {PAGE * h})
    ensures Given(View(s), PAGE * h, View(r))
  {
    var m, m', a := View(s), View(r), PAGE * h;
    InView(s, h);
    forall x: nat
      ensures x in m'.used <==> x in m.used && x != a
      ensures x in m'.large <==> x in m.large && x != a
      ensures x in m'.large ==> m'.large[x] == m.large[x]
      ensures x in m.lost <==> x in m'.lost
      ensures x in m'.pool <==> x in m.pool || x in Block(s, h)
    {
      ReturnsAt(s, h, r, x);
    }
    assert m'.large == m.large - {a};
  }

  lemma NoHead(s: State, h: nat)
    requires Inv(s, NONE) && FindUsed(s, h, 0) == |s.used|
    ensures !Head(s, h)
  {
    assert forall id: nat :: id in s.used ==> exists j: nat :: j < |s.used| && s.used[j] == id;
    assert forall id: nat :: id in s.used ==> s.desc[id].head != h;
    if Head(s, h) { HeadIsUsed(s, h); }
  }

  /** Freeing the first page of an allocated block gives all of the block back to the pool; freeing a
      page that starts no allocated block changes nothing. */
  lemma FreeView(s: State, h: nat)
    requires Good(s)
    ensures Given(View(s), PAGE * h, View(FreeAt(s, h)))
  {
    InView(s, h);
    var i := FindUsed(s, h, 0);
    if i < |s.used| {
      UsedHead(s, s.used[i]);
      ReturnOwners(s, s.used[i]);
      SingleBlock(s, s.used[i]);
      ReturnsGiven(s, h, FreeAt(s, h));
    } else {
      NoHead(s, h);
    }
  }

  /** An address that is not page aligned is no page's. */
  lemma NotAPage(s: State, a: nat)
    requires a % PAGE != 0
    ensures a !in View(s).used && a !in View(s).large
  {
    if a in View(s).pool + View(s).used + View(s).large.Keys + View(s).lost { ViewMultiple(s, a); }
  }

  lemma KeepsKeys(s: State, h: nat)
    requires Good(s)
    ensures FreeAt(s, h).owner.Keys == s.owner.Keys
  {
    var i := FindUsed(s, h, 0);
    if i < |s.used| { FreeTheorem(s, s.used[i]); }
  }

  lemma GivenAligned(s: State, a: nat, h: nat)
    requires Good(s) && a == PAGE * h
    ensures Given(View(s), a, View(FreeAt(s, h))) && FreeAt(s, h).owner.Keys == s.owner.Keys
  {
    FreeView(s, h);
    KeepsKeys(s, h);
  }

  /** The allocator as the source of single pages. */
  class FrameSource {
    const pmm: P.Pmm
    ghost var pages: Pages

    ghost predicate Valid()
      reads this, pmm, pmm.blocks
    {
      pmm.Valid() && Managed(pmm.st) && pages == View(pmm.st)
    }

    constructor (pmm: P.Pmm)
      requires pmm.Valid() && Managed(pmm.st)
      ensures Valid() && this.pmm == pmm && PagesOk(pages)
    {
      this.pmm := pmm;
      pages := View(pmm.st);
      new;
      ViewOk(pmm.st);
    }

    /** A page, or 0 if there is none. Page 0 is handed out like any other, and looks like none. */
    method Take() returns (a: nat)
      requires Valid()
      modifies this, pmm, pmm.blocks
      ensures Valid() && PagesOk(pages)
      ensures a == 0 <==> old(pages).pool == {} || ServesZero(old(pmm.st))
      ensures if old(pages).pool == {} then pages == old(pages) else IsFrame(a) && Taken(old(pages), a, pages)
    {
      ghost var s := pmm.st;
      ViewOk(s);
      AllocView(s);
      AllocTheorem(s, 0);
      a := pmm.Allocate(0);
      assert Managed(pmm.st);
      pages := View(pmm.st);
      ViewOk(pmm.st);
    }

    method Give(a: nat)
      requires Valid()
      modifies this, pmm, pmm.blocks
      ensures Valid() && PagesOk(pages) && Given(old(pages), a, pages)
    {
      ghost var s := pmm.st;
      if a % PAGE == 0 { GivenAligned(s, a, a / PAGE); } else { NotAPage(s, a); }
      pmm.Deallocate(a, 0);
      assert pmm.st == if a % PAGE == 0 then FreeAt(s, a / PAGE) else s;
      pages := View(pmm.st);
      ViewOk(pmm.st);
    }

  }
}
