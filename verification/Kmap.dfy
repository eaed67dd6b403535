/** Mapping and unmapping pages: the page table code of kernel/kmap.c. */
module Kmap {
  import opened Bits
  import opened PteBits
  import opened PageTables
  import opened TableTree
  import opened Frames
  import opened Ownership
  import opened KmapSteps

  class PageMap {
    const frames: FrameSource
    const root: nat
    var words: Words
    ghost const start: Tables
    ghost var tab: Tables

    /** The tables in memory read as tab. What is not part of its tree, such as large pages and tables
        shared with others, is as it was at the start. */
    ghost predicate Valid()
      reads this, frames, frames.pmm, frames.pmm.blocks
    {
      && frames.Valid() && PagesOk(frames.pages)
      && tab.root == root && Tree(tab) && Reads(words, tab) && Owned(tab, frames.pages)
      && Tree(start) && Preserves(start, tab)
    }

    /** Take over the tables the processor uses. */
    constructor (frames: FrameSource, root: nat, words: Words, ghost tab: Tables)
      requires frames.Valid() && PagesOk(frames.pages)
      requires tab.root == root && Tree(tab) && Reads(words, tab) && Owned(tab, frames.pages)
      ensures Valid() && this.frames == frames && this.tab == tab && this.words == words && this.root == root
      ensures start == tab
    {
      this.start := tab;
      this.frames := frames;
      this.root := root;
      this.words := words;
      this.tab := tab;
    }

    // -------------------------------------------------------------- single entries

    function ReadEntry(t: nat, i: nat): (e: Pte)
      requires Sized(tab) && Reads(words, tab) && t in tab.mem && i < SLOTS && !Closed(tab, t, i)
      reads this
      ensures e == tab.mem[t][i] && (e.To? ==> IsFrame(e.phys))
    {
      Decode(words[t][i])
    }

    /** Clear a new page and enter it as a table. */
    method AddTable(t: nat, i: nat, p: nat)
      requires Sized(tab) && Reads(words, tab) && t in tab.mem && i < SLOTS && IsFrame(p)
      requires p !in tab.mem && p !in tab.rest
      modifies `words, `tab
      ensures tab == Attach(old(tab), t, i, To(p, TABLE_FLAGS)) && Reads(words, tab)
    {
      TableWord(p);
      var row: seq<nat> := words[t][i := Entry(p, TABLE_FLAGS)];
      var zeros: seq<nat> := seq(SLOTS, _ => 0);
      AttachReads(words, tab, t, i, Entry(p, TABLE_FLAGS), row, To(p, TABLE_FLAGS), zeros);
      words := words[p := zeros];
      words := words[t := row];
      tab := Attach(tab, t, i, To(p, TABLE_FLAGS));
    }

    /** Clear the entry of a table, whose page is no longer one. */
    method DropTable(t: nat, i: nat)
      requires Sized(tab) && Reads(words, tab) && Linked(tab, t, i)
      requires tab.mem[t][i].phys != t && tab.mem[t][i].phys in tab.mem
      modifies `words, `tab
      ensures tab == Detach(old(tab), t, i) && Reads(words, tab)
    {
      var c := PhysOf(words[t][i]);
      var row: seq<nat> := words[t][i := 0];
      DetachReads(words, tab, t, i, row, c);
      words := words[t := row] - {c};
      tab := Detach(tab, t, i);
    }

    method WriteEntry(t: nat, i: nat, w: nat)
      requires Sized(tab) && Reads(words, tab) && t in tab.mem && i < SLOTS
      modifies `words, `tab
      ensures tab == SetEntry(old(tab), t, i, Decode(w)) && Reads(words, tab)
    {
      var row: seq<nat> := words[t][i := w];
      SetReads(words, tab, t, i, w, row);
      words := words[t := row];
      tab := SetEntry(tab, t, i, Decode(w));
    }

    /** No entry of the table is present. */
    method TableEmpty(t: nat) returns (empty: bool)
      requires Sized(tab) && Reads(words, tab) && t in tab.mem
      ensures empty <==> forall i: nat :: !Busy(tab, t, i)
    {
      for i := 0 to SLOTS
        invariant forall j: nat :: j < i ==> !Busy(tab, t, j)
      {
        if Present(words[t][i]) {
          assert Busy(tab, t, i);
          return false;
        }
      }
      return true;
    }

    // -------------------------------------------------------------- creating tables

    /** The table below the level l table t on the way to a, created if it is missing. */
    method EnsureTable(a: Key, l: nat, t: nat) returns (ok: bool, c: nat, created: bool)
      requires Valid() && KeyOk(a) && 0 < l <= 3 && On(tab, a, l) && t == Tab(tab, a, l) && !Lookup(tab, a).Other?
      modifies this, frames, frames.pmm, frames.pmm.blocks
      ensures Valid()
      ensures ok ==> On(tab, a, l - 1) && Tab(tab, a, l - 1) == c && Linked(tab, t, Index(a, l))
      ensures ok ==> Lookup(tab, a) == Lookup(old(tab), a)
      ensures !created ==> tab == old(tab) && (ok ==> frames.pages == old(frames.pages))
      ensures !ok ==> !created && Failed(old(frames.pages), l, frames.pages)
      ensures created ==> Grew(old(tab), old(frames.pages), t, Index(a, l), c, tab, frames.pages)
      ensures ok && FullBut(old(tab), t) ==> FullBut(tab, c)
    {
      ghost var k, m := tab, frames.pages;
      TabLevel(tab, a, l);
      OpenEntry(tab, a, l);
      var e := ReadEntry(t, Index(a, l));
      if e.To? {
        EntryFull(tab, t, Index(a, l), e.phys);
        return true, e.phys, false;
      }
      ok, c := CreateTable(t, Index(a, l));
      created := ok;
      if ok {
        GrewOn(k, a, l, c, tab);
        AttachFullStep(k, t, Index(a, l), c, tab);
      } else {
        FailedTake(m, l, frames.pages);
      }
    }

    static lemma GrewOn(k: Tables, a: Key, l: nat, c: nat, k': Tables)
      requires Tree(k) && 0 < l <= 3 && On(k, a, l)
      requires Attached(k, Tab(k, a, l), Index(a, l), To(c, TABLE_FLAGS), k')
      ensures On(k', a, l - 1) && Tab(k', a, l - 1) == c && Lookup(k', a) == Lookup(k, a)
    {
      AttachLookup(k, Tab(k, a, l), Index(a, l), To(c, TABLE_FLAGS), k', a);
      AttachKeepsOn(k, Tab(k, a, l), Index(a, l), To(c, TABLE_FLAGS), k', a, l);
    }

    method CreateTable(t: nat, i: nat) returns (ok: bool, c: nat)
      requires Valid() && t in tab.mem && i < SLOTS && Level(tab, t) > 0 && tab.mem[t][i] == Absent
      modifies this, frames, frames.pmm, frames.pmm.blocks
      ensures Valid()
      ensures if ok then Grew(old(tab), old(frames.pages), t, i, c, tab, frames.pages)
              else tab == old(tab) && NotTaken(old(frames.pages), frames.pages)
    {
      ghost var k, m := tab, frames.pages;
      c := frames.Take();
      if m.pool != {} { TakeOwned(k, m, c, frames.pages); }
      if c == 0 {
        return false, 0;
      }
      HangUp(t, i, c);
      return true, c;
    }

    /** Enter page p, which is not in use, as a table. */
    method HangUp(t: nat, i: nat, p: nat)
      requires Valid() && t in tab.mem && i < SLOTS && Level(tab, t) > 0 && tab.mem[t][i] == Absent
      requires IsFrame(p) && p in frames.pages.used && Idle(tab, frames.pages, p)
      modifies this
      ensures Valid() && tab == Attach(old(tab), t, i, To(p, TABLE_FLAGS))
      ensures Attached(old(tab), t, i, To(p, TABLE_FLAGS), tab)
    {
      ghost var k := tab;
      AddTable(t, i, p);
      AttachFacts(k, t, i, To(p, TABLE_FLAGS));
      AttachTree(k, t, i, To(p, TABLE_FLAGS), tab);
      AttachOwned(k, frames.pages, t, i, To(p, TABLE_FLAGS), tab);
      AttachPreserves(start, k, t, i, To(p, TABLE_FLAGS), tab);
    }

    /** Take the empty table at entry i of t away and give its page back. */
    method Reclaim(t: nat, i: nat)
      requires Valid() && Linked(tab, t, i) && Level(tab, t) > 0
      requires forall j: nat :: !Busy(tab, tab.mem[t][i].phys, j)
      modifies this, frames, frames.pmm, frames.pmm.blocks
      ensures Valid() && tab == Detach(old(tab), t, i)
      ensures Attached(tab, t, i, old(tab).mem[t][i], old(tab))
      ensures GivenPage(old(frames.pages), old(tab).mem[t][i].phys, frames.pages)
    {
      ghost var k, m := tab, frames.pages;
      var e := ReadEntry(t, i);
      DetachFacts(k, t, i);
      DropTable(t, i);
      DetachTree(tab, t, i, e, k);
      DetachOwned(tab, m, t, i, e, k);
      DetachPreserves(start, tab, t, i, e, k);
      Release(e.phys);
    }

    /** The level 0 table on the way to a, from the level l table t down. Missing tables are
        created; if one cannot be, those created so far are taken away again. */
    method WalkCreate(a: Key, l: nat, t: nat) returns (ok: bool, pt: nat)
      requires Valid() && KeyOk(a) && l <= 3 && On(tab, a, l) && t == Tab(tab, a, l) && !Lookup(tab, a).Other?
      modifies this, frames, frames.pmm, frames.pmm.blocks
      ensures Valid() && WalkDone(old(tab), old(frames.pages), a, l, t, ok, pt, tab, frames.pages)
      decreases l, 1
    {
      if l == 0 {
        WalkedNone(tab, frames.pages);
        return true, t;
      }
      ok, pt := CreateBelow(a, l - 1, t);
    }

    /** The same for a table of level l + 1. */
    method CreateBelow(a: Key, l: nat, t: nat) returns (ok: bool, pt: nat)
      requires Valid() && KeyOk(a) && l < 3 && On(tab, a, l + 1) && t == Tab(tab, a, l + 1) && !Lookup(tab, a).Other?
      modifies this, frames, frames.pmm, frames.pmm.blocks
      ensures Valid() && WalkDone(old(tab), old(frames.pages), a, l + 1, t, ok, pt, tab, frames.pages)
      decreases l + 1, 0
    {
      ghost var k, m := tab, frames.pages;
      var created, c;
      ok, c, created := EnsureTable(a, l + 1, t);
      if !ok {
        return false, 0;
      }
      ghost var k1, m1 := tab, frames.pages;
      ok, pt := WalkCreate(a, l, c);
      if created && !ok {
        TakeBack(t, Index(a, l + 1), c, k, m, m1, l);
      } else if created {
        WalkDoneStep(k, m, a, l + 1, t, c, pt, k1, m1, tab, frames.pages);
      } else {
        WalkDoneMore(k, m, a, l + 1, t, c, ok, pt, tab, frames.pages);
      }
    }

    static lemma AttachFullStep(k: Tables, t: nat, i: nat, c: nat, k': Tables)
      requires Attached(k, t, i, To(c, TABLE_FLAGS), k')
      ensures FullBut(k, t) ==> FullBut(k', c)
    {
      if FullBut(k, t) { AttachFull(k, t, i, To(c, TABLE_FLAGS), k'); }
    }

    static lemma EntryFull(k: Tables, t: nat, i: nat, c: nat)
      requires Linked(k, t, i)
      ensures FullBut(k, t) ==> FullBut(k, c)
    {
      assert Busy(k, t, i);
    }

    /** Undo the creation of a table. */
    method TakeBack(t: nat, i: nat, c: nat, ghost k: Tables, ghost m: Pages, ghost m1: Pages, ghost n: nat)
      requires Valid() && Tree(k) && PagesOk(m) && PagesOk(m1) && Grew(k, m, t, i, c, tab, m1)
      requires Failed(m1, n, frames.pages)
      modifies this, frames, frames.pmm, frames.pmm.blocks
      ensures Valid() && tab == k && Failed(m, n + 1, frames.pages)
    {
      ghost var m2 := frames.pages;
      DetachAttach(k, t, i, To(c, TABLE_FLAGS));
      NewEmpty(k, t, i, To(c, TABLE_FLAGS), tab);
      Reclaim(t, i);
      UndoFailed(m, c, m1, n, m2, frames.pages);
    }

    // -------------------------------------------------------------- mapping a page

    /** Write the entry of page a. */
    method SetPage(a: Key, pt: nat, p: nat, flags: nat)
      requires Valid() && KeyOk(a) && On(tab, a, 0) && pt == Tab(tab, a, 0) && !Lookup(tab, a).Other?
      requires IsFrame(p) && IsFlags(flags) && (Present(flags) ==> Idle(tab, frames.pages, p))
      modifies this
      ensures Valid() && PageSet(old(tab), a, pt, Leaf(p, flags), tab)
    {
      PageSetFacts(tab, frames.pages, a, Leaf(p, flags));
      SetPreserves(start, tab, a, Leaf(p, flags));
      PageWord(p, flags);
      Put(pt, a.i0, Entry(p, flags), Leaf(p, flags), SetEntry(tab, pt, a.i0, Leaf(p, flags)));
    }

    /** Map page a to a page from the allocator. */
    method AllocPage(a: Key, flags: nat) returns (r: int, ghost p: nat)
      requires Valid() && KeyOk(a) && IsFlags(flags) && !Lookup(tab, a).Other?
      modifies this, frames, frames.pmm, frames.pmm.blocks
      ensures Valid()
      ensures r == 0 || r == -1
      ensures r != 0 ==> tab == old(tab) && Failed(old(frames.pages), 4, frames.pages)
      ensures r == 0 ==> Mapped(old(tab), a, Leaf(p, flags), tab)
      ensures r == 0 ==> Drawn(old(frames.pages), NewTables(old(tab), tab) + {p}, frames.pages)
      ensures r == 0 ==> AtMost(NewTables(old(tab), tab), 3)
    {
      ghost var k, m := tab, frames.pages;
      var page := frames.Take();
      p := page;
      ghost var m1 := frames.pages;
      if m.pool != {} { TakeOwned(k, m, page, m1); }
      if page == 0 {
        FailedTake(m, 4, m1);
        return -1, 0;
      }
      r := MapFrame(a, page, flags);
      if r != 0 {
        PutBack(page, m, m1, 3);
        return -1, 0;
      }
      DrawnStep(m, page, m1, NewTables(k, tab), frames.pages);
    }

    /** Give a page back that turned out not to be needed. */
    method PutBack(page: nat, ghost m: Pages, ghost m1: Pages, ghost n: nat)
      requires Valid() && PagesOk(m) && PagesOk(m1) && Taken(m, page, m1) && IsFrame(page)
      requires Failed(m1, n, frames.pages)
      requires Idle(tab, m1, page)
      modifies frames, frames.pmm, frames.pmm.blocks
      ensures Valid() && Failed(m, n + 1, frames.pages)
    {
      ghost var m2 := frames.pages;
      IdleFailed(tab, m1, n, m2, page);
      Release(page);
      UndoFailed(m, page, m1, n, m2, frames.pages);
    }

    /** Map page a to a given page that is not in use. */
    method MapDirect(a: Key, phys: nat, flags: nat) returns (r: int)
      requires Valid() && KeyOk(a) && IsFlags(flags) && !Lookup(tab, a).Other?
      requires phys % PAGE == 0 ==> phys < PHYS_END && Idle(tab, frames.pages, phys)
      modifies this, frames, frames.pmm, frames.pmm.blocks
      ensures Valid()
      ensures r == 0 || r == -1
      ensures r != 0 ==> tab == old(tab)
      ensures r != 0 ==>
        if phys % PAGE != 0 then frames.pages == old(frames.pages) else Failed(old(frames.pages), 3, frames.pages)
      ensures r == 0 ==> phys % PAGE == 0 && Mapped(old(tab), a, Leaf(phys, flags), tab)
      ensures r == 0 ==> Drawn(old(frames.pages), NewTables(old(tab), tab), frames.pages)
      ensures r == 0 ==> AtMost(NewTables(old(tab), tab), 3)
    {
      if !PageAligned(phys) {
        return -1;
      }
      r := MapFrame(a, phys, flags);
    }

    method MapFrame(a: Key, phys: nat, flags: nat) returns (r: int)
      requires Valid() && KeyOk(a) && IsFlags(flags) && IsFrame(phys) && Idle(tab, frames.pages, phys)
      requires !Lookup(tab, a).Other?
      modifies this, frames, frames.pmm, frames.pmm.blocks
      ensures Valid() && (r == 0 || r == -1)
      ensures MapDone(old(tab), old(frames.pages), a, phys, flags, r, tab, frames.pages)
    {
      ghost var k, m := tab, frames.pages;
      var ok, pt := WalkCreate(a, 3, root);
      if !ok {
        return -1;
      }
      FillIn(a, pt, phys, flags, k, m);
      r := 0;
    }

    /** Write the entry of page a at the end of a walk. */
    method FillIn(a: Key, pt: nat, phys: nat, flags: nat, ghost k: Tables, ghost m: Pages)
      requires Valid() && KeyOk(a) && On(tab, a, 0) && pt == Tab(tab, a, 0) && IsFrame(phys) && IsFlags(flags)
      requires Tree(k) && Idle(k, m, phys) && !Lookup(k, a).Other?
      requires WalkDone(k, m, a, 3, k.root, true, pt, tab, frames.pages)
      modifies this
      ensures Valid() && MapDone(k, m, a, phys, flags, 0, tab, frames.pages)
    {
      ghost var k1 := tab;
      IdleWalked(k, m, tab, frames.pages, 3, phys);
      SetPage(a, pt, phys, flags);
      MapDoneFacts(k, m, k1, frames.pages, a, pt, phys, flags, tab);
    }

    static predicate PageAligned(addr: nat): (r: bool)
      ensures r <==> addr % PAGE == 0
    {
      Pow2Values();
      AndMask(addr, 12);
      And(addr, PAGE - 1) == 0
    }

    // -------------------------------------------------------------- unmapping a page

    /** Clear the entry of page a and give its page back. */
    method ClearPage(a: Key, pt: nat, ghost k0: Tables) returns (phys: nat)
      requires Valid() && KeyOk(a) && On(tab, a, 0) && pt == Tab(tab, a, 0) && Lookup(tab, a).To?
      modifies this, frames, frames.pmm, frames.pmm.blocks
      ensures Valid() && On(tab, a, 0) && Tab(tab, a, 0) == pt
      ensures Removed(old(tab), old(frames.pages), a, pt, phys, true, k0, tab, frames.pages)
    {
      ghost var k' := ClearFacts(tab, frames.pages, a, pt, k0);
      SetPreserves(start, tab, a, Absent);
      var e := ReadEntry(pt, a.i0);
      phys := e.phys;
      Discard(pt, a.i0, phys, k');
      RemovedLeaf(old(tab), old(frames.pages), a, pt, phys, k0, tab, frames.pages);
    }

    /** Write an entry that turns the tables into k'. */
    method Put(t: nat, i: nat, w: nat, ghost e: Pte, ghost k': Tables)
      requires Valid() && t in tab.mem && i < |tab.mem[t]| && Decode(w) == e && k' == SetEntry(tab, t, i, e)
      requires Tree(k') && Owned(k', frames.pages) && Preserves(start, k') && !e.Other?
      modifies this
      ensures Valid() && tab == k'
    {
      WriteEntry(t, i, w);
    }

    /** Clear an entry and give its page back. */
    method Discard(t: nat, i: nat, phys: nat, ghost k': Tables)
      requires Valid() && t in tab.mem && i < |tab.mem[t]| && k' == SetEntry(tab, t, i, Absent)
      requires Tree(k') && Owned(k', frames.pages) && Preserves(start, k') && IsFrame(phys)
      requires Idle(k', frames.pages, phys)
      modifies this, frames, frames.pmm, frames.pmm.blocks
      ensures Valid() && tab == k' && GivenPage(old(frames.pages), phys, frames.pages)
    {
      Put(t, i, 0, Absent, k');
      Release(phys);
    }

    /** Give back a page that is no longer in use. */
    method Release(p: nat)
      requires Valid() && IsFrame(p) && Idle(tab, frames.pages, p)
      modifies frames, frames.pmm, frames.pmm.blocks
      ensures Valid() && GivenPage(old(frames.pages), p, frames.pages)
    {
      frames.Give(p);
      GiveOwned(tab, old(frames.pages), p, frames.pages);
    }

    /** Take the table c at the entry of a in t away if it is empty. */
    method Prune(a: Key, l: nat, t: nat, c: nat, ghost k0: Tables) returns (pruned: bool)
      requires Valid() && KeyOk(a) && l < 3 && On(tab, a, l) && c == Tab(tab, a, l) && t == Tab(tab, a, l + 1)
      modifies this, frames, frames.pmm, frames.pmm.blocks
      ensures Valid() && On(tab, a, l + 1) && Tab(tab, a, l + 1) == t
      ensures !pruned ==> tab == old(tab) && frames.pages == old(frames.pages) && exists i: nat :: Busy(tab, c, i)
      ensures pruned ==> Pruned(old(tab), old(frames.pages), t, c, tab, frames.pages)
      ensures Tree(k0) && Full(k0) && Extends(k0, old(tab)) ==> Extends(k0, tab)
    {
      TabLevel(tab, a, l);
      TabLevel(tab, a, l + 1);
      pruned := TableEmpty(c);
      if pruned {
        ghost var k, m, i := tab, frames.pages, Index(a, l + 1);
        Reclaim(t, Index(a, l + 1));
        PrunedFacts(tab, t, i, k.mem[t][i], k, a, l, k0);
      }
    }

    /** Unmap page a, walking from the level l table t down, and take tables that become empty
        away on the way back. Says whether the page was mapped, and whether an entry of t itself
        was cleared. */
    method Remove(a: Key, l: nat, t: nat, ghost k0: Tables) returns (found: bool, phys: nat, cleared: bool)
      requires Valid() && KeyOk(a) && l <= 3 && On(tab, a, l) && t == Tab(tab, a, l) && !Lookup(tab, a).Other?
      modifies this, frames, frames.pmm, frames.pmm.blocks
      ensures Valid() && On(tab, a, l) && Tab(tab, a, l) == t
      ensures found <==> Lookup(old(tab), a).To?
      ensures !found ==> tab == old(tab) && frames.pages == old(frames.pages) && phys == 0
      ensures found ==> Removed(old(tab), old(frames.pages), a, t, phys, cleared, k0, tab, frames.pages)
      decreases l, 1
    {
      TabLevel(tab, a, l);
      OpenEntry(tab, a, l);
      var e := ReadEntry(t, Index(a, l));
      if e.Absent? {
        NotOn(tab, a, l);
        return false, 0, false;
      }
      if l == 0 {
        EndsLookup(tab, a, 0);
        phys := ClearPage(a, t, k0);
        return true, phys, true;
      }
      found, phys, cleared := RemoveBelow(a, l - 1, t, e.phys, k0);
    }

    /** The same from the table c below t. */
    method RemoveBelow(a: Key, l: nat, t: nat, c: nat, ghost k0: Tables) returns (found: bool, phys: nat, cleared: bool)
      requires Valid() && KeyOk(a) && l < 3 && On(tab, a, l) && c == Tab(tab, a, l) && t == Tab(tab, a, l + 1)
      requires !Lookup(tab, a).Other?
      modifies this, frames, frames.pmm, frames.pmm.blocks
      ensures Valid() && On(tab, a, l + 1) && Tab(tab, a, l + 1) == t
      ensures found <==> Lookup(old(tab), a).To?
      ensures !found ==> tab == old(tab) && frames.pages == old(frames.pages) && phys == 0
      ensures found ==> Removed(old(tab), old(frames.pages), a, t, phys, cleared, k0, tab, frames.pages)
      decreases l + 1, 0
    {
      ghost var k, m := tab, frames.pages;
      found, phys, cleared := Remove(a, l, c, k0);
      if found {
        SameParent(k, tab, a, l);
        cleared := PruneAfter(a, l, t, c, cleared, phys, k, m, k0);
      }
    }

    method PruneAfter(a: Key, l: nat, t: nat, c: nat, check: bool, ghost phys: nat, ghost k: Tables, ghost m: Pages,
                      ghost k0: Tables)
      returns (cleared: bool)
      requires Valid() && KeyOk(a) && l < 3 && On(tab, a, l) && c == Tab(tab, a, l) && t == Tab(tab, a, l + 1)
      requires Removed(k, m, a, c, phys, check, k0, tab, frames.pages)
      modifies this, frames, frames.pmm, frames.pmm.blocks
      ensures Valid() && On(tab, a, l + 1) && Tab(tab, a, l + 1) == t
      ensures Removed(k, m, a, t, phys, cleared, k0, tab, frames.pages)
    {
      ghost var k1, m1 := tab, frames.pages;
      cleared := false;
      if check {
        cleared := Prune(a, l, t, c, k0);
      }
      if cleared {
        RemovedPruned(k, m, a, t, c, phys, k0, k1, m1, tab, frames.pages);
      } else {
        RemovedKept(k, m, a, t, c, phys, check, k0, tab, frames.pages);
      }
    }

    static lemma SameParent(k: Tables, k': Tables, a: Key, l: nat)
      requires Tree(k) && Tree(k') && l < 3 && On(k, a, l) && On(k', a, l) && Tab(k, a, l) == Tab(k', a, l)
      requires forall t :: t in k'.up ==> t in k.up && k'.up[t] == k.up[t]
      ensures Tab(k', a, l + 1) == Tab(k, a, l + 1)
    {
      TabLevel(k, a, l);
      TabLevel(k', a, l);
    }

    /** Unmap page a and give back its page and the tables that become empty. The result is the
        address of the page, or 0 if none was mapped. */
    method FreePage(a: Key, ghost k0: Tables) returns (phys: nat)
      requires Valid() && KeyOk(a) && !Lookup(tab, a).Other?
      modifies this, frames, frames.pmm, frames.pmm.blocks
      ensures Valid() && Freed(old(tab), old(frames.pages), a, phys, k0, tab, frames.pages)
    {
      var found, cleared;
      found, phys, cleared := Remove(a, 3, root, k0);
    }

    // -------------------------------------------------------------- changing flags

    /** The level 0 table on the way to a, from the level l table t down, if it is there. */
    method Walk(a: Key, l: nat, t: nat) returns (ok: bool, pt: nat)
      requires Valid() && KeyOk(a) && l <= 3 && On(tab, a, l) && t == Tab(tab, a, l) && !Lookup(tab, a).Other?
      ensures ok <==> On(tab, a, 0)
      ensures ok ==> pt == Tab(tab, a, 0)
      decreases l
    {
      if l == 0 {
        return true, t;
      }
      TabLevel(tab, a, l);
      OpenEntry(tab, a, l);
      var e := ReadEntry(t, Index(a, l));
      if e.Absent? {
        WalkEnds(tab, a, l);
        return false, 0;
      }
      LinkedOn(tab, a, l);
      ok, pt := Walk(a, l - 1, e.phys);
    }

    static lemma LinkedOn(k: Tables, a: Key, l: nat)
      requires 0 < l <= 3 && On(k, a, l) && Linked(k, Tab(k, a, l), Index(a, l))
      ensures On(k, a, l - 1) && Tab(k, a, l - 1) == k.mem[Tab(k, a, l)][Index(a, l)].phys
    {
    }

    method IsMapped(a: Key) returns (mapped: bool)
      requires Valid() && KeyOk(a) && !Lookup(tab, a).Other?
      ensures mapped <==> Lookup(tab, a).To?
    {
      var ok, pt := Walk(a, 3, root);
      if ok {
        TabLevel(tab, a, 0);
        OpenEntry(tab, a, 0);
        EndsLookup(tab, a, 0);
        mapped := ReadEntry(pt, a.i0).To?;
      } else {
        if Lookup(tab, a).To? { LookupTo(tab, a); }
        mapped := false;
      }
    }

    /** Give page a other flags, if it is mapped. */
    method ModifyPage(a: Key, flags: nat)
      requires Valid() && KeyOk(a) && IsFlags(flags) && !Lookup(tab, a).Other?
      modifies this
      ensures Valid() && Reflagged(old(tab), a, flags, tab)
    {
      var ok, pt := Walk(a, 3, root);
      if !ok && Lookup(tab, a).To? { LookupTo(tab, a); }
      if ok {
        TabLevel(tab, a, 0);
        OpenEntry(tab, a, 0);
        EndsLookup(tab, a, 0);
        var e := ReadEntry(pt, a.i0);
        if e.To? {
          SetPreserves(start, tab, a, Leaf(e.phys, flags));
          ghost var k' := ReflagFacts(tab, frames.pages, a, pt, flags);
          PageWord(e.phys, flags);
          Put(pt, a.i0, Entry(e.phys, flags), Leaf(e.phys, flags), k');
        }
      }
    }
  }
}
