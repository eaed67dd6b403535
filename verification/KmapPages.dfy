/** Mapping and unmapping ranges of pages (kmap_map_pages, kmap_unmap_pages, kmap_modify_flags). */
module KmapPages {
  import opened Bits
  import opened PteBits
  import opened PageTables
  import opened TableTree
  import opened TableRights
  import opened Frames
  import opened Ownership
  import opened KmapSteps
  import opened KmapRegion
  import opened Kmap

  /** The pages are not mapped any more, all others as before. */
  ghost predicate Cleared(k: Tables, ks: seq<Key>, k': Tables)
  {
    forall b :: Lookup(k', b) == if b in ks then Absent else Lookup(k, b)
  }

  /** Page p is not the allocator's, and no table. */
  ghost predicate Foreign(k: Tables, m: Pages, p: nat)
  {
    p !in m.pool && p !in m.used && p !in m.large && p !in k.mem && p !in k.rest
  }

  // ---------------------------------------------------------------- unmapping

  lemma FromFreed(k0: Tables, m0: Pages, k: Tables, m: Pages, a: Key, phys: nat, k': Tables, m': Pages)
    requires From(k0, m0, k, m) && Lookup(k0, a) == Absent && Freed(k, m, a, phys, k0, k', m')
    ensures From(k0, m0, k', m')
  {
    if Lookup(k, a).To? { FromUnmapped(k0, m0, k, m, a, phys, k', m'); }
  }

  /** The frames that pages ks are mapped to. */
  ghost function FramesBehind(k: Tables, ks: seq<Key>): set<nat>
  {
    set b | b in ks && Lookup(k, b).To? :: Lookup(k, b).phys
  }

  /** From (k, m), exactly the pages ks were unmapped; given back were their frames and the tables
      that are gone, as far as they had been handed out one by one. Pages that are still mapped have
      the rights they had. */
  ghost predicate Unmapping(k: Tables, m: Pages, ks: seq<Key>, k0: Tables, m0: Pages, k': Tables, m': Pages)
  {
    && Cleared(k, ks, k') && KeepsWays(k, k')
    && (forall t :: t in k'.up ==> t in k.up && k'.up[t] == k.up[t])
    && Returned(m, NewTables(k', k) + FramesBehind(k, ks), m')
    && (Full(k) ==> Full(k')) && (Vacant(k, ks) ==> k' == k && m' == m)
    && (From(k0, m0, k, m) && Vacant(k0, ks) ==> From(k0, m0, k', m'))
  }

  lemma UnmappingNone(k: Tables, m: Pages, k0: Tables, m0: Pages)
    ensures Unmapping(k, m, [], k0, m0, k, m)
  {
    assert NewTables(k, k) + FramesBehind(k, []) == {};
  }

  lemma ReturnedTwice(m: Pages, x: set<nat>, m1: Pages, y: set<nat>, m2: Pages)
    requires Returned(m, x, m1) && Returned(m1, y, m2)
    ensures Returned(m, x + y, m2)
  {
    assert m.used - x - y == m.used - (x + y);
    assert x * m.used + y * (m.used - x) == (x + y) * m.used;
  }

  lemma FramesNext(k: Tables, ks: seq<Key>, a: Key)
    ensures FramesBehind(k, ks + [a]) == FramesBehind(k, ks) + (if Lookup(k, a).To? then {Lookup(k, a).phys} else {})
  {
  }

  lemma UnmappingReturns(k: Tables, m: Pages, ks: seq<Key>, a: Key, phys: nat, k0: Tables,
                         k1: Tables, m1: Pages, k2: Tables, m2: Pages)
    requires Cleared(k, ks, k1) && (forall t :: t in k1.up ==> t in k.up && k1.up[t] == k.up[t])
    requires Returned(m, NewTables(k1, k) + FramesBehind(k, ks), m1) && Freed(k1, m1, a, phys, k0, k2, m2)
    ensures Returned(m, NewTables(k2, k) + FramesBehind(k, ks + [a]), m2)
  {
    var x := NewTables(k1, k) + FramesBehind(k, ks);
    FramesNext(k, ks, a);
    if Lookup(k1, a).To? {
      ReturnedTwice(m, x, m1, NewTables(k2, k1) + {phys}, m2);
      assert NewTables(k2, k) == NewTables(k1, k) + NewTables(k2, k1);
      assert x + (NewTables(k2, k1) + {phys}) == NewTables(k2, k) + FramesBehind(k, ks + [a]);
    } else if Lookup(k, a).To? {
      assert a in ks;
      assert FramesBehind(k, ks + [a]) == FramesBehind(k, ks);
    }
  }

  lemma ClearedStep(k: Tables, ks: seq<Key>, a: Key, k1: Tables, m1: Pages, phys: nat, k0: Tables, k2: Tables,
                    m2: Pages)
    requires Cleared(k, ks, k1) && Freed(k1, m1, a, phys, k0, k2, m2) && !Lookup(k, a).Other?
    ensures Cleared(k, ks + [a], k2)
    ensures Vacant(k, ks + [a]) ==> Vacant(k, ks) && k2 == k1 && m2 == m1
  {
    assert forall b :: b in ks + [a] <==> b in ks || b == a;
  }

  lemma UnmappingStep(k: Tables, m: Pages, ks: seq<Key>, a: Key, phys: nat, k0: Tables, m0: Pages,
                      k1: Tables, m1: Pages, k2: Tables, m2: Pages)
    requires Unmapping(k, m, ks, k0, m0, k1, m1) && Freed(k1, m1, a, phys, k0, k2, m2) && !Lookup(k, a).Other?
    ensures Unmapping(k, m, ks + [a], k0, m0, k2, m2)
  {
    ClearedStep(k, ks, a, k1, m1, phys, k0, k2, m2);
    UnmappingReturns(k, m, ks, a, phys, k0, k1, m1, k2, m2);
    KeepsWaysTrans(k, k1, k2);
    assert forall b :: b in ks + [a] <==> b in ks || b == a;
    if From(k0, m0, k, m) && Vacant(k0, ks + [a]) { FromFreed(k0, m0, k1, m1, a, phys, k2, m2); }
  }

  lemma OpenKey(k: Tables, ks: seq<Key>, a: Key)
    requires Open(k, ks) && a in ks
    ensures !Lookup(k, a).Other?
  {
  }

  /** Unmap every page of the range [start, end). */
  method UnmapPages(pm: PageMap, start: nat, end: nat, ghost ks: seq<Key>, ghost k0: Tables,
                    ghost m0: Pages) returns (r: int)
    requires pm.Valid() && Span(start, end, ks) && Open(pm.tab, ks)
    modifies pm, pm.frames, pm.frames.pmm, pm.frames.pmm.blocks
    ensures pm.Valid() && r == 0
    ensures Unmapping(old(pm.tab), old(pm.frames.pages), ks, k0, m0, pm.tab, pm.frames.pages)
  {
    ghost var k, m := pm.tab, pm.frames.pages;
    ghost var done: seq<Key> := [];
    TrailStart(ks, start, end);
    UnmappingNone(k, m, k0, m0);
    var addr := start;
    while addr < end
      invariant Trail(ks, done, start, addr, end)
      invariant pm.Valid() && Unmapping(k, m, done, k0, m0, pm.tab, pm.frames.pages)
    {
      addr, done := UnmapNext(pm, start, addr, end, ks, done, k, m, k0, m0);
    }
    TrailEnd(ks, done, start, addr, end);
    r := 0;
  }

  /** Unmap the page at addr. */
  method UnmapNext(pm: PageMap, ghost start: nat, addr: nat, ghost end: nat, ghost ks: seq<Key>, ghost done: seq<Key>,
                   ghost k: Tables, ghost m: Pages, ghost k0: Tables, ghost m0: Pages) returns (addr': nat,
                   ghost done': seq<Key>)
    requires pm.Valid() && Trail(ks, done, start, addr, end) && addr < end && Open(k, ks)
    requires Unmapping(k, m, done, k0, m0, pm.tab, pm.frames.pages)
    modifies pm, pm.frames, pm.frames.pmm, pm.frames.pmm.blocks
    ensures pm.Valid() && addr' > addr && Trail(ks, done', start, addr', end)
    ensures Unmapping(k, m, done', k0, m0, pm.tab, pm.frames.pages)
  {
    var a := KeyOf(addr);
    done' := TrailNext(ks, done, start, addr, end);
    addr' := addr + PAGE;
    OpenKey(k, ks, a);
    UnmapStep(pm, a, done, k, m, k0, m0);
  }

  method UnmapStep(pm: PageMap, a: Key, ghost ks: seq<Key>, ghost k: Tables, ghost m: Pages, ghost k0: Tables,
                   ghost m0: Pages)
    requires pm.Valid() && KeyOk(a) && Unmapping(k, m, ks, k0, m0, pm.tab, pm.frames.pages) && !Lookup(k, a).Other?
    modifies pm, pm.frames, pm.frames.pmm, pm.frames.pmm.blocks
    ensures pm.Valid() && Unmapping(k, m, ks + [a], k0, m0, pm.tab, pm.frames.pages)
  {
    ghost var k1, m1 := pm.tab, pm.frames.pages;
    var phys := pm.FreePage(a, k0);
    UnmappingStep(k, m, ks, a, phys, k0, m0, k1, m1, pm.tab, pm.frames.pages);
  }

  // ---------------------------------------------------------------- mapping

  /** The n frames from physical address base on are not the allocator's, and no tables. */
  ghost predicate ForeignRange(k: Tables, m: Pages, base: nat, n: nat)
  {
    forall i: nat {:trigger FrameAt(base, i)} :: i < n ==>
      FrameAt(base, i) < PHYS_END && Foreign(k, m, FrameAt(base, i))
  }

  /** If the frames of a range are given, they are not the allocator's. */
  ghost predicate BaseForeign(k: Tables, m: Pages, base: nat, n: nat)
  {
    OnPage(base, base) ==> ForeignRange(k, m, base, n)
  }

  function FrameAt(base: nat, i: nat): nat { base + PAGE * i }

  /** A frame of a direct range is on a page boundary. */
  predicate OnPage(base: nat, phys: nat) { base != 0 && phys % PAGE == 0 }

  predicate Misaligned(base: nat, phys: nat) { base != 0 && phys % PAGE != 0 }

  lemma ForeignKept(k: Tables, m: Pages, base: nat, n: nat, k': Tables, m': Pages)
    requires ForeignRange(k, m, base, n) && Sized(k) && Sized(k') && k'.root == k.root && k'.rest == k.rest
    requires PagesOk(m) && PagesOk(m') && Drawn(m, NewTables(k, k'), m')
    ensures ForeignRange(k', m', base, n)
  {
    forall p | Foreign(k, m, p) ensures Foreign(k', m', p) {
      assert p in m'.pool ==> p in m'.pool + m'.lost;
      assert p !in NewTables(k, k');
    }
  }

  /** What a failed attempt to map one page did to the pages. */
  ghost predicate OneFailed(m: Pages, misaligned: bool, m': Pages)
  {
    if misaligned then m' == m else Failed(m, 4, m')
  }

  /** The pages in use are as before, but page 0 if that was handed out. */
  ghost predicate SameButZero(m: Pages, m': Pages)
  {
    if ZeroLost(m, m') then ZeroGone(m, m') else SameUse(m, m')
  }

  /** Map one page of a range. */
  method MapOne(pm: PageMap, a: Key, base: nat, phys: nat, flags: nat, ghost n: nat) returns (r: int, ghost p: nat)
    requires pm.Valid() && KeyOk(a) && IsFlags(flags) && !Lookup(pm.tab, a).Other?
    requires OnPage(base, phys) ==> phys < PHYS_END && Foreign(pm.tab, pm.frames.pages, phys)
    requires OnPage(base, phys) ==> ForeignRange(pm.tab, pm.frames.pages, base, n)
    modifies pm, pm.frames, pm.frames.pmm, pm.frames.pmm.blocks
    ensures pm.Valid() && (r == 0 || r == -1)
    ensures r == 0 ==> OneDone(old(pm.tab), old(pm.frames.pages), a, base, p, flags, pm.tab, pm.frames.pages)
    ensures r == 0 && base != 0 ==> p == phys && phys % PAGE == 0 && ForeignRange(pm.tab, pm.frames.pages, base, n)
    ensures r != 0 ==> pm.tab == old(pm.tab)
    ensures r != 0 ==> OneFailed(old(pm.frames.pages), Misaligned(base, phys), pm.frames.pages)
  {
    ghost var k, m := pm.tab, pm.frames.pages;
    if base != 0 {
      r := pm.MapDirect(a, phys, flags);
      p := phys;
      if r == 0 {
        AtMostMore(NewTables(k, pm.tab), 3);
        ForeignKept(k, m, base, n, pm.tab, pm.frames.pages);
      } else if phys % PAGE == 0 {
        FailedMore(m, 3, pm.frames.pages);
      }
    } else {
      r, p := pm.AllocPage(a, flags);
      if r == 0 { AtMostOneMore(NewTables(k, pm.tab), 3, p); }
    }
  }

  lemma AtMostMore(x: set<nat>, n: nat)
    requires AtMost(x, n)
    ensures AtMost(x, n + 1)
  {
    var ts: seq<nat> :| |ts| <= n && Among(x, ts);
  }

  /** What a failed attempt to map the pages ks leaves behind: of the pages `done` that were
      mapped before the failure none is mapped any more. If the tables were clean there, they are
      as before, and so are the pages handed out, page 0 aside. */
  ghost predicate MapFailed(k: Tables, m: Pages, ks: seq<Key>, done: seq<Key>, base: nat, flags: nat, k': Tables,
                            m': Pages)
  {
    && done < ks && Cleared(k, done, k') && KeepsWays(k, k')
    && (Clean(k, done, flags) ==> k' == k && SameButZero(m, m')) && Within(k, m, k', m')
    && (Misaligned(base, base) || Scarce(m, 4 * |ks|, m') || ZeroLost(m, m'))
  }

  /** The pages from which the account of a failed attempt is kept. */
  ghost function Basis(m: Pages, m1: Pages, m2: Pages): Pages
  {
    if ZeroLost(m1, m2) then ZeroTaken(m) else m
  }

  lemma FromFailed(k: Tables, m: Pages, k1: Tables, m1: Pages, misaligned: bool, m2: Pages)
    requires From(k, m, k1, m1) && Tree(k1) && Owned(k1, m1) && PagesOk(m) && PagesOk(m1)
    requires OneFailed(m1, misaligned, m2)
    ensures From(k, Basis(m, m1, m2), k1, m2)
  {
    if ZeroLost(m1, m2) {
      FromZeroGone(k, m, k1, m1, m2);
    } else {
      FromSameUse(k, m, k1, m1, m2);
    }
  }

  /** Unmapping does not give page 0 back. */
  lemma ZeroStays(k1: Tables, m1: Pages, m2: Pages, ks: seq<Key>, k3: Tables, m3: Pages)
    requires Tree(k1) && Owned(k1, m1) && ZeroLost(m1, m2) && Returned(m2, NewTables(k3, k1) + FramesBehind(k1, ks), m3)
    ensures 0 in m3.used
  {
    forall b | b in ks && Lookup(k1, b).To? ensures Lookup(k1, b).phys != 0 { KeyMaps(k1, b); }
  }

  lemma WithinGivenUp(k: Tables, m: Pages, k1: Tables, m1: Pages, misaligned: bool, m2: Pages, ks: seq<Key>,
                      k3: Tables, m3: Pages)
    requires Within(k, m, k1, m1) && PagesOk(m2) && OneFailed(m1, misaligned, m2)
    requires Sized(k1) && Sized(k3) && k3.root == k1.root && (forall t :: t in k3.up ==> t in k1.up)
    requires Returned(m2, NewTables(k3, k1) + FramesBehind(k1, ks), m3)
    ensures Within(k, m, k3, m3)
  {
    if !misaligned { WithinFailed(k1, m1, 4, m2); }
    WithinReturned(k1, m2, NewTables(k3, k1) + FramesBehind(k1, ks), k3, m3);
    WithinTrans(k1, m1, k1, m2, k3, m3);
    WithinTrans(k, m, k1, m1, k3, m3);
  }

  lemma MapFailedFacts(k: Tables, m: Pages, ks: seq<Key>, done: seq<Key>, fs: seq<nat>, base: nat, flags: nat,
                       k1: Tables, m1: Pages, m2: Pages, k3: Tables, m3: Pages)
    requires MapRun(k, m, done, fs, base, flags, k1, m1) && done < ks && Tree(k1) && Tree(k3) && k3.root == k1.root
    requires Owned(k1, m1) && PagesOk(m) && PagesOk(m1) && PagesOk(m2)
    requires OneFailed(m1, Misaligned(base, base), m2) && Unmapping(k1, m2, done, k, Basis(m, m1, m2), k3, m3)
    ensures MapFailed(k, m, ks, done, base, flags, k3, m3)
  {
    WithinGivenUp(k, m, k1, m1, Misaligned(base, base), m2, done, k3, m3);
    SameThenKeeps(k, k1, k3);
    if ZeroLost(m1, m2) { ZeroStays(k1, m1, m2, done, k3, m3); }
    if Clean(k, done, flags) { CleanAgain(k, m, done, Misaligned(base, base), k1, m1, m2, k3, m3); }
    if !ZeroLost(m1, m2) && !Misaligned(base, base) { ScarceRun(m, 4 * |done|, m1, m3, 4 * |ks|); }
  }

  /** Tables without empty ones are as before once the pages are unmapped. */
  lemma CleanAgain(k: Tables, m: Pages, done: seq<Key>, misaligned: bool, k1: Tables, m1: Pages, m2: Pages,
                   k3: Tables, m3: Pages)
    requires From(k, m, k1, m1) && Vacant(k, done) && Framed(k, done, k1) && Tree(k1) && Tree(k3) && Owned(k1, m1)
    requires PagesOk(m) && PagesOk(m1) && m1.pool <= m.pool && OneFailed(m1, misaligned, m2)
    requires Unmapping(k1, m2, done, k, Basis(m, m1, m2), k3, m3)
    ensures k3 == k && SameButZero(m, m3)
  {
    FromFailed(k, m, k1, m1, misaligned, m2);
    FromBack(k, Basis(m, m1, m2), k3, m3);
    BackButZero(m, m1, m2, m3);
  }

  lemma BackButZero(m: Pages, m1: Pages, m2: Pages, m3: Pages)
    requires PagesOk(m) && m1.pool <= m.pool && SameUse(Basis(m, m1, m2), m3)
    ensures SameButZero(m, m3)
  {
    if ZeroLost(m1, m2) { ZeroTakenBack(m, m3); }
  }

  lemma ScarceRun(m: Pages, n: nat, m1: Pages, m2: Pages, n': nat)
    requires Spent(m, n, m1) && Scarce(m1, 4, m2) && m1.lost <= m2.lost && n + 4 <= n'
    ensures Scarce(m, n', m2)
  {
    var gone, left := m.pool - (m1.pool + m1.lost), m1.pool - m2.lost;
    AtMostSum(gone, n, left, 3);
    forall q | q in m.pool - m2.lost ensures q in gone + left { }
    AtMostFewer(m.pool - m2.lost, gone + left, n + 3);
    var ts: seq<nat> :| |ts| <= n + 3 && Among(m.pool - m2.lost, ts);
  }

  /** Map one more page of a range. */
  method MapAt(pm: PageMap, a: Key, base: nat, phys: nat, flags: nat, ghost n: nat,
               ghost k: Tables, ghost m: Pages, ghost done: seq<Key>, ghost fs: seq<nat>) returns (r: int, ghost p: nat)
    requires pm.Valid() && KeyOk(a) && IsFlags(flags) && |fs| == |done| < n && phys == base + PAGE * |fs|
    requires PagesOk(m) && MapRun(k, m, done, fs, base, flags, pm.tab, pm.frames.pages) && !Lookup(pm.tab, a).Other?
    requires OnPage(base, base) ==> ForeignRange(pm.tab, pm.frames.pages, base, n)
    modifies pm, pm.frames, pm.frames.pmm, pm.frames.pmm.blocks
    ensures pm.Valid() && (r == 0 || r == -1)
    ensures r == 0 ==> MapRun(k, m, done + [a], fs + [p], base, flags, pm.tab, pm.frames.pages)
    ensures r == 0 && base != 0 ==> ForeignRange(pm.tab, pm.frames.pages, base, n)
    ensures r != 0 ==> pm.tab == old(pm.tab)
    ensures r != 0 ==> OneFailed(old(pm.frames.pages), Misaligned(base, base), pm.frames.pages)
  {
    ghost var k1, m1 := pm.tab, pm.frames.pages;
    SameOffset(base, |fs|, phys);
    r, p := MapOne(pm, a, base, phys, flags, n);
    if r == 0 { MapRunStep(k, m, done, fs, base, flags, k1, m1, a, p, pm.tab, pm.frames.pages); }
  }

  lemma SameOffset(base: nat, i: nat, phys: nat)
    requires phys == base + PAGE * i
    ensures OnPage(base, phys) == OnPage(base, base) && Misaligned(base, phys) == Misaligned(base, base)
    ensures FrameAt(base, i) == phys
  {
  }

  /** A page of the range that is mapped now has an entry in the tree, the others one as before. */
  lemma OpenRun(k: Tables, m: Pages, ks: seq<Key>, done: seq<Key>, fs: seq<nat>, base: nat, flags: nat, k1: Tables,
                m1: Pages)
    requires Open(k, ks) && MapRun(k, m, done, fs, base, flags, k1, m1)
    ensures Open(k1, ks) && Open(k1, done)
  {
    forall b | b in ks || b in done ensures !Lookup(k1, b).Other? {
      if b in done { assert PlacedAt(k1, done, fs, flags, b); }
    }
  }

  /** Unmap the pages that were mapped before a failure at address addr. */
  method GiveUp(pm: PageMap, start: nat, addr: nat, ghost end: nat, ghost ks: seq<Key>, ghost done: seq<Key>,
                ghost fs: seq<nat>,
                ghost base: nat, ghost flags: nat, ghost k: Tables, ghost m: Pages, ghost m1: Pages) returns (r: int)
    requires pm.Valid() && Span(start, end, ks) && Trail(ks, done, start, addr, end) && done < ks && Open(k, ks)
    requires MapRun(k, m, done, fs, base, flags, pm.tab, m1) && Owned(pm.tab, m1) && PagesOk(m) && PagesOk(m1)
    requires OneFailed(m1, Misaligned(base, base), pm.frames.pages)
    modifies pm, pm.frames, pm.frames.pmm, pm.frames.pmm.blocks
    ensures pm.Valid() && r == -1 && MapFailed(k, m, ks, done, base, flags, pm.tab, pm.frames.pages)
  {
    ghost var k1, m2 := pm.tab, pm.frames.pages;
    TrailSpan(ks, done, start, addr, end);
    OpenRun(k, m, ks, done, fs, base, flags, k1, m1);
    r := UnmapPages(pm, start, addr, done, k, Basis(m, m1, m2));
    MapFailedFacts(k, m, ks, done, fs, base, flags, k1, m1, m2, pm.tab, pm.frames.pages);
    r := -1;
  }

  /** The pages `done` of the range are mapped, and addr is the next one's address. */
  ghost predicate MapLoop(k: Tables, m: Pages, ks: seq<Key>, done: seq<Key>, fs: seq<nat>, start: nat, addr: nat,
                          end: nat,
                          base: nat, flags: nat, k': Tables, m': Pages)
  {
    && Trail(ks, done, start, addr, end)
    && MapRun(k, m, done, fs, base, flags, k', m')
    && BaseForeign(k', m', base, |ks|)
  }

  lemma MapLoopStart(k: Tables, m: Pages, ks: seq<Key>, start: nat, end: nat, base: nat, flags: nat)
    requires Span(start, end, ks) && BaseForeign(k, m, base, |ks|)
    ensures MapLoop(k, m, ks, [], [], start, start, end, base, flags, k, m)
  {
    TrailStart(ks, start, end);
    MapRunNone(k, m, base, flags);
  }

  lemma MapLoopEnd(k: Tables, m: Pages, ks: seq<Key>, done: seq<Key>, fs: seq<nat>, start: nat, addr: nat, end: nat,
                   base: nat, flags: nat, k': Tables, m': Pages)
    requires MapLoop(k, m, ks, done, fs, start, addr, end, base, flags, k', m') && addr >= end
    ensures MapRun(k, m, ks, fs, base, flags, k', m')
  {
    TrailEnd(ks, done, start, addr, end);
  }

  /** Map the page at addr, or unmap those before it if that fails. */
  method MapNext(pm: PageMap, start: nat, addr: nat, ghost end: nat, base: nat, flags: nat, ghost ks: seq<Key>,
                 ghost k: Tables, ghost m: Pages, ghost done: seq<Key>, ghost fs: seq<nat>)
    returns (r: int, addr': nat, ghost done': seq<Key>, ghost fs': seq<nat>)
    requires pm.Valid() && IsFlags(flags) && PagesOk(m) && Span(start, end, ks) && addr < end && Open(k, ks)
    requires MapLoop(k, m, ks, done, fs, start, addr, end, base, flags, pm.tab, pm.frames.pages)
    modifies pm, pm.frames, pm.frames.pmm, pm.frames.pmm.blocks
    ensures pm.Valid() && (r == 0 || r == -1)
    ensures addr' > addr
    ensures (r == 0 ==> MapLoop(k, m, ks, done', fs', start, addr', end, base, flags, pm.tab, pm.frames.pages))
    ensures r != 0 ==> MapFailed(k, m, ks, done', base, flags, pm.tab, pm.frames.pages)
  {
    ghost var p, m1 := 0, pm.frames.pages;
    addr' := addr + PAGE;
    done' := TrailNext(ks, done, start, addr, end);
    OpenNext(k, m, ks, done, fs, base, flags, pm.tab, m1, KeyOf(addr), start, addr, end);
    var phys := base + (addr - start);
    r, p := MapAt(pm, KeyOf(addr), base, phys, flags, |ks|, k, m, done, fs);
    fs' := fs + [p];
    if r == 0 {
      MapLoopNext(k, m, ks, done', fs', start, addr', end, base, flags, pm.tab, pm.frames.pages);
    } else {
      done' := done;
      r := GiveUp(pm, start, addr, end, ks, done, fs, base, flags, k, m, m1);
    }
  }

  lemma OpenNext(k: Tables, m: Pages, ks: seq<Key>, done: seq<Key>, fs: seq<nat>, base: nat, flags: nat, k1: Tables,
                 m1: Pages,
                 a: Key, start: nat, addr: nat, end: nat)
    requires Open(k, ks) && MapRun(k, m, done, fs, base, flags, k1, m1) && a in ks && done < ks
    requires Trail(ks, done, start, addr, end)
    ensures !Lookup(k1, a).Other? && |fs| == |done| < |ks| && start <= addr && addr - start == PAGE * |fs|
  {
    OpenRun(k, m, ks, done, fs, base, flags, k1, m1);
  }

  lemma MapLoopNext(k: Tables, m: Pages, ks: seq<Key>, done: seq<Key>, fs: seq<nat>, start: nat, addr: nat, end: nat,
                    base: nat, flags: nat, k': Tables, m': Pages)
    requires Trail(ks, done, start, addr, end) && MapRun(k, m, done, fs, base, flags, k', m')
    requires base != 0 ==> ForeignRange(k', m', base, |ks|)
    ensures MapLoop(k, m, ks, done, fs, start, addr, end, base, flags, k', m')
  {
  }

  /** Map every page of the range [start, end): to consecutive frames from physical address base
      on, or to pages of the allocator if base is 0. On failure, unmap what was mapped so far. */
  method MapPages(pm: PageMap, start: nat, end: nat, base: nat, flags: nat, ghost ks: seq<Key>)
    returns (r: int, ghost fs: seq<nat>, ghost done: seq<Key>)
    requires pm.Valid() && IsFlags(flags) && Span(start, end, ks) && Open(pm.tab, ks)
    requires BaseForeign(pm.tab, pm.frames.pages, base, |ks|)
    modifies pm, pm.frames, pm.frames.pmm, pm.frames.pmm.blocks
    ensures pm.Valid() && (r == 0 || r == -1)
    ensures r == 0 ==> MapRun(old(pm.tab), old(pm.frames.pages), ks, fs, base, flags, pm.tab, pm.frames.pages)
    ensures r != 0 ==> MapFailed(old(pm.tab), old(pm.frames.pages), ks, done, base, flags, pm.tab, pm.frames.pages)
  {
    ghost var k, m := pm.tab, pm.frames.pages;
    done, fs := [], [];
    var addr := start;
    MapLoopStart(k, m, ks, start, end, base, flags);
    while addr < end
      invariant pm.Valid() && MapLoop(k, m, ks, done, fs, start, addr, end, base, flags, pm.tab, pm.frames.pages)
    {
      r, addr, done, fs := MapNext(pm, start, addr, end, base, flags, ks, k, m, done, fs);
      if r != 0 {
        return;
      }
    }
    MapLoopEnd(k, m, ks, done, fs, start, addr, end, base, flags, pm.tab, pm.frames.pages);
    r := 0;
  }

  /** Mapping a range and unmapping it again, or failing to map it, leaves the very same tables and
      the same pages handed out (page 0 aside, if that was handed out) if the flags have the present
      bit. Without it, pages taken for a range on demand are not given back. */
  method MapThenUnmap(pm: PageMap, start: nat, end: nat, base: nat, flags: nat, ghost ks: seq<Key>)
    returns (r: int, ghost fs: seq<nat>)
    requires pm.Valid() && IsFlags(flags) && Span(start, end, ks) && Tidy(pm.tab, ks)
    requires BaseForeign(pm.tab, pm.frames.pages, base, |ks|)
    modifies pm, pm.frames, pm.frames.pmm, pm.frames.pmm.blocks
    ensures pm.Valid()
    ensures Present(flags) ==> pm.tab == old(pm.tab) && SameButZero(old(pm.frames.pages), pm.frames.pages)
    ensures r == 0 && base == 0 && ks != [] ==> (SameUse(old(pm.frames.pages), pm.frames.pages) <==> Present(flags))
    ensures r == 0 && base == 0 && !Present(flags) ==> Leaked(old(pm.frames.pages), ks, fs, pm.frames.pages)
  {
    ghost var k, m := pm.tab, pm.frames.pages;
    ghost var done;
    r, fs, done := MapPages(pm, start, end, base, flags, ks);
    if r == 0 {
      ghost var k1, m1 := pm.tab, pm.frames.pages;
      OpenRun(k, m, ks, ks, fs, base, flags, k1, m1);
      var _ := UnmapPages(pm, start, end, ks, k, m);
      BackAgain(k, m, ks, fs, base, flags, k1, m1, pm.tab, pm.frames.pages);
    } else if Present(flags) {
      CleanPart(k, ks, done, flags);
    }
  }

  /** One page that was free is handed out for every page of ks. */
  ghost predicate Leaked(m: Pages, ks: seq<Key>, fs: seq<nat>, m': Pages)
  {
    |fs| == |ks| && forall i: nat :: i < |fs| ==> fs[i] in m.pool && fs[i] in m'.used
  }

  lemma BackAgain(k: Tables, m: Pages, ks: seq<Key>, fs: seq<nat>, base: nat, flags: nat, k1: Tables, m1: Pages,
                  k2: Tables, m2: Pages)
    requires Tidy(k, ks) && MapRun(k, m, ks, fs, base, flags, k1, m1) && Unmapping(k1, m1, ks, k, m, k2, m2)
    requires Tree(k2) && PagesOk(m)
    ensures Present(flags) ==> k2 == k && SameUse(m, m2) && SameButZero(m, m2)
    ensures !Present(flags) && base == 0 ==> Leaked(m, ks, fs, m2) && (ks != [] ==> !SameUse(m, m2))
  {
    if Present(flags) {
      FromBack(k, m, k2, m2);
    } else {
      forall b | b in ks ensures Lookup(k1, b) == Absent { assert PlacedAt(k1, ks, fs, flags, b); }
      if base == 0 && ks != [] { assert fs[0] in m.pool && fs[0] in m2.used; }
    }
  }

  // ---------------------------------------------------------------- flags without the present bit

  /** A root without entries, and the tables on the way to page 0 of the address space. */
  ghost function Bare(): Tables { Tables(0x1000, map[0x1000 := Zeros()], map[], map[]) }

  ghost function OneTable(): Tables { Attach(Bare(), 0x1000, 0, To(0x2000, TABLE_FLAGS)) }

  ghost function TwoTables(): Tables
    requires 0x2000 in OneTable().mem
  {
    Attach(OneTable(), 0x2000, 0, To(0x3000, TABLE_FLAGS))
  }

  ghost function ThreeTables(): Tables
    requires 0x2000 in OneTable().mem && 0x3000 in TwoTables().mem
  {
    Attach(TwoTables(), 0x3000, 0, To(0x4000, TABLE_FLAGS))
  }

  lemma BareTree()
    ensures Tree(Bare()) && Full(Bare())
    ensures forall b :: Lookup(Bare(), b) == Absent
  {
    var k := Bare();
    assert forall t, i: nat :: !Linked(k, t, i) && !Closed(k, t, i);
    forall b ensures Lookup(k, b) == Absent {
      assert On(k, b, 3);
      EndsLookup(k, b, 3);
    }
  }

  /** One empty table more maps nothing. */
  lemma NextTable(k: Tables, t: nat, c: nat)
    requires Tree(k) && t in k.mem && Level(k, t) > 0 && k.mem[t][0] == Absent && c !in k.mem && c !in k.rest
    requires forall b :: Lookup(k, b) == Absent
    ensures var k' := Attach(k, t, 0, To(c, TABLE_FLAGS));
      && Tree(k') && k'.mem.Keys == k.mem.Keys + {c} && k'.mem[c] == Zeros() && Level(k', c) == Level(k, t) - 1
      && k'.rest == k.rest && k'.up.Keys == k.up.Keys + {c} && k'.root == k.root
      && SameWays(k, k') && forall b :: Lookup(k', b) == Absent
  {
    var k', e := Attach(k, t, 0, To(c, TABLE_FLAGS)), To(c, TABLE_FLAGS);
    AttachFacts(k, t, 0, e);
    AttachTree(k, t, 0, e, k');
    AttachWays(k, t, 0, e, k');
    StillNothing(k, t, e, k');
  }

  lemma StillNothing(k: Tables, t: nat, e: Pte, k': Tables)
    requires Tree(k) && Attached(k, t, 0, e, k') && forall b :: Lookup(k, b) == Absent
    ensures forall b :: Lookup(k', b) == Absent
  {
    forall b ensures Lookup(k', b) == Absent { AttachLookup(k, t, 0, e, k', b); }
  }

  lemma TablesMade()
    ensures 0x2000 in OneTable().mem && 0x3000 in TwoTables().mem
    ensures var k := ThreeTables();
      && Tree(k) && k.root == 0x1000 && k.mem.Keys == {0x1000, 0x2000, 0x3000, 0x4000}
      && SameWays(Bare(), k) && forall b :: Lookup(k, b) == Absent
  {
    BareTree();
    NextTable(Bare(), 0x1000, 0x2000);
    NextTable(OneTable(), 0x2000, 0x3000);
    NextTable(TwoTables(), 0x3000, 0x4000);
    SameWaysTrans(Bare(), OneTable(), TwoTables());
    SameWaysTrans(Bare(), TwoTables(), ThreeTables());
  }

  const FOUR: set<nat> := {0x2000, 0x3000, 0x4000, 0x5000}

  /** A page mapped on demand without the present bit: four pages were free, and after mapping and
      unmapping none is, though nothing is mapped. */
  lemma LeakOnePage(a: Key)
    ensures 0x2000 in OneTable().mem && 0x3000 in TwoTables().mem && Tidy(Bare(), [a]) && !Present(0)
    ensures var k, k1, m, m1 := Bare(), ThreeTables(), Pages(FOUR, {}, map[], {}), Pages({}, FOUR, map[], {});
      && MapRun(k, m, [a], [0x5000], 0, 0, k1, m1) && Unmapping(k1, m1, [a], k, m, k1, m1)
      && Leaked(m, [a], [0x5000], m1) && !SameUse(m, m1)
  {
    BareTree();
    TablesMade();
    var k, k1, m, m1 := Bare(), ThreeTables(), Pages(FOUR, {}, map[], {}), Pages({}, FOUR, map[], {});
    assert Among(m.pool - (m1.pool + m1.lost), [0x2000, 0x3000, 0x4000, 0x5000]);
    assert [a][0] == a && [0x5000][0] == 0x5000;
    assert PlacedAt(k1, [a], [0x5000], 0, a);
    assert NewTables(k1, k1) + FramesBehind(k1, [a]) == {};
  }

  // ---------------------------------------------------------------- changing flags

  /** The mapped pages of ks keep their frames and have new flags; nothing else changed. */
  ghost predicate Reflagging(k: Tables, ks: seq<Key>, flags: nat, k': Tables)
  {
    && k'.up == k.up && SameWays(k, k')
    && (forall b ::
          Lookup(k', b) == if b in ks && Lookup(k, b).To? then Leaf(Lookup(k, b).phys, flags) else Lookup(k, b))
    && (Present(flags) && Full(k) ==> Full(k'))
  }

  lemma ReflaggingStep(k: Tables, ks: seq<Key>, a: Key, flags: nat, k1: Tables, k2: Tables)
    requires Reflagging(k, ks, flags, k1) && Reflagged(k1, a, flags, k2)
    ensures Reflagging(k, ks + [a], flags, k2)
  {
    SameWaysTrans(k, k1, k2);
    assert forall b :: b in ks + [a] <==> b in ks || b == a;
  }

  /** Give every mapped page of the range [start, end) other flags. */
  method ModifyFlags(pm: PageMap, start: nat, end: nat, flags: nat, ghost ks: seq<Key>) returns (r: int)
    requires pm.Valid() && IsFlags(flags) && Span(start, end, ks) && Open(pm.tab, ks)
    modifies pm
    ensures pm.Valid() && r == 0 && Reflagging(old(pm.tab), ks, flags, pm.tab)
  {
    ghost var k := pm.tab;
    ghost var done: seq<Key> := [];
    var addr := start;
    TrailStart(ks, start, end);
    while addr < end
      invariant Trail(ks, done, start, addr, end)
      invariant pm.Valid() && Reflagging(k, done, flags, pm.tab)
    {
      addr, done := ModifyNext(pm, start, addr, end, flags, ks, done, k);
    }
    TrailEnd(ks, done, start, addr, end);
    r := 0;
  }

  /** Give the page at addr other flags. */
  method ModifyNext(pm: PageMap, ghost start: nat, addr: nat, ghost end: nat, flags: nat, ghost ks: seq<Key>,
                    ghost done: seq<Key>,
                    ghost k: Tables) returns (addr': nat, ghost done': seq<Key>)
    requires pm.Valid() && IsFlags(flags) && Trail(ks, done, start, addr, end) && addr < end && Open(k, ks)
    requires Reflagging(k, done, flags, pm.tab)
    modifies pm
    ensures pm.Valid() && addr' > addr && Trail(ks, done', start, addr', end) && Reflagging(k, done', flags, pm.tab)
  {
    var a := KeyOf(addr);
    done' := TrailNext(ks, done, start, addr, end);
    addr' := addr + PAGE;
    OpenKey(k, ks, a);
    ModifyStep(pm, a, flags, done, k);
  }

  method ModifyStep(pm: PageMap, a: Key, flags: nat, ghost done: seq<Key>, ghost k: Tables)
    requires pm.Valid() && KeyOk(a) && IsFlags(flags) && Reflagging(k, done, flags, pm.tab) && !Lookup(k, a).Other?
    modifies pm
    ensures pm.Valid() && Reflagging(k, done + [a], flags, pm.tab)
  {
    ghost var k1 := pm.tab;
    pm.ModifyPage(a, flags);
    ReflaggingStep(k, done, a, flags, k1, pm.tab);
  }
}
