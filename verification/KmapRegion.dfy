/** Ranges of pages, and the accounts of the pages that a range takes. */
module KmapRegion {
  import opened Bits
  import opened PteBits
  import opened Seqs
  import opened PageTables
  import opened TableTree
  import opened TableRights
  import opened Frames
  import opened Ownership
  import opened KmapSteps

  // ---------------------------------------------------------------- virtual addresses

  /** The index of an address into the table of a level. */
  function PtIndex(addr: nat, level: nat): nat
    requires level <= 3
  {
    (if level == 0 then addr / 0x1000 else if level == 1 then addr / 0x20_0000
     else if level == 2 then addr / 0x4000_0000 else addr / 0x80_0000_0000) % SLOTS
  }

  function KeyOf(addr: nat): (a: Key)
    ensures KeyOk(a)
  {
    Key(PtIndex(addr, 3), PtIndex(addr, 2), PtIndex(addr, 1), PtIndex(addr, 0))
  }

  const PAGES: nat := 0x10_0000_0000     // 2^36 pages, 2^48 bytes

  /** The page of an address within the address space, put together from the indices. */
  lemma KeyValue(addr: nat)
    ensures var a := KeyOf(addr); addr / PAGE % PAGES == a.i0 + 0x200 * a.i1 + 0x4_0000 * a.i2 + 0x800_0000 * a.i3
  {
    Quotients(addr);
    Digits(addr / PAGE);
  }

  lemma Quotients(addr: nat)
    ensures addr / 0x20_0000 == addr / PAGE / 0x200
    ensures addr / 0x4000_0000 == addr / PAGE / 0x200 / 0x200
    ensures addr / 0x80_0000_0000 == addr / PAGE / 0x200 / 0x200 / 0x200
  {
  }

  lemma Digits(q: nat)
    ensures var q1 := q / 0x200; var q2 := q1 / 0x200; var q3 := q2 / 0x200;
      q % PAGES == q % 0x200 + 0x200 * (q1 % 0x200) + 0x4_0000 * (q2 % 0x200) + 0x800_0000 * (q3 % 0x200)
  {
    var q1 := q / 0x200;
    var q2 := q1 / 0x200;
    var q3 := q2 / 0x200;
    var d := q % 0x200 + 0x200 * (q1 % 0x200) + 0x4_0000 * (q2 % 0x200) + 0x800_0000 * (q3 % 0x200);
    assert q2 == 0x200 * q3 + q2 % 0x200;
    assert q1 == 0x200 * q2 + q1 % 0x200;
    assert q == 0x200 * q1 + q % 0x200;
    assert q == PAGES * (q3 / 0x200) + d;
    Remainder(q, q3 / 0x200, d);
  }

  lemma Remainder(q: nat, h: nat, d: nat)
    requires q == PAGES * h + d && d < PAGES
    ensures q % PAGES == d
  {
  }

  /** ks are the pages of the range [start, end). */
  ghost predicate Span(start: nat, end: nat, ks: seq<Key>)
    decreases |ks|
  {
    if start >= end then start == end && ks == []
    else ks != [] && ks[0] == KeyOf(start) && Span(start + PAGE, end, ks[1..])
  }

  /** Of the pages ks from start on, those of `done` come before address addr and the others span
      [addr, end). */
  ghost predicate Trail(ks: seq<Key>, done: seq<Key>, start: nat, addr: nat, end: nat)
  {
    done <= ks && addr == start + PAGE * |done| && Span(addr, end, ks[|done|..])
  }

  lemma TrailStart(ks: seq<Key>, start: nat, end: nat)
    requires Span(start, end, ks)
    ensures Trail(ks, [], start, start, end)
  {
    assert ks[0..] == ks;
  }

  lemma TrailNext(ks: seq<Key>, done: seq<Key>, start: nat, addr: nat, end: nat) returns (done': seq<Key>)
    requires Trail(ks, done, start, addr, end) && addr < end
    ensures done < ks && done' == done + [KeyOf(addr)] && Trail(ks, done', start, addr + PAGE, end)
    ensures KeyOf(addr) in ks
  {
    done' := done + [KeyOf(addr)];
    var n := |done|;
    assert ks[n..][0] == ks[n] && ks[n..][1..] == ks[n + 1..];
  }

  lemma TrailEnd(ks: seq<Key>, done: seq<Key>, start: nat, addr: nat, end: nat)
    requires Trail(ks, done, start, addr, end) && addr >= end
    ensures done == ks
  {
    assert ks[|done|..] == [];
  }

  /** What has been passed spans the range up to addr. */
  lemma {:induction false} TrailSpan(ks: seq<Key>, done: seq<Key>, start: nat, addr: nat, end: nat)
    requires Span(start, end, ks) && Trail(ks, done, start, addr, end)
    ensures Span(start, addr, done)
    decreases |done|
  {
    if done != [] {
      SpanLength(addr, end, ks[|done|..]);
      assert ks[1..][..|done| - 1] == done[1..] && ks[1..][|done| - 1..] == ks[|done|..];
      TrailSpan(ks[1..], done[1..], start + PAGE, addr, end);
    }
  }

  lemma {:induction false} SpanAt(start: nat, end: nat, ks: seq<Key>, j: nat)
    requires Span(start, end, ks) && j < |ks|
    ensures ks[j] == KeyOf(start + PAGE * j)
    decreases j
  {
    if j > 0 { SpanAt(start + PAGE, end, ks[1..], j - 1); }
  }

  lemma {:induction false} SpanLength(start: nat, end: nat, ks: seq<Key>)
    requires Span(start, end, ks)
    ensures end == start + PAGE * |ks|
    decreases |ks|
  {
    if ks != [] { SpanLength(start + PAGE, end, ks[1..]); }
  }

  /** Whole pages are spanned by some keys. */
  lemma {:induction false} SpanExists(start: nat, n: nat) returns (ks: seq<Key>)
    ensures Span(start, start + PAGE * n, ks)
    decreases n
  {
    if n == 0 {
      ks := [];
    } else {
      var rest := SpanExists(start + PAGE, n - 1);
      ks := [KeyOf(start)] + rest;
      assert ks[1..] == rest;
      assert start + PAGE + PAGE * (n - 1) == start + PAGE * n;
    }
  }

  /** The pages of a range no longer than the address space have different keys. */
  lemma KeysDiffer(start: nat, end: nat, ks: seq<Key>, i: nat, j: nat)
    requires Span(start, end, ks) && i < j < |ks| <= PAGES
    ensures ks[i] != ks[j]
  {
    SpanAt(start, end, ks, i);
    SpanAt(start, end, ks, j);
    KeyValue(start + PAGE * i);
    KeyValue(start + PAGE * j);
    var q := start / PAGE;
    assert (start + PAGE * i) / PAGE == q + i && (start + PAGE * j) / PAGE == q + j;
    RemaindersDiffer(q + i, q + j);
  }

  lemma RemaindersDiffer(x: nat, y: nat)
    requires x < y < x + PAGES
    ensures x % PAGES != y % PAGES
  {
  }

  // ---------------------------------------------------------------- accounts

  /** Page p is mapped in k where k0 maps nothing. */
  ghost predicate NewPage(k0: Tables, k: Tables, p: nat)
  {
    exists b :: NewAt(k0, k, p, b)
  }

  ghost predicate NewAt(k0: Tables, k: Tables, p: nat, b: Key)
  {
    Lookup(k0, b) == Absent && Lookup(k, b).To? && Lookup(k, b).phys == p
  }

  /** Every page handed out since (k0, m0) is a new table or newly mapped, and no page that was
      handed out before is either. */
  ghost predicate Accounted(k0: Tables, m0: Pages, k: Tables, m: Pages)
  {
    && m0.used <= m.used && m.large == m0.large && m0.lost <= m.lost
    && (forall p :: p in m.used && p !in m0.used ==> p in NewTables(k0, k) || NewPage(k0, k, p))
    && NewTables(k0, k) !! m0.used
    && (forall p :: NewPage(k0, k, p) ==> p !in m0.used)
    && m.pool + m.lost + (m.used - m0.used) == m0.pool + m0.lost
  }

  /** The tables have grown from k0, none is empty, and the pages are accounted for. */
  ghost predicate From(k0: Tables, m0: Pages, k: Tables, m: Pages)
  {
    Tree(k0) && Full(k0) && Extends(k0, k) && Full(k) && Accounted(k0, m0, k, m)
  }

  lemma FromNone(k: Tables, m: Pages)
    requires Tree(k) && Full(k)
    ensures From(k, m, k, m)
  {
  }

  /** Mapping a page that k0 does not map, to a page x that was not handed out. */
  lemma MappedAt(k0: Tables, k: Tables, a: Key, e: Pte, k': Tables)
    requires Lookup(k0, a) == Absent && Mapped(k, a, e, k') && e.To?
    requires Lookup(k, a) == Absent
    ensures forall q, b :: NewAt(k0, k, q, b) ==> NewAt(k0, k', q, b)
    ensures NewAt(k0, k', e.phys, a)
    ensures forall q, b :: NewAt(k0, k', q, b) ==> (b == a && q == e.phys) || NewAt(k0, k, q, b)
  {
  }

  lemma FromMapped(k0: Tables, m0: Pages, k: Tables, m: Pages, a: Key, p: nat, e: Pte, x: set<nat>, k': Tables,
                   m': Pages)
    requires From(k0, m0, k, m) && PagesOk(m) && Lookup(k, a) == Absent && Lookup(k0, a) == Absent
    requires Mapped(k, a, e, k') && e.To? && e.phys == p && p !in m0.used
    requires x == NewTables(k, k') || x == NewTables(k, k') + {p}
    requires Drawn(m, x, m')
    ensures From(k0, m0, k', m')
  {
    ExtendsTrans(k0, k, k');
    MappedAt(k0, k, a, e, k');
    assert NewTables(k0, k') == NewTables(k0, k) + NewTables(k, k');
    assert NewTables(k, k') <= x <= m.pool;
    DrawnAccount(m0, m, x, m');
  }

  lemma DrawnAccount(m0: Pages, m: Pages, x: set<nat>, m': Pages)
    requires PagesOk(m) && m0.used <= m.used && Drawn(m, x, m')
    ensures m'.pool + m'.lost + (m'.used - m0.used) == m.pool + m.lost + (m.used - m0.used)
    ensures x !! m0.used
  {
    assert (m.used + x) - m0.used == (m.used - m0.used) + x;
  }

  lemma FromUnmapped(k0: Tables, m0: Pages, k: Tables, m: Pages, a: Key, phys: nat, k': Tables, m': Pages)
    requires From(k0, m0, k, m) && Lookup(k0, a) == Absent && Lookup(k, a).To? && Lookup(k, a).phys == phys
    requires Unmapped(k, m, a, phys, k', m') && Full(k') && Extends(k0, k')
    ensures From(k0, m0, k', m')
  {
    var x := NewTables(k', k) + {phys};
    assert NewAt(k0, k, phys, a);
    assert NewTables(k', k) <= NewTables(k0, k);
    assert x !! m0.used;
    assert forall q, b :: NewAt(k0, k, q, b) && b != a ==> NewAt(k0, k', q, b);
    assert forall q, b :: NewAt(k0, k', q, b) ==> NewAt(k0, k, q, b);
    assert NewTables(k0, k') <= NewTables(k0, k) <= NewTables(k0, k') + x;
    ReturnedAccount(m0, m, x, m');
  }

  lemma ReturnedAccount(m0: Pages, m: Pages, x: set<nat>, m': Pages)
    requires m0.used <= m.used && Returned(m, x, m') && x !! m0.used
    ensures m0.used <= m'.used
    ensures m'.pool + m'.lost + (m'.used - m0.used) == m.pool + m.lost + (m.used - m0.used)
  {
    assert m.used - m0.used == (m.used - x - m0.used) + (x * m.used);
  }

  /** Once the same pages are mapped as in k0, the tables are those of k0 and the same pages are
      handed out. */
  lemma FromBack(k0: Tables, m0: Pages, k: Tables, m: Pages)
    requires From(k0, m0, k, m) && Tree(k) && forall b :: Lookup(k, b) == Lookup(k0, b)
    ensures k == k0 && SameUse(m0, m)
  {
    SamePagesSameTree(k0, k);
    assert m.used == m0.used;
    assert m.used - m0.used == {};
  }

  lemma FromSameUse(k0: Tables, m0: Pages, k: Tables, m: Pages, m': Pages)
    requires From(k0, m0, k, m) && SameUse(m, m')
    ensures From(k0, m0, k, m')
  {
  }

  /** The pages m, with page 0 handed out. */
  ghost function ZeroTaken(m: Pages): Pages
  {
    m.(pool := m.pool - {0}, used := m.used + {0})
  }

  /** If page 0 is handed out and lost, the account is kept from pages without it on. */
  lemma FromZeroGone(k0: Tables, m0: Pages, k: Tables, m: Pages, m': Pages)
    requires From(k0, m0, k, m) && Tree(k) && Owned(k, m) && PagesOk(m0) && PagesOk(m) && ZeroGone(m, m')
    ensures From(k0, ZeroTaken(m0), k, m')
  {
    assert 0 in m.pool && 0 in m.pool + m.lost;
    assert 0 in m0.pool;
    assert 0 !in NewTables(k0, k);
    forall b | NewAt(k0, k, 0, b) ensures false {
      KeyMaps(k, b);
    }
    assert m'.used - (m0.used + {0}) == m.used - m0.used;
    assert m0.pool - {0} + m0.lost == m0.pool + m0.lost - {0};
  }

  lemma ZeroTakenBack(m: Pages, m': Pages)
    requires PagesOk(m) && 0 in m.pool && SameUse(ZeroTaken(m), m')
    ensures ZeroGone(m, m')
  {
    assert m.pool - {0} + m.lost == m.pool + m.lost - {0};
  }

  // ---------------------------------------------------------------- mapping a range

  /** None of the pages is mapped. */
  ghost predicate Vacant(k: Tables, ks: seq<Key>)
  {
    forall b :: b in ks ==> Lookup(k, b) == Absent
  }

  /** Tables without empty ones that map none of the pages. */
  ghost predicate Tidy(k: Tables, ks: seq<Key>)
  {
    Tree(k) && Full(k) && Vacant(k, ks) && Distinct(ks)
  }

  /** And flags that map a page. */
  ghost predicate Clean(k: Tables, ks: seq<Key>, flags: nat)
  {
    Tidy(k, ks) && Present(flags)
  }

  /** No walk to one of the pages meets a large page or leaves the tree otherwise. */
  ghost predicate Open(k: Tables, ks: seq<Key>)
  {
    forall b :: b in ks ==> !Lookup(k, b).Other?
  }

  /** Every page is mapped to one of the frames given for it. */
  ghost predicate Placed(k: Tables, ks: seq<Key>, fs: seq<nat>, flags: nat)
  {
    |fs| == |ks| && forall b :: b in ks ==> PlacedAt(k, ks, fs, flags, b)
  }

  ghost predicate PlacedAt(k: Tables, ks: seq<Key>, fs: seq<nat>, flags: nat, b: Key)
  {
    exists i: nat :: i < |ks| && i < |fs| && ks[i] == b && Lookup(k, b) == Leaf(fs[i], flags)
  }

  /** The frames of a range: free pages, or those from physical address base on. */
  ghost predicate FramesOf(base: nat, m: Pages, fs: seq<nat>)
  {
    forall i: nat :: i < |fs| ==> if base == 0 then fs[i] in m.pool else fs[i] == base + PAGE * i
  }

  /** Pages outside the range are mapped as before. */
  ghost predicate Framed(k: Tables, ks: seq<Key>, k': Tables)
  {
    forall b :: b !in ks ==> Lookup(k', b) == Lookup(k, b)
  }

  /** At most n free pages have gone, not counting the lost ones. */
  ghost predicate Spent(m: Pages, n: nat, m': Pages)
  {
    && m'.pool <= m.pool && m.used <= m'.used && m.lost <= m'.lost
    && AtMost(m.pool - (m'.pool + m'.lost), n)
  }

  ghost predicate AllUsed(fs: seq<nat>, m: Pages)
  {
    forall i: nat :: i < |fs| ==> fs[i] in m.used
  }

  /** From (k, m), the pages ks were mapped; no way lost rights. */
  ghost predicate MapRun(k: Tables, m: Pages, ks: seq<Key>, fs: seq<nat>, base: nat, flags: nat, k': Tables, m': Pages)
  {
    && Framed(k, ks, k') && Placed(k', ks, fs, flags) && FramesOf(base, m, fs) && SameWays(k, k')
    && Spent(m, 4 * |ks|, m') && (base == 0 ==> AllUsed(fs, m')) && Within(k, m, k', m')
    && (Clean(k, ks, flags) ==> From(k, m, k', m'))
  }

  /** What mapping one page a to p did. */
  ghost predicate OneDone(k: Tables, m: Pages, a: Key, base: nat, p: nat, flags: nat, k': Tables, m': Pages)
  {
    var x := if base == 0 then NewTables(k, k') + {p} else NewTables(k, k');
    && Mapped(k, a, Leaf(p, flags), k') && Drawn(m, x, m') && AtMost(x, 4)
    && (base == 0 ==> p in m.pool)
  }

  lemma MapRunNone(k: Tables, m: Pages, base: nat, flags: nat)
    ensures MapRun(k, m, [], [], base, flags, k, m)
  {
    assert Among(m.pool - (m.pool + m.lost), []);
    if Clean(k, [], flags) { FromNone(k, m); }
  }

  lemma MapRunStep(k: Tables, m: Pages, ks: seq<Key>, fs: seq<nat>, base: nat, flags: nat, k1: Tables, m1: Pages,
                   a: Key, p: nat, k2: Tables, m2: Pages)
    requires MapRun(k, m, ks, fs, base, flags, k1, m1) && OneDone(k1, m1, a, base, p, flags, k2, m2)
    requires PagesOk(m) && PagesOk(m1) && PagesOk(m2) && Sized(k1) && Sized(k2) && k2.root == k1.root
    requires base != 0 ==> p == base + PAGE * |fs| && p !in m.used
    ensures MapRun(k, m, ks + [a], fs + [p], base, flags, k2, m2)
  {
    var ks', fs' := ks + [a], fs + [p];
    assert forall b :: b in ks' <==> b in ks || b == a;
    PlacedStep(k1, ks, fs, flags, a, p, k2);
    SameWaysTrans(k, k1, k2);
    HandedOut(k1, k2, m1, fs, base, p, m2);
    WithinDrawn(k1, m1, if base == 0 then NewTables(k1, k2) + {p} else NewTables(k1, k2), k2, m2);
    WithinTrans(k, m, k1, m1, k2, m2);
    SpentStep(k1, k2, m, 4 * |ks|, m1, base, p, m2);
    if Clean(k, ks', flags) {
      CleanPrefix(k, ks, a, flags);
      var x := if base == 0 then NewTables(k1, k2) + {p} else NewTables(k1, k2);
      FromMapped(k, m, k1, m1, a, p, Leaf(p, flags), x, k2, m2);
    }
  }

  lemma HandedOut(k1: Tables, k2: Tables, m1: Pages, fs: seq<nat>, base: nat, p: nat, m2: Pages)
    requires Drawn(m1, if base == 0 then NewTables(k1, k2) + {p} else NewTables(k1, k2), m2)
    requires base == 0 ==> AllUsed(fs, m1)
    ensures base == 0 ==> AllUsed(fs + [p], m2)
  {
  }

  lemma CleanPrefix(k: Tables, ks: seq<Key>, a: Key, flags: nat)
    requires Clean(k, ks + [a], flags)
    ensures Clean(k, ks, flags) && a !in ks && Lookup(k, a) == Absent
  {
    var ks' := ks + [a];
    assert forall b :: b in ks ==> b in ks';
    assert ks'[|ks|] == a;
    forall i: nat, j: nat | i < j < |ks| ensures ks[i] != ks[j] { assert ks'[i] != ks'[j]; }
    forall i: nat | i < |ks| ensures ks[i] != a { assert ks'[i] != ks'[|ks|]; }
  }

  lemma CleanPart(k: Tables, ks: seq<Key>, done: seq<Key>, flags: nat)
    requires Clean(k, ks, flags) && done <= ks
    ensures Clean(k, done, flags)
  {
    assert forall b :: b in done ==> b in ks;
    forall i: nat, j: nat | i < j < |done| ensures done[i] != done[j] { assert ks[i] != ks[j]; }
  }

  /** A range that fits into the address space has no page twice. */
  lemma SpanDistinct(start: nat, end: nat, ks: seq<Key>)
    requires Span(start, end, ks) && end <= start + PAGE * PAGES
    ensures Distinct(ks)
  {
    SpanLength(start, end, ks);
    forall i: nat, j: nat | i < j < |ks| ensures ks[i] != ks[j] { KeysDiffer(start, end, ks, i, j); }
  }

  /** Pages that are mapped to the same page of the allocator are the same. */
  lemma MappedOnce(k: Tables, m: Pages, a: Key, b: Key)
    requires Tree(k) && Owned(k, m) && KeyOk(a) && KeyOk(b)
    requires Lookup(k, a).To? && Lookup(k, b).To? && Lookup(k, a).phys == Lookup(k, b).phys
    requires Lookup(k, a).phys in m.used
    ensures a == b
  {
    KeyMaps(k, a);
    KeyMaps(k, b);
    TabUnique(k, a, b, 0, 1);
    TabUnique(k, a, b, 0, 2);
    TabUnique(k, a, b, 0, 3);
  }

  lemma PlacedStep(k1: Tables, ks: seq<Key>, fs: seq<nat>, flags: nat, a: Key, p: nat, k2: Tables)
    requires Placed(k1, ks, fs, flags) && Updated(k1, a, Leaf(p, flags), k2)
    ensures Placed(k2, ks + [a], fs + [p], flags)
  {
    var ks', fs' := ks + [a], fs + [p];
    forall b | b in ks' ensures PlacedAt(k2, ks', fs', flags, b) {
      if b == a {
        assert ks'[|ks|] == a && fs'[|ks|] == p;
      } else {
        assert PlacedAt(k1, ks, fs, flags, b);
        var i: nat :| i < |ks| && i < |fs| && ks[i] == b && Lookup(k1, b) == Leaf(fs[i], flags);
        assert ks'[i] == b && fs'[i] == fs[i];
      }
    }
  }

  lemma SpentStep(k1: Tables, k2: Tables, m: Pages, n: nat, m1: Pages, base: nat, p: nat, m2: Pages)
    requires PagesOk(m1) && PagesOk(m2) && Spent(m, n, m1)
    requires var x := if base == 0 then NewTables(k1, k2) + {p} else NewTables(k1, k2); Drawn(m1, x, m2) && AtMost(x, 4)
    ensures Spent(m, n + 4, m2) && m2.pool <= m1.pool
  {
    var x := if base == 0 then NewTables(k1, k2) + {p} else NewTables(k1, k2);
    forall q | q in m2.pool ensures q in m1.pool { assert q in m2.pool + m2.lost; }
    var gone := m.pool - (m1.pool + m1.lost);
    forall q | q in m.pool - (m2.pool + m2.lost) ensures q in gone + x { assert q in m1.pool + m1.lost ==> q in x; }
    AtMostSum(gone, n, x, 4);
    AtMostFewer(m.pool - (m2.pool + m2.lost), gone + x, n + 4);
  }

  lemma AtMostSum(x: set<nat>, n: nat, y: set<nat>, n': nat)
    requires AtMost(x, n) && AtMost(y, n')
    ensures AtMost(x + y, n + n')
  {
    var ts: seq<nat> :| |ts| <= n && Among(x, ts);
    var us: seq<nat> :| |us| <= n' && Among(y, us);
    assert Among(x + y, ts + us);
  }
}
