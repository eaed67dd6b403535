/** What the page table operations do, on values. */
module KmapSteps {
  import opened PteBits
  import opened PageTables
  import opened TableTree
  import opened TableRights
  import opened Frames
  import opened Ownership

  /** What the processor makes of an entry. */
  function Decode(w: nat): Pte
  {
    if Present(w) then To(PhysOf(w), FlagsOf(w)) else Absent
  }

  /** A word in memory reads as the entry e. */
  ghost predicate Matches(e: Pte, w: nat)
  {
    if e.Other? then w == e.word && Present(w) else e == Decode(w)
  }

  /** The words in memory read as the tables k. */
  ghost predicate Reads(words: Words, k: Tables)
  {
    && words.Keys == k.mem.Keys + k.rest.Keys
    && (forall t :: t in k.mem ==> |words[t]| == |k.mem[t]|)
    && (forall t, i: nat {:trigger words[t][i]} :: t in k.mem && i < |words[t]| ==> Matches(k.mem[t][i], words[t][i]))
    && (forall t :: t in k.rest ==> words[t] == k.rest[t])
  }

  // ---------------------------------------------------------------- what operations do, on values

  ghost predicate SamePages(k: Tables, k': Tables)
  {
    forall b :: Lookup(k', b) == Lookup(k, b)
  }

  /** Page a is mapped with e, all others as before. */
  ghost predicate Updated(k: Tables, a: Key, e: Pte, k': Tables)
  {
    forall b :: Lookup(k', b) == if b == a then e else Lookup(k, b)
  }

  /** The tables of k' that k has not. */
  ghost function NewTables(k: Tables, k': Tables): set<nat>
  {
    k'.up.Keys - k.up.Keys
  }

  /** From m to m', exactly the pages of x were handed out. */
  ghost predicate Drawn(m: Pages, x: set<nat>, m': Pages)
  {
    && x <= m.pool && m'.used == m.used + x && m'.large == m.large
    && m.lost <= m'.lost && m'.pool + m'.lost == m.pool + m.lost - x
  }

  /** From m to m', exactly the pages of x that had been handed out were given back. */
  ghost predicate Returned(m: Pages, x: set<nat>, m': Pages)
  {
    && m'.used == m.used - x && m'.large == m.large && m'.lost == m.lost
    && m'.pool == m.pool + (x * m.used)
  }

  /** Fewer than n pages were free, not counting those lost since. */
  ghost predicate Scarce(m: Pages, n: nat, m': Pages)
  {
    n > 0 && AtMost(m.pool - m'.lost, n - 1)
  }

  lemma ScarceStep(m: Pages, p: nat, m1: Pages, n: nat, m2: Pages)
    requires Taken(m, p, m1) && Scarce(m1, n, m2) && m1.lost <= m2.lost
    ensures Scarce(m, n + 1, m2)
  {
    var x, y := m.pool - m2.lost, m1.pool - m2.lost;
    forall a | a in x ensures a in y + {p} { assert a in m.pool + m.lost; assert a != p ==> a in m1.pool + m1.lost; }
    AtMostOneMore(y, n - 1, p);
    AtMostFewer(x, y + {p}, n);
  }

  lemma ScarceEmpty(m: Pages, n: nat, m': Pages)
    requires m.pool == {} && n > 0
    ensures Scarce(m, n, m')
  {
    assert Among(m.pool - m'.lost, []);
  }

  lemma ScarceMore(m: Pages, n: nat, m': Pages)
    requires Scarce(m, n, m')
    ensures Scarce(m, n + 1, m')
  {
    var ts: seq<nat> :| |ts| <= n - 1 && Among(m.pool - m'.lost, ts);
  }

  lemma AtMostFewer(x: set<nat>, y: set<nat>, n: nat)
    requires x <= y && AtMost(y, n)
    ensures AtMost(x, n)
  {
    var ts: seq<nat> :| |ts| <= n && Among(y, ts);
    assert Among(x, ts);
  }

  /** Page 0 was handed out, and is gone: its address looks like a failure. */
  ghost predicate ZeroGone(m: Pages, m': Pages)
  {
    Drawn(m, {0}, m')
  }

  /** Page 0 was handed out. */
  ghost predicate ZeroLost(m: Pages, m': Pages)
  {
    0 in m.pool && 0 in m'.used
  }

  /** An operation that wants n pages has failed: there were fewer and the pages in use are as
      before, or page 0 was handed out and is all that is gone. */
  ghost predicate Failed(m: Pages, n: nat, m': Pages)
  {
    (SameUse(m, m') && Scarce(m, n, m')) || ZeroGone(m, m')
  }

  /** The pages in use are as before exactly if page 0 was not handed out. */
  lemma FailedExactly(m: Pages, n: nat, m': Pages)
    requires PagesOk(m) && Failed(m, n, m')
    ensures SameUse(m, m') <==> !ZeroLost(m, m')
  {
  }

  lemma UndoUse(m0: Pages, p: nat, m1: Pages, m2: Pages, m3: Pages)
    requires PagesOk(m0) && Taken(m0, p, m1) && SameUse(m1, m2) && GivenPage(m2, p, m3)
    ensures SameUse(m0, m3)
  {
    assert m1.used - {p} == m0.used;
    assert m3.pool + m3.lost == (m2.pool + m2.lost) + {p};
    assert (m0.pool + m0.lost - {p}) + {p} == m0.pool + m0.lost;
  }

  lemma UndoZero(m0: Pages, p: nat, m1: Pages, m2: Pages, m3: Pages)
    requires PagesOk(m0) && PagesOk(m1) && Taken(m0, p, m1) && ZeroGone(m1, m2) && GivenPage(m2, p, m3)
    ensures ZeroGone(m0, m3)
  {
    assert p != 0 && 0 in m1.pool + m1.lost;
    assert 0 in m0.pool;
    assert m0.used + {p} + {0} - {p} == m0.used + {0};
    assert m3.pool + m3.lost == (m2.pool + m2.lost) + {p};
    assert (m0.pool + m0.lost - {p} - {0}) + {p} == m0.pool + m0.lost - {0};
  }

  /** Giving back the page taken before leaves a failure one. */
  lemma UndoFailed(m0: Pages, p: nat, m1: Pages, n: nat, m2: Pages, m3: Pages)
    requires PagesOk(m0) && PagesOk(m1) && Taken(m0, p, m1) && Failed(m1, n, m2) && GivenPage(m2, p, m3)
    ensures Failed(m0, n + 1, m3)
  {
    if ZeroGone(m1, m2) {
      UndoZero(m0, p, m1, m2, m3);
    } else {
      ScarceStep(m0, p, m1, n, m2);
      UndoUse(m0, p, m1, m2, m3);
    }
  }

  /** What a failed attempt to take a page does. */
  ghost predicate NotTaken(m: Pages, m': Pages)
  {
    if m.pool == {} then m' == m else Taken(m, 0, m')
  }

  lemma FailedTake(m: Pages, n: nat, m': Pages)
    requires n > 0 && PagesOk(m) && NotTaken(m, m')
    ensures Failed(m, n, m')
  {
    if m.pool == {} { ScarceEmpty(m, n, m'); }
  }

  lemma FailedMore(m: Pages, n: nat, m': Pages)
    requires Failed(m, n, m')
    ensures Failed(m, n + 1, m')
  {
    if !ZeroGone(m, m') { ScarceMore(m, n, m'); }
  }

  /** From (k, m) on, tables are made of pages of the allocator, which does not get more of them. */
  ghost predicate Within(k: Tables, m: Pages, k': Tables, m': Pages)
  {
    && (forall t :: t in k'.mem ==> t in k.mem || t in m.pool || t in m.used)
    && (forall p :: p in m'.pool || p in m'.used ==> p in m.pool || p in m.used)
  }

  lemma WithinTrans(k: Tables, m: Pages, k1: Tables, m1: Pages, k2: Tables, m2: Pages)
    requires Within(k, m, k1, m1) && Within(k1, m1, k2, m2)
    ensures Within(k, m, k2, m2)
  {
  }

  lemma WithinDrawn(k: Tables, m: Pages, x: set<nat>, k': Tables, m': Pages)
    requires Sized(k) && Sized(k') && k'.root == k.root && PagesOk(m') && Drawn(m, x, m') && NewTables(k, k') <= x
    ensures Within(k, m, k', m')
  {
    forall p | p in m'.pool ensures p in m.pool { assert p in m'.pool + m'.lost; }
    assert forall t :: t in k'.mem && t !in k.mem ==> t in NewTables(k, k');
  }

  lemma WithinReturned(k: Tables, m: Pages, x: set<nat>, k': Tables, m': Pages)
    requires Sized(k) && Sized(k') && k'.root == k.root && Returned(m, x, m') && forall t :: t in k'.up ==> t in k.up
    ensures Within(k, m, k', m')
  {
  }

  lemma WithinFailed(k: Tables, m: Pages, n: nat, m': Pages)
    requires PagesOk(m') && Failed(m, n, m')
    ensures Within(k, m, k, m')
  {
    forall p | p in m'.pool ensures p in m.pool { assert p in m'.pool + m'.lost; }
  }

  /** A new table c was hung up at entry i of t, present, writable and for user code. */
  ghost predicate Grew(k: Tables, m: Pages, t: nat, i: nat, c: nat, k': Tables, m': Pages)
  {
    && t in k.mem && i < |k.mem[t]| && k.mem[t][i] == Absent && c !in k.mem
    && k' == Attach(k, t, i, To(c, 7)) && Attached(k, t, i, To(c, 7), k') && Taken(m, c, m')
  }

  // ---------------------------------------------------------------- writing words

  lemma SetReads(words: Words, k: Tables, t: nat, i: nat, w: nat, row: seq<nat>)
    requires Sized(k) && Reads(words, k) && t in k.mem && i < |words[t]| && row == words[t][i := w]
    ensures Reads(words[t := row], SetEntry(k, t, i, Decode(w)))
  {
  }

  lemma AttachReads(words: Words, k: Tables, t: nat, i: nat, w: nat, row: seq<nat>, e: Pte, zeros: seq<nat>)
    requires Sized(k) && Reads(words, k) && t in k.mem && i < |words[t]| && row == words[t][i := w]
    requires Decode(w) == e && e.To? && e.phys !in words
    requires |zeros| == SLOTS && forall j: nat :: j < SLOTS ==> Decode(zeros[j]) == Absent
    ensures Reads(words[e.phys := zeros][t := row], Attach(k, t, i, e))
  {
  }

  lemma DetachReads(words: Words, k: Tables, t: nat, i: nat, row: seq<nat>, c: nat)
    requires Sized(k) && Reads(words, k) && t in k.mem && i < |words[t]| && row == words[t][i := 0]
    requires k.mem[t][i].To? && c == k.mem[t][i].phys && c != t && c in k.mem && Decode(0) == Absent
    ensures Reads(words[t := row] - {c}, Detach(k, t, i))
  {
  }

  lemma TableWord(p: nat)
    requires IsFrame(p)
    ensures Decode(Entry(p, TABLE_FLAGS)) == To(p, TABLE_FLAGS)
  {
    EntryParts(p, TABLE_FLAGS);
  }

  /** A page and its flags, as the processor reads them. */
  function Leaf(p: nat, flags: nat): Pte
  {
    if Present(flags) then To(p, flags) else Absent
  }

  lemma PageWord(p: nat, flags: nat)
    requires IsFrame(p) && IsFlags(flags)
    ensures Decode(Entry(p, flags)) == Leaf(p, flags)
  {
    EntryParts(p, flags);
  }

  // ---------------------------------------------------------------- walks that create tables

  /** Empty tables were added, with pages of the allocator, and nothing else changed; no way lost
      rights. */
  ghost predicate Walked(k: Tables, m: Pages, k': Tables, m': Pages, n: nat)
  {
    && Extends(k, k') && SamePages(k, k') && SameWays(k, k')
    && Drawn(m, NewTables(k, k'), m') && AtMost(NewTables(k, k'), n)
  }

  /** The set has at most n elements. */
  ghost predicate AtMost(x: set<nat>, n: nat)
  {
    exists ts: seq<nat> :: |ts| <= n && Among(x, ts)
  }

  ghost predicate Among(x: set<nat>, ts: seq<nat>)
  {
    forall y :: y in x ==> y in ts
  }

  lemma AtMostOneMore(x: set<nat>, n: nat, c: nat)
    requires AtMost(x, n)
    ensures AtMost(x + {c}, n + 1)
  {
    var ts: seq<nat> :| |ts| <= n && Among(x, ts);
    assert Among(x + {c}, ts + [c]);
  }

  lemma WalkedNone(k: Tables, m: Pages)
    ensures Walked(k, m, k, m, 0)
  {
    assert Among(NewTables(k, k), []);
    assert NewTables(k, k) == {};
  }

  lemma WalkedStep(k: Tables, m: Pages, t: nat, i: nat, c: nat, k1: Tables, m1: Pages, k2: Tables, m2: Pages, n: nat)
    requires Tree(k) && PagesOk(m) && PagesOk(m1) && Grew(k, m, t, i, c, k1, m1) && Walked(k1, m1, k2, m2, n)
    ensures Walked(k, m, k2, m2, n + 1)
  {
    forall b ensures Lookup(k2, b) == Lookup(k, b) { AttachLookup(k, t, i, To(c, TABLE_FLAGS), k1, b); }
    AttachWays(k, t, i, To(c, TABLE_FLAGS), k1);
    SameWaysTrans(k, k1, k2);
    AttachExtends(k, k, t, i, To(c, TABLE_FLAGS), k1);
    ExtendsTrans(k, k1, k2);
    assert c in k1.up && c in k2.up && c !in k.up;
    assert NewTables(k, k2) == NewTables(k1, k2) + {c};
    AtMostOneMore(NewTables(k1, k2), n, c);
    DrawnStep(m, c, m1, NewTables(k1, k2), m2);
  }

  /** The outcome of a walk from the level l table t: the level 0 table pt is there, or pages ran
      out and nothing has changed. */
  ghost predicate WalkDone(k: Tables, m: Pages, a: Key, l: nat, t: nat, ok: bool, pt: nat, k': Tables, m': Pages)
  {
    if ok then
      && On(k', a, 0) && pt == Tab(k', a, 0)
      && Walked(k, m, k', m', l)
      && (FullBut(k, t) ==> FullBut(k', pt))
    else
      k' == k && Failed(m, l, m')
  }

  lemma WalkDoneStep(k: Tables, m: Pages, a: Key, l: nat, t: nat, c: nat, pt: nat, k1: Tables, m1: Pages, k2: Tables,
                     m2: Pages)
    requires 0 < l && Tree(k) && PagesOk(m) && PagesOk(m1) && Grew(k, m, t, Index(a, l), c, k1, m1)
    requires FullBut(k, t) ==> FullBut(k1, c)
    requires WalkDone(k1, m1, a, l - 1, c, true, pt, k2, m2)
    ensures WalkDone(k, m, a, l, t, true, pt, k2, m2)
  {
    WalkedStep(k, m, t, Index(a, l), c, k1, m1, k2, m2, l - 1);
  }

  lemma WalkDoneMore(k: Tables, m: Pages, a: Key, l: nat, t: nat, c: nat, ok: bool, pt: nat, k': Tables, m': Pages)
    requires 0 < l && WalkDone(k, m, a, l - 1, c, ok, pt, k', m') && (FullBut(k, t) ==> FullBut(k, c))
    ensures WalkDone(k, m, a, l, t, ok, pt, k', m')
  {
    if ok {
      var ts: seq<nat> :| |ts| <= l - 1 && Among(NewTables(k, k'), ts);
    } else {
      FailedMore(m, l - 1, m');
    }
  }

  lemma ExtendsTrans(k: Tables, k1: Tables, k2: Tables)
    requires Extends(k, k1) && Extends(k1, k2)
    ensures Extends(k, k2)
  {
    SteadyTrans(k, k1, k2);
    forall t, i: nat | Linked(k, t, i) ensures Linked(k2, t, i) && k2.mem[t][i] == k.mem[t][i] {
      assert Linked(k1, t, i);
    }
  }

  lemma DrawnStep(m: Pages, c: nat, m1: Pages, x: set<nat>, m2: Pages)
    requires PagesOk(m) && PagesOk(m1) && Taken(m, c, m1) && Drawn(m1, x, m2)
    ensures Drawn(m, x + {c}, m2)
  {
    forall a | a in x ensures a in m.pool { assert a in m1.pool + m1.lost; }
    assert m.used + {c} + x == m.used + (x + {c});
    assert m.pool + m.lost - {c} - x == m.pool + m.lost - (x + {c});
  }

  // ---------------------------------------------------------------- pages and their entries

  /** The entry of page a, in table pt, was set to e. */
  ghost predicate PageSet(k: Tables, a: Key, pt: nat, e: Pte, k': Tables)
  {
    && Updated(k, a, e, k') && k'.up == k.up && SameWays(k, k')
    && pt in k.mem && a.i0 < |k.mem[pt]| && k' == SetEntry(k, pt, a.i0, e)
    && (FullBut(k, pt) ==> FullBut(k', pt) && (e.To? ==> Full(k')))
  }

  lemma PageSetFacts(k: Tables, m: Pages, a: Key, e: Pte)
    requires Tree(k) && Owned(k, m) && KeyOk(a) && On(k, a, 0) && !Lookup(k, a).Other?
    requires !e.Other? && (e.To? ==> Idle(k, m, e.phys))
    ensures Tab(k, a, 0) in k.mem
    ensures var k' := SetEntry(k, Tab(k, a, 0), a.i0, e); Tree(k') && Owned(k', m) && PageSet(k, a, Tab(k, a, 0), e, k')
  {
    var pt := Tab(k, a, 0);
    TabLevel(k, a, 0);
    OpenEntry(k, a, 0);
    var k' := SetEntry(k, pt, a.i0, e);
    forall b ensures Lookup(k', b) == if b == a then e else Lookup(k, b) { SetLookup(k, a, e, b); }
    SetTree(k, pt, a.i0, e);
    SetWays(k, pt, a.i0, e);
    SetOwned(k, m, pt, a.i0, e);
    if FullBut(k, pt) { SetFull(k, pt, a.i0, e); }
  }

  /** A mapped page is mapped at some key. */
  lemma MapsKey(k: Tables, t: nat, i: nat, p: nat) returns (b: Key)
    requires Tree(k) && Maps(k, t, i, p)
    ensures KeyOk(b) && Lookup(k, b).To? && Lookup(k, b).phys == p
  {
    var c := PathTo(k, t);
    b := WithIndex(c, 0, i);
    OnSame(k, c, b, 0);
    EndsLookup(k, b, 0);
  }

  lemma KeyMaps(k: Tables, b: Key)
    requires Tree(k) && Lookup(k, b).To?
    ensures On(k, b, 0) && Maps(k, Tab(k, b, 0), b.i0, Lookup(k, b).phys)
  {
    LookupTo(k, b);
    TabLevel(k, b, 0);
  }

  /** A page that was put aside before a failure is still not in use. */
  lemma IdleFailed(k: Tables, m: Pages, n: nat, m': Pages, p: nat)
    requires PagesOk(m) && PagesOk(m') && Failed(m, n, m') && Idle(k, m, p) && p in m.used
    ensures Idle(k, m', p) && p in m'.used
  {
    assert p in m'.used;
  }

  /** A page that was put aside during a walk is still not in use. */
  lemma IdleWalked(k: Tables, m: Pages, k': Tables, m': Pages, n: nat, p: nat)
    requires Tree(k) && Tree(k') && PagesOk(m') && Walked(k, m, k', m', n) && Idle(k, m, p)
    ensures Idle(k', m', p)
  {
    assert p in m'.pool ==> p in m'.pool + m'.lost;
    assert p !in NewTables(k, k');
    if p in m'.used {
      forall t, i: nat ensures !Maps(k', t, i, p) { NotMapped(k, k', t, i, p); }
    }
  }

  lemma NotMapped(k: Tables, k': Tables, t: nat, i: nat, p: nat)
    requires Tree(k) && Tree(k') && SamePages(k, k') && forall x, j: nat :: !Maps(k, x, j, p)
    ensures !Maps(k', t, i, p)
  {
    if Maps(k', t, i, p) {
      var b := MapsKey(k', t, i, p);
      KeyMaps(k, b);
    }
  }

  /** Page a was mapped with e: no other page was touched, tables were only added, which narrow the
      rights of no page, and the tables that were there keep their other entries. */
  ghost predicate Mapped(k: Tables, a: Key, e: Pte, k': Tables)
  {
    && Updated(k, a, e, k') && SameWays(k, k')
    && (Lookup(k, a) == Absent ==> Extends(k, k'))
    && (Full(k) && e.To? ==> Full(k'))
  }

  lemma MappedFacts(k: Tables, k1: Tables, a: Key, pt: nat, e: Pte, k': Tables)
    requires !e.Other?
    requires Tree(k) && Tree(k1) && KeyOk(a) && On(k1, a, 0) && pt == Tab(k1, a, 0)
    requires Extends(k, k1) && SamePages(k, k1) && SameWays(k, k1)
    requires PageSet(k1, a, pt, e, k') && (Full(k) ==> FullBut(k1, pt))
    ensures Mapped(k, a, e, k')
  {
    SameWaysTrans(k, k1, k');
    MappedOnly(k, k1, a, e, k');
    MappedExtends(k, k1, a, pt, e, k');
  }

  lemma MappedOnly(k: Tables, k1: Tables, a: Key, e: Pte, k': Tables)
    requires SamePages(k, k1) && Updated(k1, a, e, k')
    ensures Updated(k, a, e, k')
  {
  }

  lemma MappedExtends(k: Tables, k1: Tables, a: Key, pt: nat, e: Pte, k': Tables)
    requires !e.Other? && Tree(k) && Tree(k1) && KeyOk(a) && Extends(k, k1)
    requires On(k1, a, 0) && pt == Tab(k1, a, 0)
    requires pt in k1.mem && a.i0 < |k1.mem[pt]| && k' == SetEntry(k1, pt, a.i0, e)
    ensures Lookup(k, a) == Absent ==> Extends(k, k')
  {
    if Lookup(k, a) == Absent { SetExtends(k, k1, a, e); }
  }

  /** The outcome of mapping page a to phys: done, with up to three new tables, or not for want
      of pages. */
  ghost predicate MapDone(k: Tables, m: Pages, a: Key, phys: nat, flags: nat, r: int, k': Tables, m': Pages)
  {
    if r == 0 then
      && Mapped(k, a, Leaf(phys, flags), k')
      && Drawn(m, NewTables(k, k'), m') && AtMost(NewTables(k, k'), 3)
    else
      k' == k && Failed(m, 3, m')
  }

  lemma MapDoneFacts(k: Tables, m: Pages, k1: Tables, m1: Pages, a: Key, pt: nat, phys: nat, flags: nat, k': Tables)
    requires Tree(k) && Tree(k1) && KeyOk(a) && WalkDone(k, m, a, 3, k.root, true, pt, k1, m1)
    requires PageSet(k1, a, pt, Leaf(phys, flags), k')
    ensures MapDone(k, m, a, phys, flags, 0, k', m1)
  {
    MappedFacts(k, k1, a, pt, Leaf(phys, flags), k');
    assert NewTables(k, k') == NewTables(k, k1);
  }

  // ---------------------------------------------------------------- unmapping

  /** k has all of k0, which has no empty tables and does not map page a. */
  ghost predicate Base(k0: Tables, a: Key, k: Tables)
  {
    Tree(k0) && Full(k0) && Extends(k0, k) && Lookup(k0, a) == Absent
  }

  lemma ReturnedOne(m: Pages, p: nat, m': Pages)
    requires GivenPage(m, p, m')
    ensures Returned(m, {p}, m')
  {
    assert {p} * m.used == if p in m.used then {p} else {};
  }

  lemma ReturnedStep(m: Pages, x: set<nat>, m1: Pages, c: nat, m2: Pages)
    requires Returned(m, x, m1) && GivenPage(m1, c, m2)
    ensures Returned(m, x + {c}, m2)
  {
    assert m.used - x - {c} == m.used - (x + {c});
    assert (x + {c}) * m.used == x * m.used + {c} * m.used;
    assert c in m1.used ==> {c} * m.used == {c};
    assert c !in m1.used ==> {c} * m.used <= x * m.used;
  }

  lemma ClearFacts(k: Tables, m: Pages, a: Key, pt: nat, k0: Tables) returns (k': Tables)
    requires Tree(k) && Owned(k, m) && KeyOk(a) && On(k, a, 0) && pt == Tab(k, a, 0) && Lookup(k, a).To?
    ensures pt in k.mem && a.i0 < |k.mem[pt]| && k.mem[pt][a.i0] == Lookup(k, a)
    ensures Tree(k') && Owned(k', m) && PageSet(k, a, pt, Absent, k') && Idle(k', m, Lookup(k, a).phys)
    ensures On(k', a, 0) && Tab(k', a, 0) == pt
    ensures Base(k0, a, k) ==> Extends(k0, k')
  {
    SetOn(k, pt, a.i0, Absent, a, 0);
    TabLevel(k, a, 0);
    EndsLookup(k, a, 0);
    k' := SetEntry(k, pt, a.i0, Absent);
    PageSetFacts(k, m, a, Absent);
    ClearIdle(k, m, pt, a.i0);
    if Base(k0, a, k) { SetExtends(k0, k, a, Absent); }
  }

  /** The empty table c was taken away from table t, and its page given back. */
  ghost predicate Pruned(k: Tables, m: Pages, t: nat, c: nat, k': Tables, m': Pages)
  {
    && SamePages(k, k') && KeepsWays(k, k') && GivenPage(m, c, m')
    && c in k.up && k'.up == k.up - {c}
    && (FullBut(k, c) ==> FullBut(k', t))
  }

  lemma PrunedOn(k': Tables, t: nat, i: nat, e: Pte, k: Tables, a: Key, l: nat)
    requires Tree(k) && Tree(k') && Attached(k', t, i, e, k) && l <= 3 && On(k, a, l) && t == Tab(k, a, l)
    ensures On(k', a, l) && Tab(k', a, l) == t
  {
    AttachAddsOn(k', t, i, e, k, a, l);
    AttachKeepsOn(k', t, i, e, k, a, l);
  }

  lemma PrunedUp(k': Tables, t: nat, i: nat, e: Pte, k: Tables)
    requires Sized(k') && Attached(k', t, i, e, k)
    ensures e.phys in k.up && k'.up == k.up - {e.phys}
  {
    assert k'.up.Keys == (k.up - {e.phys}).Keys;
  }

  lemma PrunedFacts(k': Tables, t: nat, i: nat, e: Pte, k: Tables, a: Key, l: nat, k0: Tables)
    requires Tree(k) && Tree(k') && Attached(k', t, i, e, k)
    requires l < 3 && On(k, a, l + 1) && t == Tab(k, a, l + 1)
    ensures SamePages(k, k') && KeepsWays(k, k') && k'.up == k.up - {e.phys} && e.phys in k.up
    ensures FullBut(k, e.phys) ==> FullBut(k', t)
    ensures On(k', a, l + 1) && Tab(k', a, l + 1) == t
    ensures Tree(k0) && Full(k0) && Extends(k0, k) ==> Extends(k0, k')
  {
    forall b ensures Lookup(k', b) == Lookup(k, b) { AttachLookup(k', t, i, e, k, b); }
    DetachWays(k', t, i, e, k);
    if FullBut(k, e.phys) { DetachFull(k', t, i, e, k); }
    PrunedUp(k', t, i, e, k);
    PrunedOn(k', t, i, e, k, a, l + 1);
    if Tree(k0) && Full(k0) && Extends(k0, k) { DetachExtends(k0, k', t, i, e, k); }
  }

  /** Page a is no longer mapped, its page is given back, and so are those of the tables that
      are gone. The pages that are still mapped have the rights they had. */
  ghost predicate Unmapped(k: Tables, m: Pages, a: Key, phys: nat, k': Tables, m': Pages)
  {
    && Updated(k, a, Absent, k') && KeepsWays(k, k')
    && (forall t :: t in k'.up ==> t in k.up && k'.up[t] == k.up[t])
    && Returned(m, NewTables(k', k) + {phys}, m')
  }

  lemma UnmappedOne(k: Tables, m: Pages, a: Key, pt: nat, phys: nat, k': Tables, m': Pages)
    requires PageSet(k, a, pt, Absent, k') && Returned(m, {phys}, m')
    ensures Unmapped(k, m, a, phys, k', m')
  {
    SameKeeps(k, k');
    assert NewTables(k', k) + {phys} == {phys};
  }

  lemma UnmappedStep(k: Tables, m: Pages, a: Key, phys: nat, k1: Tables, m1: Pages, t: nat, c: nat, k2: Tables,
                     m2: Pages)
    requires Unmapped(k, m, a, phys, k1, m1) && Pruned(k1, m1, t, c, k2, m2)
    ensures Unmapped(k, m, a, phys, k2, m2)
  {
    KeepsWaysTrans(k, k1, k2);
    assert NewTables(k2, k) + {phys} == NewTables(k1, k) + {phys} + {c};
    ReturnedStep(m, NewTables(k1, k) + {phys}, m1, c, m2);
  }

  /** What unmapping page a did when done with table t: the page phys is unmapped, and no table
      was left empty but perhaps t, if one of its entries was cleared. */
  ghost predicate Removed(k: Tables, m: Pages, a: Key, t: nat, phys: nat, cleared: bool, k0: Tables, k': Tables,
                          m': Pages)
  {
    && Lookup(k, a).To? && phys == Lookup(k, a).phys
    && Unmapped(k, m, a, phys, k', m')
    && (Full(k) ==> FullBut(k', t) && (!cleared ==> Full(k')))
    && (Base(k0, a, k) ==> Extends(k0, k'))
  }

  lemma RemovedLeaf(k: Tables, m: Pages, a: Key, t: nat, phys: nat, k0: Tables, k': Tables, m': Pages)
    requires Lookup(k, a).To? && phys == Lookup(k, a).phys
    requires PageSet(k, a, t, Absent, k') && GivenPage(m, phys, m') && (Base(k0, a, k) ==> Extends(k0, k'))
    ensures Removed(k, m, a, t, phys, true, k0, k', m')
  {
    ReturnedOne(m, phys, m');
    UnmappedOne(k, m, a, t, phys, k', m');
  }

  lemma RemovedKept(k: Tables, m: Pages, a: Key, t: nat, c: nat, phys: nat, check: bool, k0: Tables, k': Tables,
                    m': Pages)
    requires Removed(k, m, a, c, phys, check, k0, k', m') && (check ==> exists i: nat :: Busy(k', c, i))
    ensures Removed(k, m, a, t, phys, false, k0, k', m')
  {
  }

  lemma RemovedPruned(k: Tables, m: Pages, a: Key, t: nat, c: nat, phys: nat, k0: Tables, k1: Tables, m1: Pages,
                      k2: Tables, m2: Pages)
    requires Removed(k, m, a, c, phys, true, k0, k1, m1) && Pruned(k1, m1, t, c, k2, m2)
    requires Tree(k0) && Full(k0) && Extends(k0, k1) ==> Extends(k0, k2)
    ensures Removed(k, m, a, t, phys, true, k0, k2, m2)
  {
    UnmappedStep(k, m, a, phys, k1, m1, t, c, k2, m2);
  }

  /** What unmapping page a did. */
  ghost predicate Freed(k: Tables, m: Pages, a: Key, phys: nat, k0: Tables, k': Tables, m': Pages)
  {
    if !Lookup(k, a).To? then
      k' == k && m' == m && phys == 0
    else
      && phys == Lookup(k, a).phys
      && Unmapped(k, m, a, phys, k', m')
      && (Full(k) ==> Full(k'))
      && (Base(k0, a, k) ==> Extends(k0, k'))
  }

  // ---------------------------------------------------------------- changing flags

  /** A mapped page keeps its frame and has new flags; nothing else changed. */
  ghost predicate Reflagged(k: Tables, a: Key, flags: nat, k': Tables)
  {
    && k'.up == k.up && SameWays(k, k')
    && Updated(k, a, if Lookup(k, a).To? then Leaf(Lookup(k, a).phys, flags) else Lookup(k, a), k')
    && (Present(flags) && Full(k) ==> Full(k'))
  }

  /** The entry of a mapped page can be given other flags. */
  lemma ReflagFacts(k: Tables, m: Pages, a: Key, pt: nat, flags: nat) returns (k': Tables)
    requires Tree(k) && Owned(k, m) && KeyOk(a) && On(k, a, 0) && pt == Tab(k, a, 0) && Lookup(k, a).To?
    ensures pt in k.mem && a.i0 < |k.mem[pt]| && k.mem[pt][a.i0] == Lookup(k, a)
    ensures PageSet(k, a, pt, Leaf(Lookup(k, a).phys, flags), k') && Tree(k') && Owned(k', m)
  {
    var e := Leaf(Lookup(k, a).phys, flags);
    TabLevel(k, a, 0);
    EndsLookup(k, a, 0);
    k' := SetEntry(k, pt, a.i0, e);
    ReflagOwned(k, m, pt, a.i0, e);
    SetTree(k, pt, a.i0, e);
    SetWays(k, pt, a.i0, e);
    forall b ensures Lookup(k', b) == if b == a then e else Lookup(k, b) { SetLookup(k, a, e, b); }
    if FullBut(k, pt) { SetFull(k, pt, a.i0, e); }
  }

  lemma ReflagOwned(k: Tables, m: Pages, t: nat, i: nat, e: Pte)
    requires Sized(k) && Owned(k, m) && Linked(k, t, i) && Level(k, t) == 0
    requires !e.Other? && (e.To? ==> e.phys == k.mem[t][i].phys)
    ensures Owned(SetEntry(k, t, i, e), m)
  {
    var k1 := SetEntry(k, t, i, Absent);
    ClearIdle(k, m, t, i);
    SetOwned(k, m, t, i, Absent);
    SetOwned(k1, m, t, i, e);
    assert k1.mem[t][i := e] == k.mem[t][i := e];
    assert SetEntry(k1, t, i, e) == SetEntry(k, t, i, e);
  }
}
