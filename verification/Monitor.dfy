/** Building the read-only window (kernel/monitor/monitor.c) from the page types (kernel/pcd.c). */
module Monitor {
  import opened Bits
  import opened PteBits
  import opened PageTables
  import opened TableRights
  import opened Frames
  import opened KmapSteps
  import opened KmapRegion
  import opened Window
  import opened Translation

  datatype PageType = OkNormal | NkNormal | NkPgtable | NkIo

  /** Tables below the first megabyte are not accepted when they are met again. */
  const LOW_LIMIT: nat := 0x10_0000

  ghost predicate LowTable(k: Tables)
  {
    exists t :: t in k.up && t < 0x10_0000
  }

  /** One of the tables on the way to a, below level l, is below the first megabyte. */
  ghost predicate LowBelow(k: Tables, a: Key, l: nat)
    decreases l
  {
    l > 0 && On(k, a, l - 1) && (Tab(k, a, l - 1) < 0x10_0000 || LowBelow(k, a, l - 1))
  }

  lemma {:induction false} LowIsTable(k: Tables, a: Key, l: nat)
    requires Tree(k) && l <= 3 && LowBelow(k, a, l)
    ensures LowTable(k)
    decreases l
  {
    TabLevel(k, a, l - 1);
    if Tab(k, a, l - 1) >= 0x10_0000 { LowIsTable(k, a, l - 1); }
  }

  /** The words of the window's entries. */
  lemma TableWordRo(c: nat)
    requires IsFrame(c)
    ensures Decode(Entry(c, 3)) == To(c, 3)
  {
    EntryParts(c, 3);
  }

  lemma PageWordRo(p: nat)
    requires IsFrame(p)
    ensures Decode(Entry(p, 1)) == To(p, 1)
  {
    EntryParts(p, 1);
  }

  /** An entry of a table, without its low bits, is the address of the table; it is no large page. */
  lemma TableBits(w: nat)
    requires Decode(w).To? && Decode(w).flags == 3
    ensures w - w % PAGE == Decode(w).phys && w / 0x80 % 2 == 0
  {
    var p := PhysOf(w);
    assert w == p + 3;
    LowBits(p / PAGE);
  }

  lemma LowBits(q: nat)
    ensures (PAGE * q + 3) % PAGE == 3 && (PAGE * q + 3) / 0x80 % 2 == 0
  {
    var a := 0x10 * q;
    assert PAGE * q + 3 == 0x80 * (2 * a) + 3;
    Quotient(2 * a);
  }

  lemma Quotient(a: nat)
    ensures (0x80 * a + 3) / 0x80 == a
  {
  }

  /** A present entry on the way to a page of the window leads to a table of the window. */
  lemma Met(words: Words, k: Tables, a: Key, l: nat, w: nat)
    requires Tree(k) && Shows(words, k) && Protected(k) && KeyOk(a) && InWindow(a.i3) && 0 < l <= 3 && On(k, a, l)
    requires Tab(k, a, l) in words && Index(a, l) < |words[Tab(k, a, l)]| && w == words[Tab(k, a, l)][Index(a, l)]
    requires Present(w)
    ensures On(k, a, l - 1) && Tab(k, a, l - 1) == w - w % PAGE && w - w % PAGE in k.up && w / 0x80 % 2 == 0
    ensures l < 3 ==> Tab(k, a, l) in k.up
  {
    var t, i := Tab(k, a, l), Index(a, l);
    TabLevel(k, a, l);
    ShowsEntry(words, k, t, i);
    assert Linked(k, t, i);
    TableBits(w);
    TabLevel(k, a, l - 1);
  }

  /** The window's tables grew, and pages are mapped as before. */
  ghost predicate Step(k: Tables, ts: seq<PageType>, m: Pages, k': Tables, ts': seq<PageType>, m': Pages)
  {
    SamePages(k, k') && Grown(k, ts, m, k', ts', m')
  }

  /** Tables were added with free pages, and marked. */
  ghost predicate Grown(k: Tables, ts: seq<PageType>, m: Pages, k': Tables, ts': seq<PageType>, m': Pages)
  {
    && (forall t :: t in k.up ==> t in k'.up)
    && Marked(NewTables(k, k'), ts, ts')
    && m'.pool <= m.pool && m.used <= m'.used
  }

  /** A page for a table was wanted in vain: there was none left, or page 0 was handed out. */
  ghost predicate Wanting(m: Pages, m': Pages)
  {
    m'.pool == {} || ZeroLost(m, m')
  }

  lemma StepNone(k: Tables, ts: seq<PageType>, m: Pages)
    ensures Step(k, ts, m, k, ts, m)
  {
    assert NewTables(k, k) == {};
  }

  lemma GrownTrans(k: Tables, ts: seq<PageType>, m: Pages, k1: Tables, ts1: seq<PageType>, m1: Pages, k2: Tables,
                   ts2: seq<PageType>, m2: Pages)
    requires Grown(k, ts, m, k1, ts1, m1) && Grown(k1, ts1, m1, k2, ts2, m2)
    ensures Grown(k, ts, m, k2, ts2, m2)
  {
    assert NewTables(k, k2) == NewTables(k, k1) + NewTables(k1, k2);
  }

  /** Of the pages, those of x have become table pages. */
  ghost predicate Marked(x: set<nat>, ts: seq<PageType>, ts': seq<PageType>)
  {
    && |ts'| == |ts|
    && forall i: nat :: i < |ts| ==> ts'[i] == if PAGE * i in x then NkPgtable else ts[i]
  }

  ghost function TypeSet(ts: seq<PageType>, i: nat, kind: PageType): seq<PageType>
  {
    if i < |ts| then ts[i := kind] else ts
  }

  /** The outcome of creating a table c at entry i of t. */
  ghost predicate Created(k: Tables, ts: seq<PageType>, m: Pages, t: nat, i: nat, ok: bool, c: nat, k': Tables,
                          ts': seq<PageType>, m': Pages)
  {
    && Step(k, ts, m, k', ts', m')
    && if ok then Attached(k, t, i, To(c, 3), k') else k' == k && Wanting(m, m')
  }

  /** The outcome of looking for the level l table on the way to a: it is refused if it was there and is
      low; none can be had; or it is there, and what is below it as before. */
  ghost predicate NextDone(k: Tables, ts: seq<PageType>, m: Pages, a: Key, l: nat, ok: bool, c: nat, k': Tables,
                           ts': seq<PageType>, m': Pages)
  {
    && Step(k, ts, m, k', ts', m')
    && if ok then On(k', a, l) && Tab(k', a, l) == c && (LowBelow(k, a, l + 1) <==> LowBelow(k', a, l))
       else k' == k && (LowBelow(k, a, l + 1) || Wanting(m, m'))
  }

  lemma CreatedNext(k: Tables, ts: seq<PageType>, m: Pages, a: Key, l: nat, ok: bool, c: nat, k': Tables,
                    ts': seq<PageType>, m': Pages)
    requires 0 < l <= 3 && Sized(k) && On(k, a, l)
    requires Created(k, ts, m, Tab(k, a, l), Index(a, l), ok, c, k', ts', m')
    ensures NextDone(k, ts, m, a, l - 1, ok, c, k', ts', m')
  {
    if ok {
      AttachKeepsOn(k, Tab(k, a, l), Index(a, l), To(c, 3), k', a, l);
      NothingBelow(k, a, l, c, k');
    }
  }

  /** Below a new table there is none. */
  lemma NothingBelow(k: Tables, a: Key, l: nat, c: nat, k': Tables)
    requires 0 < l <= 3 && Sized(k) && On(k, a, l) && Attached(k, Tab(k, a, l), Index(a, l), To(c, 3), k')
    requires On(k', a, l - 1) && Tab(k', a, l - 1) == c
    ensures !LowBelow(k, a, l) && !LowBelow(k', a, l - 1)
  {
    assert !Linked(k, Tab(k, a, l), Index(a, l));
    assert !Linked(k', c, Index(a, l - 1));
  }

  lemma AcceptedNext(k: Tables, ts: seq<PageType>, m: Pages, a: Key, l: nat, ok: bool, c: nat)
    requires 0 < l <= 3 && On(k, a, l - 1) && Tab(k, a, l - 1) == c && (ok <==> c >= 0x10_0000)
    ensures NextDone(k, ts, m, a, l - 1, ok, c, k, ts, m)
  {
    StepNone(k, ts, m);
  }

  /** The outcome of a walk to a from level l down: it gets to the level 0 table pt exactly if no table
      that was there is low and none is wanted in vain. */
  ghost predicate Reached(k: Tables, ts: seq<PageType>, m: Pages, a: Key, l: nat, ok: bool, pt: nat, k': Tables,
                           ts': seq<PageType>, m': Pages)
  {
    && Step(k, ts, m, k', ts', m')
    && if ok then On(k', a, 0) && Tab(k', a, 0) == pt && !LowBelow(k, a, l)
       else LowBelow(k, a, l) || Wanting(m, m')
  }

  lemma ReachedHere(k: Tables, ts: seq<PageType>, m: Pages, a: Key, t: nat)
    requires On(k, a, 0) && t == Tab(k, a, 0)
    ensures Reached(k, ts, m, a, 0, true, t, k, ts, m)
  {
    StepNone(k, ts, m);
  }

  lemma ReachedFailed(k: Tables, ts: seq<PageType>, m: Pages, a: Key, l: nat, c: nat, k': Tables, ts': seq<PageType>,
                       m': Pages)
    requires NextDone(k, ts, m, a, l, false, c, k', ts', m')
    ensures Reached(k, ts, m, a, l + 1, false, 0, k', ts', m')
  {
  }

  lemma ReachedTrans(k: Tables, ts: seq<PageType>, m: Pages, k1: Tables, ts1: seq<PageType>, m1: Pages,
                      a: Key, l: nat, c: nat, ok: bool, pt: nat, k2: Tables, ts2: seq<PageType>, m2: Pages)
    requires NextDone(k, ts, m, a, l, true, c, k1, ts1, m1) && Reached(k1, ts1, m1, a, l, ok, pt, k2, ts2, m2)
    ensures Reached(k, ts, m, a, l + 1, ok, pt, k2, ts2, m2)
  {
    GrownTrans(k, ts, m, k1, ts1, m1, k2, ts2, m2);
  }

  /** The outcome of mapping phys at page a of the window: done, and then no table that was on the way is
      low; or not, and then one is or a page for a table was wanted in vain. */
  ghost predicate RoDone(k: Tables, ts: seq<PageType>, m: Pages, a: Key, phys: nat, r: int, k': Tables,
                         ts': seq<PageType>, m': Pages)
  {
    && Grown(k, ts, m, k', ts', m')
    && if r == 0 then Updated(k, a, To(phys, 1), k') && !LowBelow(k, a, 3)
       else SamePages(k, k') && (LowBelow(k, a, 3) || Wanting(m, m'))
  }

  lemma RoDoneFacts(k: Tables, ts: seq<PageType>, m: Pages, a: Key, phys: nat, k1: Tables, k': Tables,
                    ts': seq<PageType>, m': Pages)
    requires Step(k, ts, m, k1, ts', m') && Updated(k1, a, To(phys, 1), k') && k'.up == k1.up && !LowBelow(k, a, 3)
    ensures RoDone(k, ts, m, a, phys, 0, k', ts', m')
  {
    assert NewTables(k, k') == NewTables(k, k1);
  }

  predicate Tracked(kind: PageType) { kind == NkNormal || kind == NkPgtable }

  /** Page j may be seen: it was the nested kernel's, or it has become a table of the window. */
  ghost predicate MayShow(ts: seq<PageType>, x: set<nat>, j: nat)
  {
    j < |ts| && (Tracked(ts[j]) || PAGE * j in x)
  }

  /** Page b is one of the window's first n pages and shows the page it stands for, read-only. */
  ghost predicate ShownAt(ts: seq<PageType>, x: set<nat>, k: Tables, b: Key, n: nat)
  {
    exists j: nat :: j < n && MayShow(ts, x, j) && Exposes(k, b, j)
  }

  ghost predicate Exposes(k: Tables, b: Key, j: nat)
  {
    b == WindowKey(j) && Lookup(k, b) == To(PAGE * j, 1)
  }

  /** Of the window's first n pages, all that were the nested kernel's are seen but those of `failed`,
      which are not; nothing else is seen but tables of the window, x, that were made since. */
  ghost predicate Opened(ts: seq<PageType>, x: set<nat>, n: nat, failed: set<nat>, k: Tables)
  {
    && (forall b {:trigger Lookup(k, b)} :: Lookup(k, b) == Absent || ShownAt(ts, x, k, b, n))
    && (forall j: nat {:trigger Exposes(k, WindowKey(j), j)} ::
          j < n && j < |ts| && Tracked(ts[j]) && j !in failed ==> Exposes(k, WindowKey(j), j))
    && (forall j {:trigger j in failed} :: j in failed ==> j < n && Lookup(k, WindowKey(j)) == Absent)
  }

  lemma FrameOf(i: nat)
    requires i < FRAMES
    ensures IsFrame(PAGE * i)
  {
  }

  lemma OpenedSkip(ts: seq<PageType>, x: set<nat>, i: nat, failed: set<nat>, k: Tables)
    requires i < |ts| && !Tracked(ts[i]) && Opened(ts, x, i, failed, k)
    ensures Opened(ts, x, i + 1, failed, k)
  {
    forall b ensures Lookup(k, b) == Absent || ShownAt(ts, x, k, b, i + 1) {
      if Lookup(k, b) != Absent {
        var j: nat :| j < i && MayShow(ts, x, j) && Exposes(k, b, j);
      }
    }
  }

  lemma OpenedNext(ts: seq<PageType>, x: set<nat>, i: nat, failed: set<nat>, k: Tables, r: int, x': set<nat>,
                   k': Tables)
    requires i < |ts| <= FRAMES && Opened(ts, x, i, failed, k) && MayShow(ts, x, i) && x <= x'
    requires if r == 0 then Updated(k, WindowKey(i), To(PAGE * i, 1), k') else SamePages(k, k')
    ensures Opened(ts, x', i + 1, if r == 0 then failed else failed + {i}, k')
  {
    var a := WindowKey(i);
    forall j: nat | j < i ensures WindowKey(j) != a { WindowKeysDiffer(j, i); }
    assert Lookup(k, a) == Absent;
    forall b ensures Lookup(k', b) == Absent || ShownAt(ts, x', k', b, i + 1) {
      if b == a && r == 0 {
        assert MayShow(ts, x', i) && Exposes(k', b, i);
      } else if Lookup(k, b) != Absent {
        var j: nat :| j < i && MayShow(ts, x, j) && Exposes(k, b, j);
        assert MayShow(ts, x', j) && Exposes(k', b, j);
      }
    }
    forall j: nat | j < i + 1 && Tracked(ts[j]) && j !in (if r == 0 then failed else failed + {i})
      ensures Exposes(k', WindowKey(j), j)
    {
      assert j < i ==> Exposes(k, WindowKey(j), j);
    }
  }

  /** The state of the loop before page i: the window has grown from k0 and the page types with it,
      and shows what it should of the pages before i. */
  ghost predicate Opening(k0: Tables, ts: seq<PageType>, m0: Pages, i: nat, failed: set<nat>, k: Tables,
                          ts': seq<PageType>, m: Pages)
  {
    && Grown(k0, ts, m0, k, ts', m)
    && Opened(ts, NewTables(k0, k), i, failed, k)
    && (failed != {} ==> LowTable(k) || Wanting(m0, m))
  }

  lemma OpeningStart(k0: Tables, ts: seq<PageType>, m0: Pages)
    requires forall b :: Lookup(k0, b) == Absent
    ensures Opening(k0, ts, m0, 0, {}, k0, ts, m0)
  {
    StepNone(k0, ts, m0);
  }

  lemma OpeningSkip(k0: Tables, ts: seq<PageType>, m0: Pages, i: nat, failed: set<nat>, k: Tables, ts': seq<PageType>,
                    m: Pages)
    requires i < |ts| && Opening(k0, ts, m0, i, failed, k, ts', m) && !Tracked(ts'[i])
    ensures Opening(k0, ts, m0, i + 1, failed, k, ts', m)
  {
    OpenedSkip(ts, NewTables(k0, k), i, failed, k);
  }

  lemma OpeningNext(k0: Tables, ts: seq<PageType>, m0: Pages, i: nat, failed: set<nat>, k: Tables, ts1: seq<PageType>,
                    m: Pages,
                    r: int, k': Tables, ts2: seq<PageType>, m': Pages)
    requires i < |ts| <= FRAMES && Opening(k0, ts, m0, i, failed, k, ts1, m) && Tracked(ts1[i])
    requires Tree(k) && RoDone(k, ts1, m, WindowKey(i), PAGE * i, r, k', ts2, m')
    ensures Opening(k0, ts, m0, i + 1, if r == 0 then failed else failed + {i}, k', ts2, m')
  {
    GrownTrans(k0, ts, m0, k, ts1, m, k', ts2, m');
    assert MayShow(ts, NewTables(k0, k), i);
    OpenedNext(ts, NewTables(k0, k), i, failed, k, r, NewTables(k0, k'), k');
    if LowBelow(k, WindowKey(i), 3) { LowIsTable(k, WindowKey(i), 3); }
    assert LowTable(k) ==> LowTable(k');
  }

  /** What the processor makes of the pages once the window is built: those outside it are
      translated as before, those in it not at all or to the page they stand for, read-only, and
      then that page was the nested kernel's or is a new table of the window. */
  lemma WindowTheorem(w0: Words, w: Words, k: Tables, m: Pages, ts: seq<PageType>, x: set<nat>, failed: set<nat>,
                      a: Key)
    requires Built(w0, w, k, m) && Opened(ts, x, |ts|, failed, k) && KeyOk(a)
    ensures !InWindow(a.i3) ==> Translate(w, k.root, a, 3) == Translate(w0, k.root, a, 3)
    ensures InWindow(a.i3) ==> Translate(w, k.root, a, 3) == Fault || TranslatedAt(w, k.root, a, ts, x)
  {
    if InWindow(a.i3) {
      SameInside(w, k, a);
      if Lookup(k, a) != Absent {
        var j: nat :| j < |ts| && MayShow(ts, x, j) && Exposes(k, a, j);
        assert a == WindowKey(j) && Translate(w, k.root, a, 3) == Page(PAGE * j, 1, 0, Access(false, false, true));
      }
    } else {
      AvoidsFewer(w0, k.root, 3, m.pool + k.up.Keys + {k.root}, k.up.Keys + {k.root});
      SameOutside(w0, k.root, k.up.Keys, w, a);
    }
  }

  /** Page a is the window's page of a page that may be seen, and is translated to that with the
      present bit only. */
  ghost predicate TranslatedAt(w: Words, root: nat, a: Key, ts: seq<PageType>, x: set<nat>)
  {
    exists j: nat :: MayShow(ts, x, j) && a == WindowKey(j)
                     && Translate(w, root, a, 3) == Page(PAGE * j, 1, 0, Access(false, false, true))
  }

  /** Every page of the nested kernel is seen in the window, unless mapping it failed. */
  lemma WindowShows(w0: Words, w: Words, k: Tables, m: Pages, ts: seq<PageType>, x: set<nat>, failed: set<nat>, j: nat)
    requires Built(w0, w, k, m) && Opened(ts, x, |ts|, failed, k) && |ts| <= FRAMES
    requires j < |ts| && Tracked(ts[j]) && j !in failed
    ensures Translate(w, k.root, WindowKey(j), 3) == Page(PAGE * j, 1, 0, Access(false, false, true))
  {
    WindowSlot(j);
    assert Exposes(k, WindowKey(j), j);
    SameInside(w, k, WindowKey(j));
  }

  /** No other page is, as long as it does not become a table of the window; nor one that failed. */
  lemma WindowHides(w0: Words, w: Words, k: Tables, m: Pages, ts: seq<PageType>, x: set<nat>, failed: set<nat>, j: nat)
    requires Built(w0, w, k, m) && Opened(ts, x, |ts|, failed, k) && |ts| <= FRAMES && j < |ts|
    requires !MayShow(ts, x, j) || j in failed
    ensures Translate(w, k.root, WindowKey(j), 3) == Fault
  {
    WindowSlot(j);
    HiddenKey(ts, x, failed, k, j);
    SameInside(w, k, WindowKey(j));
  }

  lemma HiddenKey(ts: seq<PageType>, x: set<nat>, failed: set<nat>, k: Tables, j: nat)
    requires Opened(ts, x, |ts|, failed, k) && |ts| <= FRAMES && j < |ts| && (!MayShow(ts, x, j) || j in failed)
    ensures Lookup(k, WindowKey(j)) == Absent
  {
    if Lookup(k, WindowKey(j)) != Absent {
      var i: nat :| i < |ts| && MayShow(ts, x, i) && Exposes(k, WindowKey(j), i);
      if i < j { WindowKeysDiffer(i, j); } else if j < i { WindowKeysDiffer(j, i); }
    }
  }

  /** Page control data: a type for every page. */
  class Pcd {
    var types: seq<PageType>

    constructor (pages: nat)
      ensures |types| == pages && forall i: nat :: i < pages ==> types[i] == NkNormal
    {
      types := seq(pages, _ => NkNormal);
    }

    /** The type of a page is changed if it is tracked. */
    method SetType(phys: nat, kind: PageType)
      modifies this
      ensures types == TypeSet(old(types), phys / PAGE, kind)
    {
      var i := phys / PAGE;
      if i >= |types| {
        return;
      }
      types := types[i := kind];
    }

    function GetType(phys: nat): PageType
      reads this
    {
      if phys / PAGE < |types| then types[phys / PAGE] else NkNormal
    }
  }

  lemma TypeOf(pcd: Pcd, i: nat)
    requires i < |pcd.types|
    ensures pcd.GetType(PAGE * i) == pcd.types[i]
  {
  }

  class Monitor {
    const frames: FrameSource
    const pcd: Pcd
    const pml4: nat
    const pdpt: nat
    const pd: nat
    const monitorPml4: nat
    const monitorPdpt: nat
    const monitorPd: nat
    var words: Words
    ghost const start: Words
    ghost var win: Tables

    /** Page x is neither free nor in the window. */
    ghost predicate Apart(x: nat, m: Pages, k: Tables)
    {
      x !in m.pool && x !in k.up
    }

    /** The tables made at initialization. */
    ghost predicate OwnApart(m: Pages, k: Tables)
    {
      && Apart(pml4, m, k) && Apart(pdpt, m, k) && Apart(pd, m, k)
      && Apart(monitorPml4, m, k) && Apart(monitorPdpt, m, k) && Apart(monitorPd, m, k)
    }

    ghost predicate Valid()
      reads this, frames, frames.pmm, frames.pmm.blocks
    {
      && frames.Valid() && PagesOk(frames.pages)
      && win.root == pml4 && Built(start, words, win, frames.pages)
      && OwnApart(frames.pages, win)
    }

    /** Take over the tables `words`, whose slots for the window are empty. */
    constructor (frames: FrameSource, pml4: nat, pdpt: nat, pd: nat, monitorPml4: nat, monitorPdpt: nat, monitorPd: nat,
                 pcd: Pcd, words: Words)
      requires frames.Valid() && PagesOk(frames.pages)
      requires pml4 in words && |words[pml4]| == SLOTS
      requires forall i: nat :: i < SLOTS && InWindow(i) ==> Decode(words[pml4][i]) == Absent
      requires forall t :: t in words ==> t !in frames.pages.pool
      requires forall x :: x in frames.pages.pool ==> x !in {pml4, pdpt, pd, monitorPml4, monitorPdpt, monitorPd}
      requires Avoids(words, pml4, 3, frames.pages.pool + {pml4})
      ensures Valid() && this.frames == frames && this.pcd == pcd && this.words == words && start == words
      ensures this.pml4 == pml4 && forall b :: Lookup(win, b) == Absent
    {
      this.frames := frames;
      this.pml4 := pml4;
      this.pdpt := pdpt;
      this.pd := pd;
      this.monitorPml4 := monitorPml4;
      this.monitorPdpt := monitorPdpt;
      this.monitorPd := monitorPd;
      this.pcd := pcd;
      this.words := words;
      this.start := words;
      win := Tables(pml4, map[pml4 := Zeros()], map[], map[]);
      new;
      NoWindow(words, pml4, frames.pages);
    }

    /** Tables whose slots for the window are empty hold an empty window. */
    static lemma NoWindow(words: Words, root: nat, m: Pages)
      requires root in words && |words[root]| == SLOTS && (forall t :: t in words ==> t !in m.pool)
      requires forall i: nat :: i < SLOTS && InWindow(i) ==> Decode(words[root][i]) == Absent
      requires Avoids(words, root, 3, m.pool + {root})
      ensures var k := Tables(root, map[root := Zeros()], map[], map[]);
        Built(words, words, k, m) && k.up.Keys == {} && forall b :: Lookup(k, b) == Absent
    {
      var k := Tables(root, map[root := Zeros()], map[], map[]);
      assert k.up.Keys == {};
      assert forall t, i: nat :: !Linked(k, t, i) && !Closed(k, t, i);
      AvoidsFewer(words, root, 3, m.pool + {root}, m.pool + k.up.Keys + {root});
      forall b ensures Lookup(k, b) == Absent {
        assert On(k, b, 3);
        EndsLookup(k, b, 3);
      }
    }

    /** Enter a new table at the empty entry i of table t. */
    method CreateTable(t: nat, i: nat) returns (ok: bool, c: nat)
      requires Valid() && t in win.mem && Level(win, t) > 0 && i < SLOTS && win.mem[t][i] == Absent
      requires (t == pml4 ==> InWindow(i))
      modifies this, frames, frames.pmm, frames.pmm.blocks, pcd
      ensures Valid() && Created(old(win), old(pcd.types), old(frames.pages), t, i, ok, c, win, pcd.types, frames.pages)
    {
      ghost var k, m, ts := win, frames.pages, pcd.types;
      c := NewTable();
      if c == 0 {
        NoTable(start, words, k, m, ts, frames.pages);
        return false, 0;
      }
      Enter(t, i, c, m);
      CreatedStep(k, m, t, i, c, win, ts, pcd.types, frames.pages);
      ok := true;
    }

    /** Nothing has changed but the free pages, if no page for a table could be had. */
    lemma NoTable(w0: Words, w: Words, k: Tables, m: Pages, ts: seq<PageType>, m': Pages)
      requires Built(w0, w, k, m) && OwnApart(m, k) && PagesOk(m') && NotTaken(m, m')
      ensures Built(w0, w, k, m') && OwnApart(m', k) && Step(k, ts, m, k, ts, m') && Wanting(m, m')
    {
      forall x | x in m'.pool ensures x in m.pool { assert x in m'.pool + m'.lost; }
      AvoidsFewer(w0, k.root, 3, m.pool + k.up.Keys + {k.root}, m'.pool + k.up.Keys + {k.root});
      StepNone(k, ts, m);
    }

    /** A page for a table, marked as such; 0 if there is none. */
    method NewTable() returns (c: nat)
      requires frames.Valid() && PagesOk(frames.pages) && OwnApart(frames.pages, win)
      modifies frames, frames.pmm, frames.pmm.blocks, pcd
      ensures frames.Valid() && PagesOk(frames.pages)
      ensures c == 0 ==> NotTaken(old(frames.pages), frames.pages) && pcd.types == old(pcd.types)
      ensures c != 0 ==> IsFrame(c) && Taken(old(frames.pages), c, frames.pages)
      ensures c != 0 ==> pcd.types == TypeSet(old(pcd.types), c / PAGE, NkPgtable)
    {
      c := frames.Take();
      if c == 0 {
        return;
      }
      if c == pd || c == pdpt || c == pml4 || c == monitorPd || c == monitorPdpt || c == monitorPml4 {
        assert false;
      }
      pcd.SetType(c, NkPgtable);
    }

    method Enter(t: nat, i: nat, c: nat, ghost m: Pages)
      requires frames.Valid() && PagesOk(m) && PagesOk(frames.pages) && IsFrame(c) && Taken(m, c, frames.pages)
      requires win.root == pml4 && Built(start, words, win, m) && OwnApart(m, win)
      requires t in win.mem && Level(win, t) > 0 && i < SLOTS && win.mem[t][i] == Absent && (t == pml4 ==> InWindow(i))
      modifies `words, `win
      ensures Valid() && Attached(old(win), t, i, To(c, 3), win)
    {
      var word := Entry(c, 3);
      TableWordRo(c);
      LinkIn(t, i, c, word, m);
    }

    method LinkIn(t: nat, i: nat, c: nat, word: nat, ghost m: Pages)
      requires frames.Valid() && PagesOk(m) && PagesOk(frames.pages) && Taken(m, c, frames.pages)
      requires Decode(word) == To(c, 3)
      requires win.root == pml4 && Built(start, words, win, m) && OwnApart(m, win)
      requires t in win.mem && Level(win, t) > 0 && i < SLOTS && win.mem[t][i] == Absent && (t == pml4 ==> InWindow(i))
      modifies `words, `win
      ensures Valid() && Attached(old(win), t, i, To(c, 3), win)
    {
      var row: seq<nat> := words[t][i := word];
      var zeros: seq<nat> := seq(SLOTS, _ => 0);
      var words': Words := words[c := zeros];
      words' := words'[t := row];
      ghost var k' := Attach(win, t, i, To(c, 3));
      LinkFacts(words, win, m, t, i, c, word, zeros, row, words', frames.pages);
      Adopt(words', k');
    }

    lemma LinkFacts(w: Words, k: Tables, m: Pages, t: nat, i: nat, c: nat, word: nat, zeros: seq<nat>, row: seq<nat>,
                    w': Words, m': Pages)
      requires PagesOk(m) && PagesOk(m') && Taken(m, c, m') && Decode(word) == To(c, 3)
      requires Built(start, w, k, m) && OwnApart(m, k) && t in k.mem && Level(k, t) > 0 && i < SLOTS
      requires k.mem[t][i] == Absent
      requires (t == k.root ==> InWindow(i)) && |zeros| == SLOTS && forall j: nat :: j < SLOTS ==> zeros[j] == 0
      requires t in w && i < |w[t]| && row == w[t][i := word] && w' == w[c := zeros][t := row]
      ensures var k' := Attach(k, t, i, To(c, 3));
        Attached(k, t, i, To(c, 3), k') && Built(start, w', k', m') && OwnApart(m', k')
    {
      var k' := Attach(k, t, i, To(c, 3));
      assert c !in k.mem;
      AttachFacts(k, t, i, To(c, 3));
      BuiltTaken(start, w, k, m, c, m', zeros, t, row, i, word, w', k');
      OwnStays(k, m, t, i, c, k', m');
    }

    /** The tables are now words', and the window is k'. */
    method Adopt(words': Words, ghost k': Tables)
      requires frames.Valid() && PagesOk(frames.pages)
      requires k'.root == pml4 && Built(start, words', k', frames.pages) && OwnApart(frames.pages, k')
      modifies `words, `win
      ensures Valid() && win == k' && words == words'
    {
      words := words';
      win := k';
    }

    lemma OwnStays(k: Tables, m: Pages, t: nat, i: nat, c: nat, k': Tables, m': Pages)
      requires OwnApart(m, k) && Attached(k, t, i, To(c, 3), k') && Taken(m, c, m') && PagesOk(m')
      ensures OwnApart(m', k')
    {
      forall x | Apart(x, m, k) ensures Apart(x, m', k') { assert x in m'.pool ==> x in m'.pool + m'.lost; }
    }

    static lemma CreatedStep(k: Tables, m: Pages, t: nat, i: nat, c: nat, k': Tables, ts: seq<PageType>,
                             ts': seq<PageType>, m': Pages)
      requires Tree(k) && Attached(k, t, i, To(c, 3), k') && c % PAGE == 0 && Taken(m, c, m') && PagesOk(m')
      requires ts' == TypeSet(ts, c / PAGE, NkPgtable)
      ensures Step(k, ts, m, k', ts', m')
    {
      forall x | x in m'.pool ensures x in m.pool { assert x in m'.pool + m'.lost; }
      forall b ensures Lookup(k', b) == Lookup(k, b) { AttachLookup(k, t, i, To(c, 3), k', b); }
      assert NewTables(k, k') == {c};
      forall j: nat | j < |ts| ensures ts'[j] == if PAGE * j in NewTables(k, k') then NkPgtable else ts[j] {
        assert PAGE * j == c <==> j == c / PAGE;
      }
    }

    /** The table below the level l table t on the way to page a of the window, created if it is
        missing. */
    method NextTable(a: Key, l: nat, t: nat) returns (ok: bool, c: nat)
      requires Valid() && KeyOk(a) && InWindow(a.i3) && 0 < l <= 3 && On(win, a, l) && t == Tab(win, a, l)
      modifies this, frames, frames.pmm, frames.pmm.blocks, pcd
      ensures Valid()
      ensures NextDone(old(win), old(pcd.types), old(frames.pages), a, l - 1, ok, c, win, pcd.types, frames.pages)
    {
      ghost var k, ts, m := win, pcd.types, frames.pages;
      var i := Index(a, l);
      TabLevel(win, a, l);
      ShowsEntry(words, win, t, i);
      var w := words[t][i];
      if !Present(w) {
        ok, c := CreateTable(t, i);
        CreatedNext(k, ts, m, a, l, ok, c, win, pcd.types, frames.pages);
      } else {
        Met(words, win, a, l, w);
        ok, c := Accept(l, i, t, w);
        AcceptedNext(k, ts, m, a, l, ok, c);
      }
    }

    /** Whether a table that is already there may be used: not one of the identity map, not a large
        page, and not below the first megabyte. */
    method Accept(l: nat, i: nat, t: nat, w: nat) returns (ok: bool, c: nat)
      requires OwnApart(frames.pages, win) && w % PAGE <= w && w - w % PAGE in win.up && w / 0x80 % 2 == 0
      requires (l < 3 ==> t in win.up)
      ensures c == w - w % PAGE && (ok <==> c >= 0x10_0000)
    {
      c := w - w % PAGE;
      if l == 3 && i != 0 && c == pdpt {
        assert false;
      }
      if l == 2 && c == pd {
        assert false;
      }
      if l == 1 && t == pd {
        assert false;
      }
      if l == 1 && w / 0x80 % 2 == 1 {
        assert false;
      }
      ok := c >= LOW_LIMIT;
    }

    /** The level 0 table on the way to page a of the window, from the level l table t down. */
    method WalkTables(a: Key, l: nat, t: nat) returns (ok: bool, pt: nat)
      requires Valid() && KeyOk(a) && InWindow(a.i3) && l <= 3 && On(win, a, l) && t == Tab(win, a, l)
      modifies this, frames, frames.pmm, frames.pmm.blocks, pcd
      ensures Valid()
      ensures Reached(old(win), old(pcd.types), old(frames.pages), a, l, ok, pt, win, pcd.types, frames.pages)
      decreases l, 1
    {
      if l == 0 {
        ReachedHere(win, pcd.types, frames.pages, a, t);
        return true, t;
      }
      ok, pt := WalkBelow(a, l - 1, t);
    }

    method WalkBelow(a: Key, l: nat, t: nat) returns (ok: bool, pt: nat)
      requires Valid() && KeyOk(a) && InWindow(a.i3) && l < 3 && On(win, a, l + 1) && t == Tab(win, a, l + 1)
      modifies this, frames, frames.pmm, frames.pmm.blocks, pcd
      ensures Valid()
      ensures Reached(old(win), old(pcd.types), old(frames.pages), a, l + 1, ok, pt, win, pcd.types, frames.pages)
      decreases l + 1, 0
    {
      ghost var k, ts, m := win, pcd.types, frames.pages;
      var c;
      ok, c := NextTable(a, l + 1, t);
      if !ok {
        ReachedFailed(k, ts, m, a, l, c, win, pcd.types, frames.pages);
        return false, 0;
      }
      ghost var k1, ts1, m1 := win, pcd.types, frames.pages;
      ok, pt := WalkTables(a, l, c);
      ReachedTrans(k, ts, m, k1, ts1, m1, a, l, c, ok, pt, win, pcd.types, frames.pages);
    }

    /** Enter page phys, read-only, as page a of the window. */
    method EnterPage(a: Key, pt: nat, phys: nat)
      requires Valid() && KeyOk(a) && On(win, a, 0) && pt == Tab(win, a, 0) && IsFrame(phys)
      modifies `words, `win
      ensures Valid() && Updated(old(win), a, To(phys, 1), win) && win.up == old(win).up
    {
      var word := Entry(phys, 1);
      PageWordRo(phys);
      PutPage(a, pt, phys, word);
    }

    method PutPage(a: Key, pt: nat, ghost phys: nat, word: nat)
      requires Valid() && KeyOk(a) && On(win, a, 0) && pt == Tab(win, a, 0) && Decode(word) == To(phys, 1)
      modifies `words, `win
      ensures Valid() && Updated(old(win), a, To(phys, 1), win) && win.up == old(win).up
    {
      TabLevel(win, a, 0);
      var row: seq<nat> := words[pt][a.i0 := word];
      ghost var k' := SetEntry(win, pt, a.i0, To(phys, 1));
      BuiltSet(start, words, win, frames.pages, pt, a.i0, phys, row, word);
      forall b
        ensures Lookup(k', b) == if b == a then To(phys, 1) else Lookup(win, b)
      {
        SetLookup(win, a, To(phys, 1), b);
      }
      Adopt(words[pt := row], k');
    }

    /** Map page phys read-only at page a of the window. */
    method CreateRoMapping(a: Key, phys: nat) returns (r: int)
      requires Valid() && KeyOk(a) && InWindow(a.i3) && IsFrame(phys)
      modifies this, frames, frames.pmm, frames.pmm.blocks, pcd
      ensures Valid() && (r == 0 || r == -1)
      ensures RoDone(old(win), old(pcd.types), old(frames.pages), a, phys, r, win, pcd.types, frames.pages)
    {
      ghost var k, ts, m := win, pcd.types, frames.pages;
      var ok, pt := WalkTables(a, 3, pml4);
      if !ok {
        return -1;
      }
      ghost var k1 := win;
      EnterPage(a, pt, phys);
      RoDoneFacts(k, ts, m, a, phys, k1, win, pcd.types, frames.pages);
      r := 0;
    }

    /** Build the window: every page of the nested kernel is mapped read-only, as far as there are
        pages for tables, and no page of another type. */
    method CreateRoMappings() returns (r: int, ghost failed: set<nat>)
      requires Valid() && |pcd.types| <= FRAMES && forall b :: Lookup(win, b) == Absent
      modifies this, frames, frames.pmm, frames.pmm.blocks, pcd
      ensures Valid() && r == 0
      ensures Opening(old(win), old(pcd.types), old(frames.pages), |old(pcd.types)|, failed,
                      win, pcd.types, frames.pages)
    {
      ghost var k0, ts, m0 := win, pcd.types, frames.pages;
      var n, i := |pcd.types|, 0;
      failed := {};
      OpeningStart(k0, ts, m0);
      while i < n
        invariant i <= n && Valid() && Opening(k0, ts, m0, i, failed, win, pcd.types, frames.pages)
      {
        failed := VisitPage(i, k0, ts, m0, failed);
        i := i + 1;
      }
      r := 0;
    }

    /** Page i of the window. */
    method VisitPage(i: nat, ghost k0: Tables, ghost ts: seq<PageType>, ghost m0: Pages, ghost failed: set<nat>)
      returns (ghost failed': set<nat>)
      requires Valid() && i < |ts| <= FRAMES && Opening(k0, ts, m0, i, failed, win, pcd.types, frames.pages)
      modifies this, frames, frames.pmm, frames.pmm.blocks, pcd
      ensures Valid() && Opening(k0, ts, m0, i + 1, failed', win, pcd.types, frames.pages)
    {
      failed' := failed;
      var phys := PAGE * i;
      var kind := pcd.GetType(phys);
      TypeOf(pcd, i);
      if kind == NkNormal || kind == NkPgtable {
        failed' := MapNext(i, phys, k0, ts, m0, failed);
      } else {
        OpeningSkip(k0, ts, m0, i, failed, win, pcd.types, frames.pages);
      }
    }

    method MapNext(i: nat, phys: nat, ghost k0: Tables, ghost ts: seq<PageType>, ghost m0: Pages,
                   ghost failed: set<nat>)
      returns (ghost failed': set<nat>)
      requires Valid() && i < |ts| <= FRAMES && phys == PAGE * i
      requires Opening(k0, ts, m0, i, failed, win, pcd.types, frames.pages) && Tracked(pcd.types[i])
      modifies this, frames, frames.pmm, frames.pmm.blocks, pcd
      ensures Valid() && Opening(k0, ts, m0, i + 1, failed', win, pcd.types, frames.pages)
    {
      ghost var k, ts1, m := win, pcd.types, frames.pages;
      WindowSlot(i);
      FrameOf(i);
      var r := CreateRoMapping(KeyOf(RO_BASE + phys), phys);
      failed' := if r == 0 then failed else failed + {i};
      OpeningNext(k0, ts, m0, i, failed, k, ts1, m, r, win, pcd.types, frames.pages);
    }

    /** monitor_create_ro_mappings on tables without a window, in terms of what the processor
        sees before and after: pages outside the window as before; in the window, every page of the nested
        kernel, read-only, unless it failed; and none of the other pages but those that have become
        tables, whose type says so. */
    method OpenWindow() returns (r: int, ghost failed: set<nat>)
      requires Valid() && words == start && |pcd.types| <= FRAMES && forall b :: Lookup(win, b) == Absent
      modifies this, frames, frames.pmm, frames.pmm.blocks, pcd
      ensures Valid() && r == 0
      ensures forall a :: KeyOk(a) && !InWindow(a.i3) ==>
        Translate(words, pml4, a, 3) == Translate(old(words), pml4, a, 3)
      ensures forall a :: KeyOk(a) && InWindow(a.i3) ==>
        || Translate(words, pml4, a, 3) == Fault
        || TranslatedAt(words, pml4, a, old(pcd.types), words.Keys - old(words).Keys)
      ensures forall j: nat :: j < |old(pcd.types)| ==>
        AsTyped(words, pml4, old(pcd.types)[j], words.Keys - old(words).Keys, failed, j)
      ensures |pcd.types| == |old(pcd.types)|
      ensures forall j: nat :: j < |pcd.types| ==>
        pcd.types[j] == if 0x1000 * j in words.Keys - old(words).Keys then NkPgtable else old(pcd.types)[j]
      ensures failed != {} ==> LowTable(win) || Wanting(old(frames.pages), frames.pages)
    {
      ghost var k, m, ts := win, frames.pages, pcd.types;
      r, failed := CreateRoMappings();
      NewWords(start, k, m, words, win, frames.pages);
      SeenAll(start, words, win, frames.pages, ts, NewTables(k, win), failed);
    }
  }

  /** In tables without a window, the new tables of the window are the new tables. */
  lemma NewWords(w0: Words, k: Tables, m: Pages, w: Words, k': Tables, m': Pages)
    requires Built(w0, w0, k, m) && Built(w0, w, k', m')
    ensures NewTables(k, k') == w.Keys - w0.Keys
  {
    assert forall t :: t in k.up ==> t in w0 && t !in w0.Keys;
    assert k.up.Keys == {};
  }

  lemma SeenAll(w0: Words, w: Words, k: Tables, m: Pages, ts: seq<PageType>, x: set<nat>, failed: set<nat>)
    requires Built(w0, w, k, m) && Opened(ts, x, |ts|, failed, k) && |ts| <= FRAMES
    ensures forall a :: KeyOk(a) && !InWindow(a.i3) ==> Translate(w, k.root, a, 3) == Translate(w0, k.root, a, 3)
    ensures forall a :: KeyOk(a) && InWindow(a.i3) ==>
      Translate(w, k.root, a, 3) == Fault || TranslatedAt(w, k.root, a, ts, x)
    ensures forall j: nat :: j < |ts| ==> AsTyped(w, k.root, ts[j], x, failed, j)
  {
    forall a | KeyOk(a)
      ensures !InWindow(a.i3) ==> Translate(w, k.root, a, 3) == Translate(w0, k.root, a, 3)
      ensures InWindow(a.i3) ==> Translate(w, k.root, a, 3) == Fault || TranslatedAt(w, k.root, a, ts, x)
    {
      WindowTheorem(w0, w, k, m, ts, x, failed, a);
    }
    forall j: nat | j < |ts| ensures AsTyped(w, k.root, ts[j], x, failed, j) {
      if j in failed || !MayShow(ts, x, j) {
        WindowHides(w0, w, k, m, ts, x, failed, j);
      } else if Tracked(ts[j]) {
        WindowShows(w0, w, k, m, ts, x, failed, j);
      }
    }
  }

  /** What the processor makes of the window's page for page j, of the given type: the nested kernel's
      pages and its tables are present, and neither to be written nor used by user code; pages of the
      outer kernel and of devices fault, unless they are among the new tables x; so do those that
      failed. */
  ghost predicate AsTyped(w: Words, root: nat, kind: PageType, x: set<nat>, failed: set<nat>, j: nat)
  {
    var there := Translate(w, root, KeyOf(0xFFFF_8800_0000_0000 + 0x1000 * j), 3);
    && (j in failed ==> there == Fault)
    && (kind == NkNormal || kind == NkPgtable ==>
          j in failed || there == Page(0x1000 * j, 1, 0, Access(false, false, true)))
    && (kind == OkNormal || kind == NkIo ==> 0x1000 * j in x || there == Fault)
  }
}
