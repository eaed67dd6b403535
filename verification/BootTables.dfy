/** The page tables that the kernel starts with (arch/x86_64/boot.S): large pages, and a table that two
    entries of the top table share. */
module BootTables {
  import opened Bits
  import opened PteBits
  import opened PageTables
  import opened TableTree
  import opened TableRights
  import opened Frames
  import opened Ownership
  import opened KmapSteps
  import opened Translation
  import opened KmapSeen

  /** Where the boot tables are. */
  datatype Boot = Boot(pml4: nat, pdpt: nat, pd: nat, pdptHh: nat, pdHh: nat)

  predicate Apart(b: Boot)
  {
    && IsFrame(b.pml4) && IsFrame(b.pdpt) && IsFrame(b.pd) && IsFrame(b.pdptHh) && IsFrame(b.pdHh)
    && b.pml4 !in {b.pdpt, b.pd, b.pdptHh, b.pdHh} && b.pdpt !in {b.pd, b.pdptHh, b.pdHh}
    && b.pd !in {b.pdptHh, b.pdHh} && b.pdptHh != b.pdHh
  }

  function Row(f: nat -> nat): (r: seq<nat>)
    ensures |r| == SLOTS && forall i: nat :: i < SLOTS ==> r[i] == f(i)
  {
    seq(SLOTS, i requires 0 <= i < SLOTS => f(i))
  }

  function Pml4Word(b: Boot, i: nat): nat
  {
    if i == 0 || i == 0x1FD then b.pdpt + 7 else if i == 511 then b.pdptHh + 7 else 0
  }

  function PdptWord(b: Boot, i: nat): nat { if i == 0 || i == 3 then b.pd + 7 else 0 }

  /** 2 MB pages; one of them is that of the interrupt controller. */
  function PdWord(i: nat): nat { if i == 503 then 0xFEE0_009B else 0x20_0000 * i + 0x187 }

  function PdptHhWord(b: Boot, i: nat): nat { if i == 510 then b.pdHh + 7 else 0 }

  function PdHhWord(i: nat): nat { 0x20_0000 * i + 0x187 }

  /** The tables in memory. */
  function BootWords(b: Boot): Words
  {
    map[b.pml4 := Row(i => Pml4Word(b, i)), b.pdpt := Row(i => PdptWord(b, i)), b.pd := Row(PdWord),
        b.pdptHh := Row(i => PdptHhWord(b, i)), b.pdHh := Row(PdHhWord)]
  }

  /** The tree is the top table and the table below its first entry; the second way to that one, and
      the tables with large pages, are not part of it. */
  function BootTree(b: Boot): Tables
  {
    Tables(b.pml4,
           map[b.pml4 := seq(SLOTS, i requires 0 <= i < SLOTS => Pml4Entry(b, i)),
               b.pdpt := seq(SLOTS, i requires 0 <= i < SLOTS => PdptEntry(b, i))],
           map[b.pdpt := Slot(b.pml4, 0, 2)],
           map[b.pd := Row(PdWord), b.pdptHh := Row(i => PdptHhWord(b, i)), b.pdHh := Row(PdHhWord)])
  }

  function Pml4Entry(b: Boot, i: nat): Pte
  {
    if i == 0 then To(b.pdpt, 7) else if i == 0x1FD || i == 511 then Other(Pml4Word(b, i), 3) else Absent
  }

  function PdptEntry(b: Boot, i: nat): Pte
  {
    if i == 0 || i == 3 then Other(PdptWord(b, i), 2) else Absent
  }

  lemma TableEntry(p: nat)
    requires IsFrame(p)
    ensures Present(p + 7) && PhysOf(p + 7) == p && FlagsOf(p + 7) == 7 && Decode(p + 7) == To(p, 7)
  {
    assert p == PAGE * (p / PAGE);
    assert (p + 7) / PAGE == p / PAGE;
  }

  /** The entries of the tables of large pages lead nowhere. */
  lemma LargeEntry(i: nat)
    requires i < SLOTS
    ensures !Goes(PdWord(i), 1) && !Goes(PdHhWord(i), 1)
  {
    var w := 0x20_0000 * i + 0x187;
    assert w / PAGE == 0x200 * i;
    assert PhysOf(w) == 0x20_0000 * i;
    assert PhysOf(0xFEE0_009B) == 0xFEE0_0000;
  }

  lemma BootIsTree(b: Boot)
    requires Apart(b)
    ensures Tree(BootTree(b)) && Full(BootTree(b))
  {
    var k := BootTree(b);
    assert forall t, i: nat :: Linked(k, t, i) <==> t == b.pml4 && i == 0;
    assert Closed(k, b.pdpt, 0);
    assert Busy(k, b.pdpt, 0);
  }

  lemma BootReads(b: Boot)
    requires Apart(b)
    ensures Reads(BootWords(b), BootTree(b))
  {
    var k, words := BootTree(b), BootWords(b);
    TableEntry(b.pdpt);
    TableEntry(b.pd);
    TableEntry(b.pdptHh);
    forall t, i: nat | t in k.mem && i < |words[t]| ensures Matches(k.mem[t][i], words[t][i]) {
      assert t == b.pml4 || t == b.pdpt;
    }
  }

  lemma BootSealed(b: Boot, m: Pages)
    requires Apart(b)
    ensures Sealed(BootTree(b), m)
  {
    var k := BootTree(b);
    TableEntry(b.pdpt);
    TableEntry(b.pd);
    TableEntry(b.pdptHh);
    BootLands(b, m);
    assert forall t, i: nat :: Closed(k, t, i) ==>
             if t == b.pml4 then i == 0x1FD || i == 511 else t == b.pdpt && (i == 0 || i == 3);
  }

  lemma BootLands(b: Boot, m: Pages)
    requires Apart(b)
    ensures var k := BootTree(b); Lands(k, m, b.pdpt, 2) && Lands(k, m, b.pd, 1) && Lands(k, m, b.pdptHh, 2)
  {
    var k := BootTree(b);
    TableEntry(b.pdHh);
    assert Closed(k, b.pdpt, 0);
    assert Pinned(k, b.pdpt);
    forall i: nat | i < SLOTS ensures !Goes(k.rest[b.pd][i], 1) && !Goes(k.rest[b.pdHh][i], 1) { LargeEntry(i); }
    assert Lands(k, m, b.pd, 1);
    assert Lands(k, m, b.pdHh, 1);
  }

  /** The boot tables with any pages of the allocator that are not among them: what PageMap asks for. */
  lemma BootMeets(b: Boot, m: Pages)
    requires Apart(b) && forall t :: t in BootWords(b) ==> t !in m.pool && t !in m.large
    ensures var k := BootTree(b);
      k.root == b.pml4 && Tree(k) && Full(k) && Reads(BootWords(b), k) && Owned(k, m) && Sealed(k, m)
  {
    BootIsTree(b);
    BootReads(b);
    BootSealed(b, m);
    var k := BootTree(b);
    assert forall t, i: nat, p :: !Maps(k, t, i, p);
  }

  /** Of the first 512 GB, all but the first and the fourth gigabyte can be mapped: no walk there
      meets a large page. The kernel's own pages and the second way to the same table are not. */
  lemma BootOpen(b: Boot, a: Key)
    requires Apart(b) && KeyOk(a)
    ensures a.i3 == 0 && a.i2 != 0 && a.i2 != 3 ==> Lookup(BootTree(b), a) == Absent
    ensures a.i3 == 0 && (a.i2 == 0 || a.i2 == 3) ==> Lookup(BootTree(b), a) == Other(b.pd + 7, 2)
    ensures a.i3 == 0x1FD ==> Lookup(BootTree(b), a) == Other(b.pdpt + 7, 3)
    ensures a.i3 == 511 ==> Lookup(BootTree(b), a) == Other(b.pdptHh + 7, 3)
    ensures a.i3 !in {0, 0x1FD, 511} ==> Lookup(BootTree(b), a) == Absent
  {
    var k := BootTree(b);
    BootIsTree(b);
    assert On(k, a, 3);
    if a.i3 == 0 {
      assert Linked(k, b.pml4, 0);
      assert On(k, a, 2) && Tab(k, a, 2) == b.pdpt;
      EndsLookup(k, a, 2);
    } else {
      EndsLookup(k, a, 3);
    }
  }

  /** The boot tables of the tree give all rights, so that pages mapped later have those of their flags. */
  lemma BootWide(b: Boot)
    requires Apart(b)
    ensures Wide(BootTree(b))
    ensures forall a :: KeyOk(a) ==> Way(BootTree(b), a) == Access(true, true, true)
  {
    var k := BootTree(b);
    assert forall t, i: nat :: Linked(k, t, i) ==> t == b.pml4 && i == 0 && k.mem[t][i].flags == 7;
    forall a: Key, l: nat | l <= 3 ensures WayFrom(k, a, l) == ALL { BootWay(b, a, l); }
  }

  lemma {:induction false} BootWay(b: Boot, a: Key, l: nat)
    requires Apart(b) && l <= 3
    ensures WayFrom(BootTree(b), a, l) == ALL
    decreases l
  {
    var k := BootTree(b);
    assert forall t, i: nat :: Linked(k, t, i) ==> t == b.pml4 && i == 0 && k.mem[t][i].flags == 7;
    if l > 0 { BootWay(b, a, l - 1); }
  }

  /** Whatever is mapped below the first entry of the top table is seen at the second way, too. */
  lemma BootAlias(b: Boot, words: Words, k: Tables, a: Key)
    requires Apart(b) && Tree(k) && Reads(words, k) && Preserves(BootTree(b), k) && Wide(k) && KeyOk(a) && a.i3 == 0
    ensures Translate(words, b.pml4, a.(i3 := 0x1FD), 3) == Translate(words, b.pml4, a, 3)
  {
    var c := a.(i3 := 0x1FD);
    SecondWay(b, words, k, c);
    BelowFirst(b, k, a);
    TreeWalk(words, k, a, 3);
    TreeWalk(words, k, a, 2);
    assert WayFrom(k, a, 3) == WayFrom(k, a, 2);
    TranslateSame(words, b.pdpt, a, c, 2);
  }

  /** The second way leads to the same table. */
  lemma SecondWay(b: Boot, words: Words, k: Tables, c: Key)
    requires Apart(b) && Tree(k) && Reads(words, k) && Preserves(BootTree(b), k) && KeyOk(c) && c.i3 == 0x1FD
    ensures Translate(words, b.pml4, c, 3) == Translate(words, b.pdpt, c, 2)
  {
    StillOther(b, k, c);
    LeavingTable(words, b.pdpt, 3, c);
    assert On(k, c, 3) && Tab(k, c, 3) == b.pml4;
    TreeWalk(words, k, c, 3);
    EndsAt(k, c);
  }

  lemma StillOther(b: Boot, k: Tables, c: Key)
    requires Apart(b) && Tree(k) && Preserves(BootTree(b), k) && KeyOk(c) && c.i3 == 0x1FD
    ensures k.root == b.pml4 && Lookup(k, c) == Other(b.pdpt + 7, 3)
  {
    BootIsTree(b);
    BootOpen(b, c);
    SameOther(BootTree(b), k, c);
  }

  /** A walk that leaves the tree in the top table has met no table that could limit rights. */
  lemma EndsAt(k: Tables, c: Key)
    requires Tree(k) && Lookup(k, c).Other? && Lookup(k, c).level == 3
    ensures Way(k, c) == ALL
  {
    var l := WalkEnd(k, c);
    TabLevel(k, c, l);
    assert Closed(k, Tab(k, c, l), Index(c, l));
    WayEnds(k, c, 3);
  }

  lemma LeavingTable(words: Words, p: nat, l: nat, a: Key)
    requires IsFrame(p) && l > 0
    ensures Leaving(words, p + 7, l, a) == Translate(words, p, a, l - 1)
  {
    TableEntry(p);
  }

  /** The table below the first entry stays where it is. */
  lemma BelowFirst(b: Boot, k: Tables, a: Key)
    requires Apart(b) && Tree(k) && Preserves(BootTree(b), k) && KeyOk(a) && a.i3 == 0
    ensures On(k, a, 2) && Tab(k, a, 2) == b.pdpt
  {
    var k0, d := BootTree(b), Key(0, 0, 0, 0);
    assert On(k0, d, 3) && Linked(k0, b.pml4, 0);
    assert On(k0, d, 2) && Tab(k0, d, 2) == b.pdpt && Closed(k0, b.pdpt, 0);
    OnSame(k, d, a, 2);
  }
}
