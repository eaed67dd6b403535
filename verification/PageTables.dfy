/**
 Four-level page tables as a heap of 512-entry tables, some of which form a tree. Level 3 is the
 root table, level 0 holds the entries of pages. Large pages and tables outside the tree are kept
 apart.
 */
module PageTables {
  const SLOTS: nat := 512

  /** Tables in memory by physical address, as words. */
  type Words = map<nat, seq<nat>>

  /** An entry: absent; a frame with flags; or a present word, in a table of a level, that the tree
      does not follow, such as a large page or a table that hangs elsewhere too. */
  datatype Pte = Absent | To(phys: nat, flags: nat) | Other(word: nat, level: nat)

  /** Bit 7: above level 0, the entry is a large page. */
  predicate Large(flags: nat) { flags / 0x80 % 2 == 1 }

  /** Where a table hangs: entry `index` of table `parent`. */
  datatype Slot = Slot(parent: nat, index: nat, level: nat)

  /** The tables of the tree by physical address, where each of them but the root hangs, and the
      words of the tables that are not in the tree. */
  datatype Tables = Tables(root: nat, mem: map<nat, seq<Pte>>, up: map<nat, Slot>, rest: Words)

  ghost function Level(k: Tables, t: nat): nat
  {
    if t in k.up then k.up[t].level else 3
  }

  /** Entry i of table t leads to a table of the tree or, in level 0, to a page. */
  ghost predicate Linked(k: Tables, t: nat, i: nat)
  {
    t in k.mem && i < |k.mem[t]| && k.mem[t][i].To?
  }

  /** Entry i of table t is present and not followed. */
  ghost predicate Closed(k: Tables, t: nat, i: nat)
  {
    t in k.mem && i < |k.mem[t]| && k.mem[t][i].Other?
  }

  /** Entry i of table t is present. */
  ghost predicate Busy(k: Tables, t: nat, i: nat)
  {
    Linked(k, t, i) || Closed(k, t, i)
  }

  ghost predicate Sized(k: Tables)
  {
    && k.root in k.mem && k.root !in k.up
    && (forall t :: t in k.mem <==> t in k.up || t == k.root)
    && (forall t :: t in k.mem ==> |k.mem[t]| == SLOTS)
    && k.rest.Keys !! k.mem.Keys
  }

  /** Every table but the root is what the entry of its slot points to. */
  ghost predicate Hung(k: Tables)
  {
    forall t {:trigger k.up[t]} :: t in k.up ==>
      && k.up[t].level < 3 && k.up[t].parent in k.mem && Level(k, k.up[t].parent) == k.up[t].level + 1
      && Linked(k, k.up[t].parent, k.up[t].index)
      && k.mem[k.up[t].parent][k.up[t].index].phys == t
  }

  /** Every entry above level 0 that is followed points to the table that hangs there. */
  ghost predicate Pointed(k: Tables)
  {
    forall t, i: nat {:trigger Linked(k, t, i)} :: Linked(k, t, i) && Level(k, t) > 0 ==>
      var e := k.mem[t][i]; e.phys in k.up && k.up[e.phys] == Slot(t, i, Level(k, t) - 1) && !Large(e.flags)
  }

  /** Entries that are not followed know the level of their table. */
  ghost predicate Fenced(k: Tables)
  {
    forall t, i: nat {:trigger Closed(k, t, i)} :: Closed(k, t, i) ==> k.mem[t][i].level == Level(k, t)
  }

  ghost predicate Tree(k: Tables)
  {
    Sized(k) && Hung(k) && Pointed(k) && Fenced(k)
  }

  /** From k to k', the tables outside the tree and the entries that are not followed are the same. */
  ghost predicate Steady(k: Tables, k': Tables)
  {
    && k'.root == k.root && k'.rest == k.rest
    && (forall t, i: nat {:trigger Closed(k, t, i)}{:trigger Closed(k', t, i)} :: Closed(k, t, i) <==> Closed(k', t, i))
    && (forall t, i: nat {:trigger Closed(k, t, i)} :: Closed(k, t, i) ==>
          t in k'.mem && i < |k'.mem[t]| && k'.mem[t][i] == k.mem[t][i])
  }

  lemma SteadyTrans(k: Tables, k1: Tables, k2: Tables)
    requires Steady(k, k1) && Steady(k1, k2)
    ensures Steady(k, k2)
  {
    assert forall t, i: nat :: Closed(k, t, i) ==> Closed(k1, t, i);
  }

  lemma SteadyBack(k: Tables, k1: Tables, k2: Tables)
    requires Steady(k, k1) && Steady(k2, k1)
    ensures Steady(k, k2)
  {
    forall t, i: nat ensures Closed(k, t, i) <==> Closed(k2, t, i) {
      assert (Closed(k, t, i) <==> Closed(k1, t, i)) && (Closed(k2, t, i) <==> Closed(k1, t, i));
    }
  }

  /** Two tables that are steady from the same ones are steady from each other. */
  lemma SteadyBoth(k: Tables, k1: Tables, k2: Tables)
    requires Steady(k, k1) && Steady(k, k2)
    ensures Steady(k1, k2)
  {
    forall t, i: nat ensures Closed(k1, t, i) <==> Closed(k2, t, i) { assert Closed(k, t, i) <==> Closed(k1, t, i); }
  }

  // ---------------------------------------------------------------- walking

  /** The page of a virtual address, as the indices into the tables of the four levels. */
  datatype Key = Key(i3: nat, i2: nat, i1: nat, i0: nat)

  function Index(a: Key, l: nat): nat
  {
    if l == 0 then a.i0 else if l == 1 then a.i1 else if l == 2 then a.i2 else a.i3
  }

  /** The walk to a reaches a table of level l. */
  ghost predicate On(k: Tables, a: Key, l: nat)
    decreases 3 - l, 0
  {
    if l >= 3 then k.root in k.mem
    else On(k, a, l + 1) && Linked(k, Tab(k, a, l + 1), Index(a, l + 1))
  }

  /** That table. */
  ghost function Tab(k: Tables, a: Key, l: nat): nat
    requires On(k, a, l)
    decreases 3 - l, 1
  {
    if l >= 3 then k.root else k.mem[Tab(k, a, l + 1)][Index(a, l + 1)].phys
  }

  ghost function EntryAt(k: Tables, t: nat, i: nat): Pte
  {
    if t in k.mem && i < |k.mem[t]| then k.mem[t][i] else Absent
  }

  /** The last entry that the walk to a meets, from level l up. */
  ghost function LastEntry(k: Tables, a: Key, l: nat): Pte
    decreases 4 - l
  {
    if On(k, a, l) then EntryAt(k, Tab(k, a, l), Index(a, l)) else if l < 3 then LastEntry(k, a, l + 1) else Absent
  }

  /** The entry a page is mapped with, if it is; or the entry where the walk to it leaves the tree. */
  ghost function Lookup(k: Tables, a: Key): Pte
  {
    LastEntry(k, a, 0)
  }

  /** The walk to a goes no further than level l. */
  ghost predicate Ends(k: Tables, a: Key, l: nat)
  {
    l <= 3 && On(k, a, l) && (l > 0 ==> !Linked(k, Tab(k, a, l), Index(a, l)))
  }

  lemma {:induction false} EndsLast(k: Tables, a: Key, l: nat, j: nat)
    requires j <= l && Ends(k, a, l)
    ensures LastEntry(k, a, j) == EntryAt(k, Tab(k, a, l), Index(a, l))
    decreases l - j
  {
    if j < l {
      if On(k, a, j) {
        OnAbove(k, a, j, l - 1);
        assert false;
      }
      EndsLast(k, a, l, j + 1);
    }
  }

  /** What is looked up is the entry at the end of the walk. */
  lemma EndsLookup(k: Tables, a: Key, l: nat)
    requires Ends(k, a, l)
    ensures Lookup(k, a) == EntryAt(k, Tab(k, a, l), Index(a, l))
  {
    EndsLast(k, a, l, 0);
  }

  /** No walk goes further than where it ends. */
  lemma EndsBelow(k: Tables, a: Key, l: nat, j: nat)
    requires Ends(k, a, l) && On(k, a, j)
    ensures l <= j
  {
    if j < l {
      OnAbove(k, a, j, l - 1);
      assert false;
    }
  }

  /** Every walk ends. */
  lemma {:induction false} EndOf(k: Tables, a: Key, j: nat) returns (l: nat)
    requires On(k, a, j) && j <= 3
    ensures Ends(k, a, l) && l <= j
    decreases j
  {
    if j > 0 && Linked(k, Tab(k, a, j), Index(a, j)) {
      l := EndOf(k, a, j - 1);
    } else {
      l := j;
    }
  }

  lemma WalkEnd(k: Tables, a: Key) returns (l: nat)
    requires k.root in k.mem
    ensures Ends(k, a, l) && Lookup(k, a) == EntryAt(k, Tab(k, a, l), Index(a, l))
  {
    l := EndOf(k, a, 3);
    EndsLookup(k, a, l);
  }

  /** If the walk to a does not leave the tree, it meets only entries that are followed. */
  lemma OpenEntry(k: Tables, a: Key, l: nat)
    requires !Lookup(k, a).Other? && l <= 3 && On(k, a, l)
    ensures !Closed(k, Tab(k, a, l), Index(a, l))
  {
    if Closed(k, Tab(k, a, l), Index(a, l)) { EndsLookup(k, a, l); }
  }

  /** A page that is mapped has its entry in a level 0 table. */
  lemma LookupTo(k: Tables, a: Key)
    requires k.root in k.mem && Lookup(k, a).To?
    ensures On(k, a, 0) && Linked(k, Tab(k, a, 0), a.i0) && k.mem[Tab(k, a, 0)][a.i0] == Lookup(k, a)
  {
    var l := WalkEnd(k, a);
  }

  lemma {:induction false} TabLevel(k: Tables, a: Key, l: nat)
    requires Tree(k) && l <= 3 && On(k, a, l)
    ensures Tab(k, a, l) in k.mem && Level(k, Tab(k, a, l)) == l
    ensures l < 3 ==> Tab(k, a, l) in k.up && k.up[Tab(k, a, l)] == Slot(Tab(k, a, l + 1), Index(a, l + 1), l)
    decreases 3 - l
  {
    if l < 3 { TabLevel(k, a, l + 1); }
  }

  /** A table is on the way to pages with the same indices above it only. */
  lemma {:induction false} TabUnique(k: Tables, a: Key, b: Key, l: nat, j: nat)
    requires Tree(k) && l < j <= 3 && On(k, a, l) && On(k, b, l) && Tab(k, a, l) == Tab(k, b, l)
    ensures Index(a, j) == Index(b, j)
    decreases 3 - l
  {
    TabLevel(k, a, l);
    TabLevel(k, b, l);
    if l + 1 < j { TabUnique(k, a, b, l + 1, j); }
  }

  lemma {:induction false} OnAbove(k: Tables, a: Key, l: nat, j: nat)
    requires On(k, a, l) && l <= j <= 3
    ensures On(k, a, j)
    decreases 3 - l
  {
    if l < j { OnAbove(k, a, l + 1, j); }
  }

  // ---------------------------------------------------------------- elementary changes

  /** A cleared table. */
  function Zeros(): (z: seq<Pte>)
    ensures |z| == SLOTS && forall i: nat :: i < SLOTS ==> z[i] == Absent
  {
    seq(SLOTS, _ => Absent)
  }

  /** Hang a new, empty table at entry i of table t. */
  ghost function Attach(k: Tables, t: nat, i: nat, e: Pte): Tables
    requires t in k.mem && i < |k.mem[t]| && e.To?
  {
    Tables(k.root, k.mem[t := k.mem[t][i := e]][e.phys := Zeros()],
           k.up[e.phys := Slot(t, i, if Level(k, t) > 0 then Level(k, t) - 1 else 0)], k.rest)
  }

  /** Take the table that hangs at entry i of table t away. */
  ghost function Detach(k: Tables, t: nat, i: nat): Tables
    requires t in k.mem && i < |k.mem[t]| && k.mem[t][i].To?
  {
    var c := k.mem[t][i].phys;
    Tables(k.root, k.mem[t := k.mem[t][i := Absent]] - {c}, k.up - {c}, k.rest)
  }

  /** Write a level 0 entry. */
  ghost function SetEntry(k: Tables, t: nat, i: nat, e: Pte): Tables
    requires t in k.mem && i < |k.mem[t]|
  {
    k.(mem := k.mem[t := k.mem[t][i := e]])
  }

  /** k' is k with the entry e at (t, i) and a new, empty table below it. */
  ghost predicate Attached(k: Tables, t: nat, i: nat, e: Pte, k': Tables)
  {
    && e.To? && !Large(e.flags) && t in k.mem && Level(k, t) > 0 && !Busy(k, t, i) && e.phys !in k.mem
    && Sized(k') && Steady(k, k')
    && (forall x :: x in k'.up <==> x in k.up || x == e.phys)
    && (forall x :: x in k.up ==> k'.up[x] == k.up[x])
    && k'.up[e.phys] == Slot(t, i, Level(k, t) - 1)
    && (forall x, j: nat {:trigger Linked(k', x, j)} :: Linked(k', x, j) <==> Linked(k, x, j) || (x == t && j == i))
    && (forall x, j: nat {:trigger k'.mem[x][j]} :: Linked(k, x, j) ==>
          x in k'.mem && j < |k'.mem[x]| && k'.mem[x][j] == k.mem[x][j])
    && Linked(k', t, i) && k'.mem[t][i] == e
  }

  lemma AttachFacts(k: Tables, t: nat, i: nat, e: Pte)
    requires Sized(k) && t in k.mem && Level(k, t) > 0 && i < SLOTS && k.mem[t][i] == Absent
    requires e.To? && !Large(e.flags) && e.phys !in k.mem && e.phys !in k.rest
    ensures Attached(k, t, i, e, Attach(k, t, i, e))
  {
    var k' := Attach(k, t, i, e);
    assert Sized(k');
    assert forall x, j: nat :: Linked(k, x, j) ==> k'.mem[x][j] == k.mem[x][j];
  }

  lemma AttachTree(k: Tables, t: nat, i: nat, e: Pte, k': Tables)
    requires Tree(k) && Attached(k, t, i, e, k')
    ensures Tree(k')
  {
    AttachHung(k, t, i, e, k');
    AttachPointed(k, t, i, e, k');
  }

  lemma AttachPointed(k: Tables, t: nat, i: nat, e: Pte, k': Tables)
    requires Tree(k) && Attached(k, t, i, e, k')
    ensures Pointed(k') && Fenced(k')
  {
    assert forall x :: x in k.mem ==> Level(k', x) == Level(k, x);
    assert forall x, j: nat :: Closed(k', x, j) ==> Closed(k, x, j);
  }

  lemma AttachHung(k: Tables, t: nat, i: nat, e: Pte, k': Tables)
    requires Tree(k) && Attached(k, t, i, e, k')
    ensures Hung(k')
  {
    assert forall x :: x in k.mem ==> Level(k', x) == Level(k, x);
  }

  /** Taking an empty table away is the reverse of hanging it up. */
  lemma DetachFacts(k: Tables, t: nat, i: nat)
    requires Tree(k) && Linked(k, t, i) && Level(k, t) > 0
    requires forall j: nat :: !Busy(k, k.mem[t][i].phys, j)
    ensures Sized(Detach(k, t, i)) && Attached(Detach(k, t, i), t, i, k.mem[t][i], k)
  {
    var k0, c := Detach(k, t, i), k.mem[t][i].phys;
    assert c in k.up && k.up[c] == Slot(t, i, Level(k, t) - 1);
    assert c != t && c != k.root;
    assert Sized(k0);
    DetachEntries(k, t, i, c, k0);
  }

  lemma DetachEntries(k: Tables, t: nat, i: nat, c: nat, k0: Tables)
    requires Sized(k) && Linked(k, t, i) && k0 == Detach(k, t, i) && c == k.mem[t][i].phys && c != t && c in k.up
    requires forall j: nat :: !Busy(k, c, j)
    ensures forall x, j: nat :: Linked(k, x, j) <==> Linked(k0, x, j) || (x == t && j == i)
    ensures forall x, j: nat :: Linked(k0, x, j) ==> k.mem[x][j] == k0.mem[x][j]
    ensures Steady(k0, k)
    ensures !Busy(k0, t, i) && t in k0.mem && Level(k0, t) == Level(k, t)
  {
    forall j: nat ensures !Linked(k, c, j) && !Closed(k, c, j) { assert !Busy(k, c, j); }
  }

  lemma DetachTree(k: Tables, t: nat, i: nat, e: Pte, k': Tables)
    requires Tree(k') && Attached(k, t, i, e, k') && Sized(k)
    ensures Tree(k)
  {
    assert forall x :: x in k.mem ==> Level(k', x) == Level(k, x);
    forall x | x in k.up
      ensures k.up[x].level < 3 && k.up[x].parent in k.mem && Level(k, k.up[x].parent) == k.up[x].level + 1
      ensures Linked(k, k.up[x].parent, k.up[x].index) && k.mem[k.up[x].parent][k.up[x].index].phys == x
    {
      var s := k'.up[x];
      assert s == k.up[x] && Linked(k', s.parent, s.index) && k'.mem[s.parent][s.index].phys == x;
      assert !(s.parent == t && s.index == i);
    }
    assert Hung(k);
    DetachPointed(k, t, i, e, k');
    assert forall x, j: nat :: Closed(k, x, j) ==> Closed(k', x, j);
  }

  lemma DetachPointed(k: Tables, t: nat, i: nat, e: Pte, k': Tables)
    requires Tree(k') && Attached(k, t, i, e, k') && Sized(k)
    ensures Pointed(k)
  {
    forall x, j: nat | Linked(k, x, j) && Level(k, x) > 0
      ensures var f := k.mem[x][j]; f.phys in k.up && k.up[f.phys] == Slot(x, j, Level(k, x) - 1) && !Large(f.flags)
    {
      assert Linked(k', x, j) && k'.mem[x][j] == k.mem[x][j];
      assert Level(k', x) == Level(k, x);
      assert k'.up[k'.mem[x][j].phys] == Slot(x, j, Level(k, x) - 1);
    }
  }

  // ---------------------------------------------------------------- what the changes do to the pages

  lemma {:induction false} AttachKeepsOn(k: Tables, t: nat, i: nat, e: Pte, k': Tables, a: Key, l: nat)
    requires Attached(k, t, i, e, k') && On(k, a, l)
    ensures On(k', a, l) && Tab(k', a, l) == Tab(k, a, l)
    decreases 3 - l
  {
    if l < 3 {
      AttachKeepsOn(k, t, i, e, k', a, l + 1);
      assert Linked(k', Tab(k, a, l + 1), Index(a, l + 1));
    }
  }

  lemma {:induction false} AttachAddsOn(k: Tables, t: nat, i: nat, e: Pte, k': Tables, a: Key, l: nat)
    requires Tree(k) && Attached(k, t, i, e, k') && On(k', a, l) && l <= 3
    ensures On(k, a, l) || Tab(k', a, l) == e.phys
    decreases 3 - l
  {
    if l < 3 {
      AttachAddsOn(k, t, i, e, k', a, l + 1);
      if On(k, a, l + 1) { AttachKeepsOn(k, t, i, e, k', a, l + 1); }
    }
  }

  /** Hanging up or taking away an empty table maps and unmaps no page. */
  lemma AttachLookup(k: Tables, t: nat, i: nat, e: Pte, k': Tables, a: Key)
    requires Tree(k) && Attached(k, t, i, e, k')
    ensures Lookup(k', a) == Lookup(k, a)
  {
    var l := WalkEnd(k, a);
    var x, j := Tab(k, a, l), Index(a, l);
    AttachKeepsOn(k, t, i, e, k', a, l);
    TabLevel(k, a, l);
    if x == t && j == i {
      assert On(k', a, l - 1) && Tab(k', a, l - 1) == e.phys;
      assert !Linked(k', e.phys, Index(a, l - 1)) && !Closed(k', e.phys, Index(a, l - 1));
      EndsLookup(k', a, l - 1);
    } else {
      assert Linked(k', x, j) <==> Linked(k, x, j);
      assert Closed(k', x, j) <==> Closed(k, x, j);
      EndsLookup(k', a, l);
    }
  }

  ghost predicate KeyOk(a: Key)
  {
    a.i3 < SLOTS && a.i2 < SLOTS && a.i1 < SLOTS && a.i0 < SLOTS
  }

  lemma SetSteady(k: Tables, t: nat, i: nat, e: Pte)
    requires t in k.mem && i < |k.mem[t]| && !e.Other? && !Closed(k, t, i)
    ensures Steady(k, SetEntry(k, t, i, e))
  {
    var k' := SetEntry(k, t, i, e);
    assert forall x, j: nat :: Closed(k', x, j) <==> Closed(k, x, j);
  }

  lemma SetTree(k: Tables, t: nat, i: nat, e: Pte)
    requires Tree(k) && t in k.mem && Level(k, t) == 0 && i < SLOTS && !e.Other? && !Closed(k, t, i)
    ensures Tree(SetEntry(k, t, i, e)) && Steady(k, SetEntry(k, t, i, e))
  {
    var k' := SetEntry(k, t, i, e);
    SetSteady(k, t, i, e);
    assert Sized(k');
    assert forall x, j: nat :: x != t ==> (Linked(k', x, j) <==> Linked(k, x, j));
    assert Hung(k');
    assert Pointed(k');
  }

  lemma {:induction false} SetOn(k: Tables, t: nat, i: nat, e: Pte, a: Key, l: nat)
    requires Tree(k) && t in k.mem && Level(k, t) == 0 && i < SLOTS && l <= 3
    ensures On(SetEntry(k, t, i, e), a, l) <==> On(k, a, l)
    ensures On(k, a, l) ==> Tab(SetEntry(k, t, i, e), a, l) == Tab(k, a, l)
    decreases 3 - l
  {
    if l < 3 {
      SetOn(k, t, i, e, a, l + 1);
      if On(k, a, l + 1) { TabLevel(k, a, l + 1); }
    }
  }

  /** Writing the entry of a page changes what that page is mapped to, and no other. */
  lemma SetLookup(k: Tables, a: Key, e: Pte, b: Key)
    requires Tree(k) && KeyOk(a) && On(k, a, 0)
    ensures Tab(k, a, 0) in k.mem
    ensures Lookup(SetEntry(k, Tab(k, a, 0), a.i0, e), b) == if b == a then e else Lookup(k, b)
  {
    var t := Tab(k, a, 0);
    TabLevel(k, a, 0);
    var k' := SetEntry(k, t, a.i0, e);
    var l := WalkEnd(k, b);
    SetOn(k, t, a.i0, e, b, l);
    TabLevel(k, b, l);
    if l == 0 && Tab(k, b, 0) == t && b.i0 == a.i0 {
      TabUnique(k, a, b, 0, 1);
      TabUnique(k, a, b, 0, 2);
      TabUnique(k, a, b, 0, 3);
    }
    if b == a { EndsBelow(k, a, l, 0); }
    EndsLookup(k', b, l);
  }
}
