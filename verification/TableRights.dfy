/** The rights of a walk: a page can be written, or used by user code, only if every entry on the way
    to it allows that, and executed only if none forbids it (section 4.6 of the Intel 64 and IA-32
    Architectures Software Developer's Manual, Volume 3A). */
module TableRights {
  import opened PageTables
  import opened TableTree

  datatype Access = Access(write: bool, user: bool, execute: bool)

  const ALL: Access := Access(true, true, true)

  /** The rights that an entry gives: bits 1, 2 and 63 of it. */
  function AccessOf(flags: nat): Access
  {
    Access(flags / 2 % 2 == 1, flags / 4 % 2 == 1, flags / 0x8000_0000_0000_0000 % 2 == 0)
  }

  function Both(x: Access, y: Access): Access
  {
    Access(x.write && y.write, x.user && y.user, x.execute && y.execute)
  }

  /** x allows whatever y allows. */
  predicate AtLeast(x: Access, y: Access)
  {
    (y.write ==> x.write) && (y.user ==> x.user) && (y.execute ==> x.execute)
  }

  /** The rights of the entries above level 0 that the walk to a meets from level l down, as far as it
      goes. */
  ghost function WayFrom(k: Tables, a: Key, l: nat): Access
    decreases l
  {
    if l > 0 && On(k, a, l) && Linked(k, Tab(k, a, l), Index(a, l)) then
      Both(AccessOf(k.mem[Tab(k, a, l)][Index(a, l)].flags), WayFrom(k, a, l - 1))
    else ALL
  }

  /** The rights of the whole way to a. */
  ghost function Way(k: Tables, a: Key): Access
  {
    WayFrom(k, a, 3)
  }

  /** From k to k', no way has got other rights. */
  ghost predicate SameWays(k: Tables, k': Tables)
  {
    forall a: Key, l: nat {:trigger WayFrom(k', a, l)} :: l <= 3 ==> WayFrom(k', a, l) == WayFrom(k, a, l)
  }

  /** From k to k', no way to a page that is mapped has got other rights, and none has got less. */
  ghost predicate KeepsWays(k: Tables, k': Tables)
  {
    forall a: Key, l: nat {:trigger WayFrom(k', a, l)} :: l <= 3 ==>
      && AtLeast(WayFrom(k', a, l), WayFrom(k, a, l))
      && (Lookup(k', a) != Absent ==> WayFrom(k', a, l) == WayFrom(k, a, l))
  }

  lemma SameWaysTrans(k: Tables, k1: Tables, k2: Tables)
    requires SameWays(k, k1) && SameWays(k1, k2)
    ensures SameWays(k, k2)
  {
  }

  lemma SameKeeps(k: Tables, k': Tables)
    requires SameWays(k, k')
    ensures KeepsWays(k, k')
  {
  }

  /** Pages that are mapped at the end were mapped in between. */
  lemma KeepsWaysTrans(k: Tables, k1: Tables, k2: Tables)
    requires KeepsWays(k, k1) && KeepsWays(k1, k2) && forall a :: Lookup(k2, a) != Absent ==> Lookup(k1, a) != Absent
    ensures KeepsWays(k, k2)
  {
    forall a: Key, l: nat | l <= 3
      ensures AtLeast(WayFrom(k2, a, l), WayFrom(k, a, l))
      ensures Lookup(k2, a) != Absent ==> WayFrom(k2, a, l) == WayFrom(k, a, l)
    {
      assert AtLeast(WayFrom(k2, a, l), WayFrom(k1, a, l));
    }
  }

  lemma SameThenKeeps(k: Tables, k1: Tables, k2: Tables)
    requires SameWays(k, k1) && KeepsWays(k1, k2)
    ensures KeepsWays(k, k2)
  {
    forall a: Key, l: nat | l <= 3
      ensures AtLeast(WayFrom(k2, a, l), WayFrom(k, a, l))
      ensures Lookup(k2, a) != Absent ==> WayFrom(k2, a, l) == WayFrom(k, a, l)
    {
      assert WayFrom(k1, a, l) == WayFrom(k, a, l);
    }
  }

  /** A new table whose entry gives all rights narrows no way. */
  lemma {:induction false} AttachWay(k: Tables, t: nat, i: nat, e: Pte, k': Tables, a: Key, l: nat)
    requires Tree(k) && Attached(k, t, i, e, k') && AccessOf(e.flags) == ALL && l <= 3
    ensures WayFrom(k', a, l) == WayFrom(k, a, l)
    decreases l
  {
    NewEmpty(k, t, i, e, k');
    if l > 0 {
      AttachWay(k, t, i, e, k', a, l - 1);
      if On(k, a, l) {
        AttachKeepsOn(k, t, i, e, k', a, l);
        AttachEntry(k, t, i, e, k', Tab(k, a, l), Index(a, l));
        if Tab(k, a, l) == t && Index(a, l) == i { WayEnds(k, a, l); }
      } else if On(k', a, l) {
        AttachAddsOn(k, t, i, e, k', a, l);
      }
    }
  }

  /** Nothing below a missing entry counts. */
  lemma WayEnds(k: Tables, a: Key, l: nat)
    requires 0 < l <= 3 && On(k, a, l) && !Linked(k, Tab(k, a, l), Index(a, l))
    ensures WayFrom(k, a, l) == ALL && WayFrom(k, a, l - 1) == ALL
  {
  }

  lemma AttachEntry(k: Tables, t: nat, i: nat, e: Pte, k': Tables, x: nat, j: nat)
    requires Attached(k, t, i, e, k')
    ensures Linked(k', x, j) <==> Linked(k, x, j) || (x == t && j == i)
    ensures Linked(k, x, j) ==> k'.mem[x][j] == k.mem[x][j]
    ensures x == t && j == i ==> !Linked(k, x, j) && k'.mem[x][j] == e
  {
  }

  lemma AttachWays(k: Tables, t: nat, i: nat, e: Pte, k': Tables)
    requires Tree(k) && Attached(k, t, i, e, k') && AccessOf(e.flags) == ALL
    ensures SameWays(k, k')
  {
    forall a: Key, l: nat | l <= 3 ensures WayFrom(k', a, l) == WayFrom(k, a, l) { AttachWay(k, t, i, e, k', a, l); }
  }

  /** Taking an empty table away, whatever its entry allowed. */
  lemma {:induction false} DetachWay(k: Tables, t: nat, i: nat, e: Pte, k': Tables, a: Key, l: nat)
    requires Tree(k) && Attached(k, t, i, e, k') && l <= 3
    ensures AtLeast(WayFrom(k, a, l), WayFrom(k', a, l))
    ensures Lookup(k, a) != Absent ==> WayFrom(k, a, l) == WayFrom(k', a, l)
    decreases l
  {
    NewEmpty(k, t, i, e, k');
    if l > 0 {
      DetachWay(k, t, i, e, k', a, l - 1);
      if On(k, a, l) {
        AttachKeepsOn(k, t, i, e, k', a, l);
        AttachEntry(k, t, i, e, k', Tab(k, a, l), Index(a, l));
        if Tab(k, a, l) == t && Index(a, l) == i {
          WayEnds(k, a, l);
          EndsLookup(k, a, l);
        }
      } else if On(k', a, l) {
        AttachAddsOn(k, t, i, e, k', a, l);
      }
    }
  }

  lemma DetachWays(k: Tables, t: nat, i: nat, e: Pte, k': Tables)
    requires Tree(k) && Attached(k, t, i, e, k')
    ensures KeepsWays(k', k)
  {
    forall a: Key, l: nat | l <= 3
      ensures AtLeast(WayFrom(k, a, l), WayFrom(k', a, l))
      ensures Lookup(k, a) != Absent ==> WayFrom(k, a, l) == WayFrom(k', a, l)
    {
      DetachWay(k, t, i, e, k', a, l);
    }
  }

  lemma {:induction false} SetWay(k: Tables, t: nat, i: nat, e: Pte, a: Key, l: nat)
    requires Tree(k) && t in k.mem && Level(k, t) == 0 && i < SLOTS && l <= 3
    ensures WayFrom(SetEntry(k, t, i, e), a, l) == WayFrom(k, a, l)
    decreases l
  {
    if l > 0 {
      SetWay(k, t, i, e, a, l - 1);
      SetOn(k, t, i, e, a, l);
      if On(k, a, l) { TabLevel(k, a, l); }
    }
  }

  /** Entries of pages are not on the way. */
  lemma SetWays(k: Tables, t: nat, i: nat, e: Pte)
    requires Tree(k) && t in k.mem && Level(k, t) == 0 && i < SLOTS
    ensures SameWays(k, SetEntry(k, t, i, e))
  {
    forall a: Key, l: nat | l <= 3 ensures WayFrom(SetEntry(k, t, i, e), a, l) == WayFrom(k, a, l) {
      SetWay(k, t, i, e, a, l);
    }
  }

  /** All tables of the tree give all rights. */
  ghost predicate Wide(k: Tables)
  {
    forall a: Key, l: nat {:trigger WayFrom(k, a, l)} :: l <= 3 ==> WayFrom(k, a, l) == ALL
  }

  /** Once so, always so. */
  lemma WideStays(k: Tables, k': Tables)
    requires Wide(k) && KeepsWays(k, k')
    ensures Wide(k')
  {
    forall a: Key, l: nat | l <= 3 ensures WayFrom(k', a, l) == ALL {
      assert AtLeast(WayFrom(k', a, l), WayFrom(k, a, l));
    }
  }
}
