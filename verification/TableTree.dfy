/** A tree without empty tables is determined by the pages it maps. */
module TableTree {
  import opened PageTables

  /** No table but the root is empty. */
  ghost predicate Full(k: Tables)
  {
    forall t {:trigger t in k.up} :: t in k.up ==> exists i: nat :: Busy(k, t, i)
  }

  /** k has all the tables and entries of k0, and no other entries that are not followed. */
  ghost predicate Extends(k0: Tables, k: Tables)
  {
    && Steady(k0, k)
    && (forall t :: t in k0.up ==> t in k.up && k.up[t] == k0.up[t])
    && (forall t, i: nat {:trigger Linked(k0, t, i)} ::
          Linked(k0, t, i) ==> Linked(k, t, i) && k.mem[t][i] == k0.mem[t][i])
  }

  lemma {:induction false} ExtendsOn(k0: Tables, k: Tables, a: Key, l: nat)
    requires Tree(k0) && Tree(k) && Extends(k0, k) && On(k0, a, l)
    ensures On(k, a, l) && Tab(k, a, l) == Tab(k0, a, l)
    decreases 3 - l
  {
    if l < 3 {
      ExtendsOn(k0, k, a, l + 1);
      var t, i := Tab(k0, a, l + 1), Index(a, l + 1);
      assert Linked(k0, t, i) && Linked(k, t, i);
    }
  }

  /** If k's walk meets a table of k0, so does k0's. */
  lemma {:induction false} ExtendsBack(k0: Tables, k: Tables, a: Key, l: nat)
    requires Tree(k0) && Tree(k) && Extends(k0, k) && l <= 3 && On(k, a, l) && Tab(k, a, l) in k0.mem
    ensures On(k0, a, l) && Tab(k0, a, l) == Tab(k, a, l)
    decreases 3 - l
  {
    if l < 3 {
      var t := Tab(k, a, l);
      TabLevel(k, a, l);
      assert t in k0.up && k0.up[t] == k.up[t];
      assert Linked(k0, k0.up[t].parent, k0.up[t].index);
      ExtendsBack(k0, k, a, l + 1);
    }
  }

  // ---------------------------------------------------------------- the changes keep extending

  lemma AttachExtends(k0: Tables, k: Tables, t: nat, i: nat, e: Pte, k': Tables)
    requires Extends(k0, k) && Attached(k, t, i, e, k')
    ensures Extends(k0, k')
  {
    forall x, j: nat | Linked(k0, x, j) ensures Linked(k', x, j) && k'.mem[x][j] == k0.mem[x][j] {
      assert Linked(k, x, j) && Linked(k', x, j);
    }
  }

  /** An empty table was none of k0's. */
  lemma NewTable(k0: Tables, k: Tables, t: nat, i: nat, e: Pte, k': Tables)
    requires Tree(k0) && Full(k0) && Tree(k) && Tree(k') && Extends(k0, k') && Attached(k, t, i, e, k')
    ensures e.phys !in k0.up && !Linked(k0, t, i)
  {
    NewEmpty(k, t, i, e, k');
    forall j: nat ensures !Busy(k0, e.phys, j) {
      if Busy(k0, e.phys, j) {
        StillBusy(k0, k', e.phys, j);
        assert false;
      }
    }
    assert Linked(k0, t, i) ==> Level(k0, t) == Level(k, t);
  }

  lemma NewEmpty(k: Tables, t: nat, i: nat, e: Pte, k': Tables)
    requires Sized(k) && Attached(k, t, i, e, k')
    ensures forall j: nat :: !Linked(k', e.phys, j) && !Closed(k', e.phys, j)
  {
    assert e.phys !in k.mem;
  }

  lemma StillBusy(k0: Tables, k: Tables, t: nat, i: nat)
    requires Extends(k0, k) && Busy(k0, t, i)
    ensures Busy(k, t, i)
  {
    assert Linked(k0, t, i) || Closed(k0, t, i);
  }

  lemma DetachExtends(k0: Tables, k: Tables, t: nat, i: nat, e: Pte, k': Tables)
    requires Tree(k0) && Full(k0) && Tree(k) && Tree(k') && Extends(k0, k') && Attached(k, t, i, e, k')
    ensures Extends(k0, k)
  {
    NewTable(k0, k, t, i, e, k');
    forall x, j: nat | Linked(k0, x, j) ensures Linked(k, x, j) && k.mem[x][j] == k0.mem[x][j] {
      assert Linked(k', x, j) && k'.mem[x][j] == k0.mem[x][j];
    }
  }

  lemma SetExtends(k0: Tables, k: Tables, a: Key, e: Pte)
    requires Tree(k0) && Tree(k) && Extends(k0, k) && KeyOk(a) && On(k, a, 0) && Lookup(k0, a) == Absent && !e.Other?
    ensures Tab(k, a, 0) in k.mem
    ensures Extends(k0, SetEntry(k, Tab(k, a, 0), a.i0, e))
  {
    var t := Tab(k, a, 0);
    TabLevel(k, a, 0);
    if t in k0.mem {
      ExtendsBack(k0, k, a, 0);
      EndsLookup(k0, a, 0);
    }
    assert !Busy(k0, t, a.i0);
    SetExtendsAt(k0, k, t, a.i0, e);
  }

  lemma SetExtendsAt(k0: Tables, k: Tables, t: nat, i: nat, e: Pte)
    requires Extends(k0, k) && t in k.mem && i < |k.mem[t]| && !Busy(k0, t, i) && !e.Other?
    ensures Extends(k0, SetEntry(k, t, i, e))
  {
    var k' := SetEntry(k, t, i, e);
    SetSteady(k, t, i, e);
    SteadyTrans(k0, k, k');
    forall x, j: nat | Linked(k0, x, j) ensures Linked(k', x, j) && k'.mem[x][j] == k0.mem[x][j] {
      assert Linked(k, x, j);
    }
  }

  // ---------------------------------------------------------------- from tables to pages

  /** a and b have the same indices from level l up. */
  ghost predicate SameFrom(a: Key, b: Key, l: nat)
  {
    && (l <= 3 ==> a.i3 == b.i3) && (l <= 2 ==> a.i2 == b.i2)
    && (l <= 1 ==> a.i1 == b.i1) && (l == 0 ==> a.i0 == b.i0)
  }

  function WithIndex(a: Key, l: nat, i: nat): (b: Key)
    ensures l <= 3 ==> Index(b, l) == i && SameFrom(a, b, l + 1)
  {
    if l == 0 then a.(i0 := i) else if l == 1 then a.(i1 := i) else if l == 2 then a.(i2 := i)
    else if l == 3 then a.(i3 := i) else a
  }

  /** The walk to a level depends on the indices above it only. */
  lemma {:induction false} OnSame(k: Tables, a: Key, b: Key, l: nat)
    requires l <= 3 && On(k, a, l) && SameFrom(a, b, l + 1)
    ensures On(k, b, l) && Tab(k, b, l) == Tab(k, a, l)
    decreases 3 - l
  {
    if l < 3 { OnSame(k, a, b, l + 1); }
  }

  /** A walk that meets an absent entry above level 0 ends there. */
  lemma WalkEnds(k: Tables, a: Key, l: nat)
    requires 0 < l <= 3 && On(k, a, l) && !Linked(k, Tab(k, a, l), Index(a, l))
    ensures !On(k, a, 0)
  {
    if On(k, a, 0) { OnAbove(k, a, 0, l - 1); }
  }

  lemma NotOn(k: Tables, a: Key, l: nat)
    requires l <= 3 && On(k, a, l) && !Linked(k, Tab(k, a, l), Index(a, l))
    ensures Lookup(k, a) == EntryAt(k, Tab(k, a, l), Index(a, l))
  {
    EndsLookup(k, a, l);
  }

  /** Every table is on the way to some page. */
  lemma {:induction false} PathTo(k: Tables, t: nat) returns (a: Key)
    requires Tree(k) && t in k.mem
    ensures Level(k, t) <= 3 && On(k, a, Level(k, t)) && Tab(k, a, Level(k, t)) == t && KeyOk(a)
    decreases 3 - Level(k, t)
  {
    if t == k.root {
      a := Key(0, 0, 0, 0);
    } else {
      var s := k.up[t];
      assert Linked(k, s.parent, s.index);
      var b := PathTo(k, s.parent);
      a := WithIndex(b, s.level + 1, s.index);
      OnSame(k, b, a, s.level + 1);
    }
  }

  /** Below every entry that is followed there is one in the next table. */
  lemma EntryBelow(k: Tables, a: Key, l: nat) returns (b: Key)
    requires Tree(k) && Full(k) && l < 3 && KeyOk(a) && On(k, a, l)
    ensures KeyOk(b) && On(k, b, l) && Busy(k, Tab(k, b, l), Index(b, l)) && SameFrom(a, b, l + 1)
  {
    var c := Tab(k, a, l);
    TabLevel(k, a, l);
    var i: nat :| Busy(k, c, i);
    b := WithIndex(a, l, i);
    OnSame(k, a, b, l);
  }

  /** Below every present entry some page is mapped, or the walk leaves the tree. */
  lemma {:induction false} PageBelow(k: Tables, a: Key, l: nat) returns (b: Key)
    requires Tree(k) && Full(k) && l <= 3 && KeyOk(a) && On(k, a, l) && Busy(k, Tab(k, a, l), Index(a, l))
    ensures KeyOk(b) && Lookup(k, b) != Absent && SameFrom(a, b, l)
    ensures Closed(k, Tab(k, a, l), Index(a, l)) ==> b == a
    decreases l
  {
    if l == 0 || Closed(k, Tab(k, a, l), Index(a, l)) {
      b := a;
      EndsLookup(k, a, l);
    } else {
      var m: nat := l - 1;
      assert On(k, a, m);
      var a' := EntryBelow(k, a, m);
      b := PageBelow(k, a', m);
    }
  }

  /** Every present entry has a page below it. */
  lemma PageAt(k: Tables, t: nat, i: nat) returns (b: Key)
    requires Tree(k) && Full(k) && Busy(k, t, i)
    ensures KeyOk(b) && Lookup(k, b) != Absent && Level(k, t) <= 3
    ensures On(k, b, Level(k, t)) && Tab(k, b, Level(k, t)) == t && Index(b, Level(k, t)) == i
  {
    var l := Level(k, t);
    var p := PathTo(k, t);
    var a := WithIndex(p, l, i);
    OnSame(k, p, a, l);
    b := PageBelow(k, a, l);
    OnSame(k, a, b, l);
  }

  /** If k extends k0 without mapping other pages, every entry of k that is followed is one of k0. */
  lemma EntryIsOld(k0: Tables, k: Tables, t: nat, i: nat)
    requires Tree(k0) && Tree(k) && Full(k) && Extends(k0, k) && Linked(k, t, i)
    requires forall a :: KeyOk(a) ==> Lookup(k, a) == Lookup(k0, a)
    ensures Linked(k0, t, i)
  {
    var l := Level(k, t);
    var b := PageAt(k, t, i);
    var j := SameEnds(k0, k, b);
    EndsBelow(k, b, j, if l > 0 then l - 1 else 0);
    OnAbove(k0, b, j, l);
    ExtendsOn(k0, k, b, l);
    if l > 0 { OnAbove(k0, b, j, l - 1); } else { EndsLookup(k0, b, 0); EndsLookup(k, b, 0); }
  }

  lemma SameEnds(k0: Tables, k: Tables, b: Key) returns (j: nat)
    requires Tree(k0) && Tree(k) && Extends(k0, k) && Lookup(k, b) == Lookup(k0, b) != Absent
    ensures Ends(k0, b, j) && Ends(k, b, j)
  {
    j := WalkEnd(k, b);
    var j0 := WalkEnd(k0, b);
    SameEnd(k0, k, b, j0, j);
  }

  /** A walk that meets a present entry at its end ends at the same level in both. */
  lemma SameEnd(k0: Tables, k: Tables, b: Key, j0: nat, j: nat)
    requires Tree(k0) && Tree(k) && Extends(k0, k) && Ends(k0, b, j0) && Ends(k, b, j)
    requires Lookup(k, b) == Lookup(k0, b) != Absent
    ensures j0 == j
  {
    EndsLookup(k0, b, j0);
    EndsLookup(k, b, j);
    TabLevel(k0, b, j0);
    TabLevel(k, b, j);
    if Lookup(k, b).Other? {
      assert Closed(k0, Tab(k0, b, j0), Index(b, j0)) && Closed(k, Tab(k, b, j), Index(b, j));
    }
  }

  /** Canonical form: an extension without empty tables that maps the same pages is the same tree,
      table by table. */
  lemma SamePagesSameTree(k0: Tables, k: Tables)
    requires Tree(k0) && Tree(k) && Full(k) && Extends(k0, k)
    requires forall a :: KeyOk(a) ==> Lookup(k, a) == Lookup(k0, a)
    ensures k == k0
  {
    forall t, i: nat | Linked(k, t, i) ensures Linked(k0, t, i) { EntryIsOld(k0, k, t, i); }
    SameEntries(k0, k);
  }

  lemma SameEntries(k0: Tables, k: Tables)
    requires Sized(k0) && Sized(k) && Full(k) && Extends(k0, k)
    requires forall t, i: nat :: Linked(k, t, i) ==> Linked(k0, t, i)
    ensures k == k0
  {
    forall t | t in k.up ensures t in k0.up {
      var i: nat :| Busy(k, t, i);
      assert Linked(k0, t, i) || Closed(k0, t, i);
    }
    assert k.up == k0.up;
    forall t, i: nat | t in k.mem && i < SLOTS ensures t in k0.mem && k.mem[t][i] == k0.mem[t][i] {
      assert Linked(k, t, i) <==> Linked(k0, t, i);
      assert Closed(k, t, i) <==> Closed(k0, t, i);
    }
    assert forall t :: t in k.mem ==> k.mem[t] == k0.mem[t];
    assert k.mem == k0.mem;
  }

  // ---------------------------------------------------------------- entries that are not followed

  /** From k to k', the ways to the entries that are not followed are the same. */
  ghost predicate Anchored(k: Tables, k': Tables)
  {
    forall a: Key, l: nat {:trigger On(k, a, l)} :: l <= 3 && On(k, a, l) && Closed(k, Tab(k, a, l), Index(a, l)) ==>
      On(k', a, l) && Tab(k', a, l) == Tab(k, a, l)
  }

  lemma AttachAnchored(k: Tables, t: nat, i: nat, e: Pte, k': Tables)
    requires Attached(k, t, i, e, k')
    ensures Anchored(k, k')
  {
    forall a: Key, l: nat | l <= 3 && On(k, a, l) ensures On(k', a, l) && Tab(k', a, l) == Tab(k, a, l) {
      AttachKeepsOn(k, t, i, e, k', a, l);
    }
  }

  lemma DetachAnchored(k: Tables, t: nat, i: nat, e: Pte, k': Tables)
    requires Tree(k) && Attached(k, t, i, e, k')
    ensures Anchored(k', k)
  {
    NewEmpty(k, t, i, e, k');
    forall a: Key, l: nat | l <= 3 && On(k', a, l) && Closed(k', Tab(k', a, l), Index(a, l))
      ensures On(k, a, l) && Tab(k, a, l) == Tab(k', a, l)
    {
      AttachAddsOn(k, t, i, e, k', a, l);
      AttachKeepsOn(k, t, i, e, k', a, l);
    }
  }

  lemma SetAnchored(k: Tables, t: nat, i: nat, e: Pte)
    requires Tree(k) && t in k.mem && Level(k, t) == 0 && i < SLOTS
    ensures Anchored(k, SetEntry(k, t, i, e))
  {
    forall a: Key, l: nat | l <= 3 && On(k, a, l)
      ensures On(SetEntry(k, t, i, e), a, l) && Tab(SetEntry(k, t, i, e), a, l) == Tab(k, a, l)
    {
      SetOn(k, t, i, e, a, l);
    }
  }

  lemma AnchoredTrans(k: Tables, k1: Tables, k2: Tables)
    requires Steady(k, k1) && Anchored(k, k1) && Anchored(k1, k2)
    ensures Anchored(k, k2)
  {
    forall a: Key, l: nat | l <= 3 && On(k, a, l) && Closed(k, Tab(k, a, l), Index(a, l))
      ensures On(k2, a, l) && Tab(k2, a, l) == Tab(k, a, l)
    {
      assert On(k1, a, l) && Closed(k1, Tab(k1, a, l), Index(a, l));
    }
  }

  /** The key with the indices of b up to level l, and those of a above. */
  function Spliced(a: Key, b: Key, l: nat): (c: Key)
    ensures SameFrom(a, c, l + 1) && (forall j: nat :: j <= l && j <= 3 ==> Index(c, j) == Index(b, j))
    ensures KeyOk(a) && KeyOk(b) ==> KeyOk(c)
  {
    Key(if l >= 3 then b.i3 else a.i3, if l >= 2 then b.i2 else a.i2, if l >= 1 then b.i1 else a.i1, b.i0)
  }

  /** The ways to such an entry go through the same indices. */
  lemma ClosedPath(k0: Tables, k: Tables, a: Key, l: nat)
    requires Tree(k0) && Tree(k) && Steady(k0, k) && Anchored(k0, k)
    requires l <= 3 && On(k, a, l) && Closed(k, Tab(k, a, l), Index(a, l))
    ensures On(k0, a, l) && Tab(k0, a, l) == Tab(k, a, l)
  {
    var t, i := Tab(k, a, l), Index(a, l);
    TabLevel(k, a, l);
    assert Closed(k0, t, i);
    assert Level(k0, t) == l;
    var p := PathTo(k0, t);
    var c := WithIndex(p, l, i);
    OnSame(k0, p, c, l);
    assert On(k, c, l) && Tab(k, c, l) == t;
    SamePath(k, a, c, l);
    OnSame(k0, c, a, l);
  }

  lemma SamePath(k: Tables, a: Key, c: Key, l: nat)
    requires Tree(k) && l <= 3 && On(k, a, l) && On(k, c, l) && Tab(k, a, l) == Tab(k, c, l)
    ensures SameFrom(c, a, l + 1)
  {
    if l < 1 { TabUnique(k, a, c, l, 1); }
    if l < 2 { TabUnique(k, a, c, l, 2); }
    if l < 3 { TabUnique(k, a, c, l, 3); }
  }

  lemma AnchoredBoth(k0: Tables, k1: Tables, k2: Tables)
    requires Tree(k0) && Tree(k1) && Steady(k0, k1) && Anchored(k0, k1) && Anchored(k0, k2)
    ensures Anchored(k1, k2)
  {
    forall a: Key, l: nat | l <= 3 && On(k1, a, l) && Closed(k1, Tab(k1, a, l), Index(a, l))
      ensures On(k2, a, l) && Tab(k2, a, l) == Tab(k1, a, l)
    {
      ClosedPath(k0, k1, a, l);
      assert Closed(k0, Tab(k0, a, l), Index(a, l));
    }
  }

  /** A walk leaves the tree at the same entry in both. */
  lemma SameOther(k: Tables, k': Tables, a: Key)
    requires Tree(k) && Tree(k') && Steady(k, k') && Anchored(k, k')
    ensures Lookup(k, a).Other? || Lookup(k', a).Other? ==> Lookup(k', a) == Lookup(k, a)
  {
    var l := WalkEnd(k, a);
    var l' := WalkEnd(k', a);
    if Lookup(k, a).Other? {
      assert Closed(k, Tab(k, a, l), Index(a, l));
      EndsLookup(k', a, l);
    } else if Lookup(k', a).Other? {
      assert Closed(k', Tab(k', a, l'), Index(a, l'));
      ClosedPath(k, k', a, l');
      EndsLookup(k, a, l');
    }
  }

  /** From k to k', what is not part of the tree is the same, and found on the same ways. */
  ghost predicate Preserves(k: Tables, k': Tables)
  {
    Steady(k, k') && Anchored(k, k')
  }

  lemma PreservesBoth(k0: Tables, k1: Tables, k2: Tables)
    requires Tree(k0) && Tree(k1) && Preserves(k0, k1) && Preserves(k0, k2)
    ensures Preserves(k1, k2)
  {
    SteadyBoth(k0, k1, k2);
    AnchoredBoth(k0, k1, k2);
  }

  lemma AttachPreserves(k0: Tables, k: Tables, t: nat, i: nat, e: Pte, k': Tables)
    requires Preserves(k0, k) && Attached(k, t, i, e, k')
    ensures Preserves(k0, k')
  {
    AttachAnchored(k, t, i, e, k');
    SteadyTrans(k0, k, k');
    AnchoredTrans(k0, k, k');
  }

  lemma DetachPreserves(k0: Tables, k: Tables, t: nat, i: nat, e: Pte, k': Tables)
    requires Preserves(k0, k') && Tree(k) && Attached(k, t, i, e, k')
    ensures Preserves(k0, k)
  {
    DetachAnchored(k, t, i, e, k');
    SteadyBack(k0, k', k);
    AnchoredTrans(k0, k', k);
  }

  lemma SetPreserves(k0: Tables, k: Tables, a: Key, e: Pte)
    requires Preserves(k0, k) && Tree(k) && KeyOk(a) && On(k, a, 0) && !Lookup(k, a).Other? && !e.Other?
    ensures Tab(k, a, 0) in k.mem && Preserves(k0, SetEntry(k, Tab(k, a, 0), a.i0, e))
  {
    var t := Tab(k, a, 0);
    TabLevel(k, a, 0);
    OpenEntry(k, a, 0);
    SetSteady(k, t, a.i0, e);
    SetAnchored(k, t, a.i0, e);
    SteadyTrans(k0, k, SetEntry(k, t, a.i0, e));
    AnchoredTrans(k0, k, SetEntry(k, t, a.i0, e));
  }

  // ---------------------------------------------------------------- empty tables

  /** No table but the root and x is empty. */
  ghost predicate FullBut(k: Tables, x: nat)
  {
    forall t {:trigger t in k.up} :: t in k.up && t != x ==> exists i: nat :: Busy(k, t, i)
  }

  lemma AttachFull(k: Tables, t: nat, i: nat, e: Pte, k': Tables)
    requires Attached(k, t, i, e, k') && FullBut(k, t)
    ensures FullBut(k', e.phys)
  {
    forall x | x in k'.up && x != e.phys ensures exists j: nat :: Busy(k', x, j) {
      if x == t {
        assert Busy(k', t, i);
      } else {
        var j: nat :| Busy(k, x, j);
        assert Linked(k', x, j) || Closed(k', x, j);
        assert Busy(k', x, j);
      }
    }
  }

  lemma DetachFull(k: Tables, t: nat, i: nat, e: Pte, k': Tables)
    requires Sized(k) && Attached(k, t, i, e, k') && FullBut(k', e.phys)
    ensures FullBut(k, t)
  {
    forall x | x in k.up && x != t ensures exists j: nat :: Busy(k, x, j) {
      var j: nat :| Busy(k', x, j);
      assert Linked(k, x, j) || Closed(k, x, j);
      assert Busy(k, x, j);
    }
  }

  lemma SetFull(k: Tables, t: nat, i: nat, e: Pte)
    requires t in k.mem && i < |k.mem[t]| && FullBut(k, t)
    ensures FullBut(SetEntry(k, t, i, e), t)
    ensures e.To? ==> Full(SetEntry(k, t, i, e))
  {
    var k' := SetEntry(k, t, i, e);
    forall x | x in k'.up && x != t ensures exists j: nat :: Busy(k', x, j) {
      var j: nat :| Busy(k, x, j);
      assert Busy(k', x, j);
    }
    assert e.To? ==> Busy(k', t, i);
  }

  /** Taking away what was just hung up leaves the tables as they were. */
  lemma DetachAttach(k: Tables, t: nat, i: nat, e: Pte)
    requires Sized(k) && t in k.mem && i < SLOTS && k.mem[t][i] == Absent && e.To? && e.phys !in k.mem
    ensures Detach(Attach(k, t, i, e), t, i) == k
  {
    var k' := Detach(Attach(k, t, i, e), t, i);
    assert k'.mem[t] == k.mem[t];
    assert k'.mem == k.mem;
    assert k'.up == k.up;
  }
}
