/** Which pages of the allocator the page tables use, and that no page serves two purposes. */
module Ownership {
  import opened PageTables
  import opened Frames

  /** Page p is mapped by entry i of the level 0 table t. */
  ghost predicate Maps(k: Tables, t: nat, i: nat, p: nat)
  {
    Linked(k, t, i) && Level(k, t) == 0 && k.mem[t][i].phys == p
  }

  /** Tables are not free, and those of the tree are no larger blocks. */
  ghost predicate TablesOwned(k: Tables, m: Pages)
  {
    && (forall t {:trigger t in k.mem} :: t in k.mem ==> t !in m.pool && t !in m.large)
    && (forall t {:trigger t in k.rest} :: t in k.rest ==> t !in m.pool)
  }

  /** A mapped page is not free, not the start of a larger block and not a table. */
  ghost predicate LeavesOwned(k: Tables, m: Pages)
  {
    forall t, i: nat, p {:trigger Maps(k, t, i, p)} :: Maps(k, t, i, p) ==>
      p !in m.pool && p !in m.large && p !in k.mem && p !in k.rest
  }

  /** A page that was handed out singly is mapped once. */
  ghost predicate LeavesUnique(k: Tables, m: Pages)
  {
    forall t, i: nat, t', i': nat, p {:trigger Maps(k, t, i, p), Maps(k, t', i', p)} ::
      Maps(k, t, i, p) && Maps(k, t', i', p) && p in m.used ==> t == t' && i == i'
  }

  ghost predicate Owned(k: Tables, m: Pages)
  {
    TablesOwned(k, m) && LeavesOwned(k, m) && LeavesUnique(k, m)
  }

  /** Page p can be put to use: it is not free and the tables do not use it. */
  ghost predicate Idle(k: Tables, m: Pages, p: nat)
  {
    && p !in m.pool && p !in m.large && p !in k.mem && p !in k.rest
    && (p in m.used ==> forall t, i: nat {:trigger Maps(k, t, i, p)} :: !Maps(k, t, i, p))
  }

  lemma TakeOwned(k: Tables, m: Pages, p: nat, m': Pages)
    requires Owned(k, m) && PagesOk(m) && PagesOk(m') && Taken(m, p, m')
    ensures Owned(k, m') && Idle(k, m', p) && p !in m.used
  {
    assert p in m.pool;
    assert forall x :: x in m'.pool ==> x in m.pool by {
      forall x | x in m'.pool ensures x in m.pool { assert x in m'.pool + m'.lost; }
    }
    assert forall t, i: nat :: !Maps(k, t, i, p);
    assert forall t, i: nat, x :: Maps(k, t, i, x) && x in m'.used ==> x in m.used;
  }

  lemma GiveOwned(k: Tables, m: Pages, p: nat, m': Pages)
    requires Owned(k, m) && GivenPage(m, p, m') && Idle(k, m, p)
    ensures Owned(k, m')
  {
  }

  lemma AttachOwned(k: Tables, m: Pages, t: nat, i: nat, e: Pte, k': Tables)
    requires Sized(k) && Owned(k, m) && Attached(k, t, i, e, k') && Idle(k, m, e.phys) && e.phys in m.used
    ensures Owned(k', m)
  {
    AttachMaps(k, t, i, e, k');
    assert forall x :: x in k'.mem <==> x in k.mem || x == e.phys;
  }

  /** Hanging up an empty table maps nothing. */
  lemma AttachMaps(k: Tables, t: nat, i: nat, e: Pte, k': Tables)
    requires Sized(k) && Attached(k, t, i, e, k')
    ensures forall x, j: nat, p :: Maps(k', x, j, p) <==> Maps(k, x, j, p)
  {
    assert forall x :: x in k.mem ==> Level(k', x) == Level(k, x);
    assert forall x, j: nat :: Linked(k, x, j) ==> k'.mem[x][j] == k.mem[x][j];
  }

  lemma DetachOwned(k: Tables, m: Pages, t: nat, i: nat, e: Pte, k': Tables)
    requires Sized(k) && Owned(k', m) && Attached(k, t, i, e, k')
    ensures Owned(k, m) && Idle(k, m, e.phys)
  {
    AttachMaps(k, t, i, e, k');
    assert forall x :: x in k'.mem <==> x in k.mem || x == e.phys;
  }

  /** Level 0 entries after one of them is written. */
  lemma SetMaps(k: Tables, t: nat, i: nat, e: Pte, x: nat, j: nat, p: nat)
    requires Sized(k) && t in k.mem && Level(k, t) == 0 && i < SLOTS
    ensures Maps(SetEntry(k, t, i, e), x, j, p)
       <==> if x == t && j == i then e.To? && e.phys == p else Maps(k, x, j, p)
  {
  }

  lemma SetOwned(k: Tables, m: Pages, t: nat, i: nat, e: Pte)
    requires Sized(k) && Owned(k, m) && t in k.mem && Level(k, t) == 0 && i < SLOTS && !e.Other?
    requires e.To? ==> Idle(k, m, e.phys)
    ensures Owned(SetEntry(k, t, i, e), m)
  {
    forall x, j: nat, p
      ensures Maps(SetEntry(k, t, i, e), x, j, p)
         <==> if x == t && j == i then e.To? && e.phys == p else Maps(k, x, j, p)
    {
      SetMaps(k, t, i, e, x, j, p);
    }
  }

  /** The page of a cleared entry is out of use. */
  lemma ClearIdle(k: Tables, m: Pages, t: nat, i: nat)
    requires Sized(k) && Owned(k, m) && Linked(k, t, i) && Level(k, t) == 0
    ensures Idle(SetEntry(k, t, i, Absent), m, k.mem[t][i].phys)
  {
    var p := k.mem[t][i].phys;
    assert Maps(k, t, i, p);
    forall x, j: nat | Maps(SetEntry(k, t, i, Absent), x, j, p) ensures !(p in m.used) {
      SetMaps(k, t, i, Absent, x, j, p);
    }
  }
}
