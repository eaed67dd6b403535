/** What the processor sees before and after pages are mapped and unmapped, with large pages and shared
    tables elsewhere in the page tables. */
module KmapSeen {
  import opened PteBits
  import opened PageTables
  import opened TableTree
  import opened TableRights
  import opened Frames
  import opened KmapSteps
  import opened KmapRegion
  import opened Kmap
  import opened KmapPages
  import opened Translation

  /** A word in a table of level l that leads to another table. */
  predicate Goes(w: nat, l: nat) { l > 0 && Present(w) && !Large(FlagsOf(w)) }

  /** Table p of the tree stays: it is the root, or has an entry that is not followed. */
  ghost predicate Pinned(k: Tables, p: nat)
  {
    p in k.mem && (p == k.root || exists i: nat :: Closed(k, p, i))
  }

  /** A walk that has left the tree and is at table p of level l comes back to the tree only at tables
      that stay, in their own level, and meets no page of the allocator that could become a table. */
  ghost predicate Lands(k: Tables, m: Pages, p: nat, l: nat)
    decreases l
  {
    if p in k.mem then Level(k, p) == l && Pinned(k, p)
    else if p in k.rest then
      forall i: nat {:trigger k.rest[p][i]} :: i < |k.rest[p]| && Goes(k.rest[p][i], l) ==>
        Lands(k, m, PhysOf(k.rest[p][i]), l - 1)
    else p !in m.pool && p !in m.used
  }

  /** That is so wherever a walk leaves the tree. */
  ghost predicate Sealed(k: Tables, m: Pages)
  {
    forall t, i: nat {:trigger Closed(k, t, i)} :: Closed(k, t, i) ==>
      var e := k.mem[t][i]; Goes(e.word, e.level) ==> Lands(k, m, PhysOf(e.word), e.level - 1)
  }

  lemma PinnedStays(k: Tables, k': Tables, p: nat)
    requires Tree(k) && Tree(k') && Preserves(k, k') && Pinned(k, p)
    ensures Pinned(k', p) && Level(k', p) == Level(k, p)
  {
    if p != k.root {
      var i: nat :| Closed(k, p, i);
      assert Closed(k', p, i);
    }
  }

  lemma {:induction false} LandsStays(k: Tables, m: Pages, k': Tables, m': Pages, p: nat, l: nat)
    requires Tree(k) && Tree(k') && Preserves(k, k') && Within(k, m, k', m') && Lands(k, m, p, l)
    ensures Lands(k', m', p, l)
    decreases l
  {
    if p in k.mem {
      PinnedStays(k, k', p);
    } else if p in k.rest {
      forall i: nat | i < |k.rest[p]| && Goes(k.rest[p][i], l) ensures Lands(k', m', PhysOf(k.rest[p][i]), l - 1) {
        LandsStays(k, m, k', m', PhysOf(k.rest[p][i]), l - 1);
      }
    }
  }

  /** Being sealed is kept by everything that is done to the tree. */
  lemma SealedStays(k: Tables, m: Pages, k': Tables, m': Pages)
    requires Tree(k) && Tree(k') && Preserves(k, k') && Within(k, m, k', m') && Sealed(k, m)
    ensures Sealed(k', m')
  {
    forall t, i: nat | Closed(k', t, i)
      ensures var e := k'.mem[t][i]; Goes(e.word, e.level) ==> Lands(k', m', PhysOf(e.word), e.level - 1)
    {
      assert Closed(k, t, i);
      var e := k'.mem[t][i];
      if Goes(e.word, e.level) { LandsStays(k, m, k', m', PhysOf(e.word), e.level - 1); }
    }
  }

  // ---------------------------------------------------------------- walks in the tree

  ghost predicate SameTo(a: Key, b: Key, l: nat)
  {
    forall j: nat :: j <= l && j <= 3 ==> Index(a, j) == Index(b, j)
  }

  lemma {:induction false} TranslateSame(words: Words, t: nat, a: Key, b: Key, l: nat)
    requires l <= 3 && SameTo(a, b, l)
    ensures Translate(words, t, a, l) == Translate(words, t, b, l)
    decreases l
  {
    if t in words && Index(a, l) < |words[t]| {
      var e := Decode(words[t][Index(a, l)]);
      if e.To? && l > 0 && !Large(e.flags) { TranslateSame(words, e.phys, a, b, l - 1); }
    }
  }

  /** What the processor makes of a page whose walk leaves the tree at the word w in level l. */
  ghost function Leaving(words: Words, w: nat, l: nat, a: Key): Target
  {
    if l == 0 || Large(FlagsOf(w)) then Page(PhysOf(w), FlagsOf(w), l, AccessOf(FlagsOf(w)))
    else Narrow(Translate(words, PhysOf(w), a, l - 1), AccessOf(FlagsOf(w)))
  }

  ghost function Result(words: Words, e: Pte, a: Key): Target
  {
    if e.Other? then Leaving(words, e.word, e.level, a) else Seen(e)
  }

  /** A walk from a table of the tree gives what is looked up, with no more rights than the way gives. */
  lemma {:induction false} TreeWalk(words: Words, k: Tables, a: Key, l: nat)
    requires Tree(k) && Reads(words, k) && KeyOk(a) && l <= 3 && On(k, a, l)
    ensures Translate(words, Tab(k, a, l), a, l) == Narrow(Result(words, Lookup(k, a), a), WayFrom(k, a, l))
    decreases l
  {
    var t, i := Tab(k, a, l), Index(a, l);
    TabLevel(k, a, l);
    assert Matches(k.mem[t][i], words[t][i]);
    if l > 0 && Linked(k, t, i) {
      TreeWalk(words, k, a, l - 1);
      NarrowTwice(Result(words, Lookup(k, a), a), WayFrom(k, a, l - 1), AccessOf(k.mem[t][i].flags));
    } else {
      EndsLookup(k, a, l);
      assert WayFrom(k, a, l) == ALL;
      assert Closed(k, t, i) ==> k.mem[t][i].level == l;
    }
  }

  // ---------------------------------------------------------------- before and after

  /** The tables k in words, and later k' in words'. */
  ghost predicate Changed(words: Words, k: Tables, m: Pages, words': Words, k': Tables)
  {
    && Tree(k) && Tree(k') && Reads(words, k) && Reads(words', k') && Preserves(k, k') && KeepsWays(k, k')
    && (forall t :: t in k'.mem ==> t in k.mem || t in m.pool || t in m.used)
    && Sealed(k, m)
  }

  /** What is seen from table t on is, before and after, what page c of the tree is mapped to, with no
      more rights than r gives. */
  ghost predicate Moves(words: Words, k: Tables, words': Words, k': Tables, t: nat, b: Key, l: nat, c: Key, r: Access)
  {
    && KeyOk(c) && Lookup(k, c) != Lookup(k', c) && !Lookup(k, c).Other? && !Lookup(k', c).Other?
    && Translate(words, t, b, l) == Narrow(Seen(Lookup(k, c)), r)
    && Translate(words', t, b, l) == Narrow(Seen(Lookup(k', c)), r)
  }

  ghost predicate Steadily(words: Words, k: Tables, words': Words, k': Tables, t: nat, b: Key, l: nat)
  {
    || Translate(words', t, b, l) == Translate(words, t, b, l)
    || exists c, r :: Moves(words, k, words', k', t, b, l, c, r)
  }

  /** A table of the tree that stays is on the same way before and after. */
  lemma PinnedPath(k: Tables, k': Tables, t: nat, b: Key) returns (c: Key)
    requires Tree(k) && Tree(k') && Preserves(k, k') && Pinned(k, t) && KeyOk(b)
    ensures KeyOk(c) && Level(k, t) <= 3 && SameTo(b, c, Level(k, t))
    ensures On(k, c, Level(k, t)) && Tab(k, c, Level(k, t)) == t && On(k', c, Level(k, t))
    ensures Tab(k', c, Level(k, t)) == t
  {
    var l := Level(k, t);
    var a := PathTo(k, t);
    c := Spliced(a, b, l);
    OnSame(k, a, c, l);
    if t != k.root {
      var i: nat :| Closed(k, t, i);
      var d := WithIndex(a, l, i);
      OnSame(k, a, d, l);
      assert On(k', d, l) && Tab(k', d, l) == t;
      OnSame(k', d, c, l);
    }
  }

  lemma {:induction false} SeenFrom(words: Words, k: Tables, m: Pages, words': Words, k': Tables,
                                    t: nat, b: Key, l: nat)
    requires Changed(words, k, m, words', k') && KeyOk(b) && l <= 3 && Lands(k, m, t, l)
    ensures Steadily(words, k, words', k', t, b, l)
    decreases l
  {
    var p := NextOutside(words, k, m, words', k', t, b, l);
    if p.Some? {
      SeenFrom(words, k, m, words', k', p.table, b, p.level);
      MovesOn(words, k, words', k', t, p.table, b, p.level, l, p.rights);
    }
  }

  /** Where a walk goes on after it has left the tree, and the rights it has on the way there. */
  datatype Outside = None | Some(table: nat, level: nat, rights: Access)

  /** A walk ends in the tree or outside it, or it goes on outside in the same way before and after. */
  ghost predicate GoesOn(words: Words, k: Tables, m: Pages, words': Words, k': Tables, t: nat, b: Key, l: nat,
                         p: Outside)
  {
    if p.None? then
      Steadily(words, k, words', k', t, b, l)
    else
      && p.level < l && Lands(k, m, p.table, p.level)
      && Translate(words, t, b, l) == Narrow(Translate(words, p.table, b, p.level), p.rights)
      && Translate(words', t, b, l) == Narrow(Translate(words', p.table, b, p.level), p.rights)
  }

  lemma NextOutside(words: Words, k: Tables, m: Pages, words': Words, k': Tables, t: nat, b: Key, l: nat)
    returns (p: Outside)
    requires Changed(words, k, m, words', k') && KeyOk(b) && l <= 3 && Lands(k, m, t, l)
    ensures GoesOn(words, k, m, words', k', t, b, l, p)
  {
    p := None;
    if t in k.mem {
      p := NextFromTree(words, k, m, words', k', t, b, l);
    } else if t in k.rest {
      assert words[t] == k.rest[t] == words'[t];
      if Index(b, l) < |words[t]| && Goes(words[t][Index(b, l)], l) {
        var w := k.rest[t][Index(b, l)];
        p := Some(PhysOf(w), l - 1, AccessOf(FlagsOf(w)));
      }
    }
  }

  /** The case that the walk is at a table of the tree. */
  lemma NextFromTree(words: Words, k: Tables, m: Pages, words': Words, k': Tables, t: nat, b: Key, l: nat)
    returns (p: Outside)
    requires Changed(words, k, m, words', k') && KeyOk(b) && l <= 3 && t in k.mem && Level(k, t) == l && Pinned(k, t)
    ensures GoesOn(words, k, m, words', k', t, b, l, p)
  {
    var c := PinnedPath(k, k', t, b);
    TranslateSame(words, t, b, c, l);
    TranslateSame(words', t, b, c, l);
    TreeWalk(words, k, c, l);
    TreeWalk(words', k', c, l);
    SameOther(k, k', c);
    p := None;
    if Lookup(k, c).Other? {
      LeavesAt(words, k, m, c, l);
      assert WayFrom(k', c, l) == WayFrom(k, c, l);
      p := Leaves(words, k, m, words', k', t, b, c, l, Lookup(k, c).word, Lookup(k, c).level, WayFrom(k, c, l));
    } else {
      MovesHere(words, k, words', k', t, b, l, c);
    }
  }

  /** The case that the walk leaves the tree at the word w in level j, after a way whose rights are s. */
  lemma Leaves(words: Words, k: Tables, m: Pages, words': Words, k': Tables, t: nat, b: Key, c: Key, l: nat,
               w: nat, j: nat, s: Access)
    returns (p: Outside)
    requires j <= l <= 3 && SameTo(b, c, l) && Present(w) && (Goes(w, j) ==> Lands(k, m, PhysOf(w), j - 1))
    requires Translate(words, t, b, l) == Narrow(Leaving(words, w, j, c), s)
    requires Translate(words', t, b, l) == Narrow(Leaving(words', w, j, c), s)
    ensures GoesOn(words, k, m, words', k', t, b, l, p)
  {
    LeavingSame(words, w, j, b, c, l);
    LeavingSame(words', w, j, b, c, l);
    p := None;
    if Goes(w, j) {
      var f := AccessOf(FlagsOf(w));
      NarrowTwice(Translate(words, PhysOf(w), b, j - 1), f, s);
      NarrowTwice(Translate(words', PhysOf(w), b, j - 1), f, s);
      p := Some(PhysOf(w), j - 1, Both(f, s));
    }
  }

  /** The case that the walk stays in the tree. */
  lemma MovesHere(words: Words, k: Tables, words': Words, k': Tables, t: nat, b: Key, l: nat, c: Key)
    requires KeyOk(c) && !Lookup(k, c).Other? && !Lookup(k', c).Other? && KeepsWays(k, k') && l <= 3
    requires Translate(words, t, b, l) == Narrow(Seen(Lookup(k, c)), WayFrom(k, c, l))
    requires Translate(words', t, b, l) == Narrow(Seen(Lookup(k', c)), WayFrom(k', c, l))
    ensures Steadily(words, k, words', k', t, b, l)
  {
    assert Lookup(k', c) != Absent ==> WayFrom(k', c, l) == WayFrom(k, c, l);
    if Lookup(k, c) != Lookup(k', c) { assert Moves(words, k, words', k', t, b, l, c, WayFrom(k, c, l)); }
  }

  /** What holds at table p holds at a table t with an entry for it, whose rights are s. */
  lemma MovesOn(words: Words, k: Tables, words': Words, k': Tables, t: nat, p: nat, b: Key, j: nat, l: nat, s: Access)
    requires Steadily(words, k, words', k', p, b, j)
    requires Translate(words, t, b, l) == Narrow(Translate(words, p, b, j), s)
    requires Translate(words', t, b, l) == Narrow(Translate(words', p, b, j), s)
    ensures Steadily(words, k, words', k', t, b, l)
  {
    if Translate(words', p, b, j) != Translate(words, p, b, j) {
      var c, r :| Moves(words, k, words', k', p, b, j, c, r);
      NarrowTwice(Seen(Lookup(k, c)), r, s);
      NarrowTwice(Seen(Lookup(k', c)), r, s);
      assert Moves(words, k, words', k', t, b, l, c, Both(r, s));
    }
  }

  lemma LeavingSame(words: Words, w: nat, j: nat, b: Key, c: Key, l: nat)
    requires j <= l <= 3 && SameTo(b, c, l)
    ensures Leaving(words, w, j, b) == Leaving(words, w, j, c)
  {
    if j > 0 { TranslateSame(words, PhysOf(w), b, c, j - 1); }
  }

  /** Where a walk leaves the tree. */
  lemma LeavesAt(words: Words, k: Tables, m: Pages, c: Key, l: nat)
    requires Tree(k) && Reads(words, k) && Sealed(k, m) && KeyOk(c) && l <= 3 && On(k, c, l) && Lookup(k, c).Other?
    ensures var w, j := Lookup(k, c).word, Lookup(k, c).level;
      j <= l && Present(w) && (Goes(w, j) ==> Lands(k, m, PhysOf(w), j - 1))
  {
    var j := WalkEnd(k, c);
    EndsBelow(k, c, j, l);
    TabLevel(k, c, j);
    assert Closed(k, Tab(k, c, j), Index(c, j));
    assert Matches(k.mem[Tab(k, c, j)][Index(c, j)], words[Tab(k, c, j)][Index(c, j)]);
  }

  /** Every page is translated as before; or as a page of the tree is mapped before and after, with the
      same limits to its rights, and then that is itself one that was changed. */
  lemma SeenTheorem(words: Words, k: Tables, m: Pages, words': Words, k': Tables, b: Key)
    requires Changed(words, k, m, words', k') && KeyOk(b)
    ensures Steadily(words, k, words', k', k.root, b, 3)
  {
    SeenFrom(words, k, m, words', k', k.root, b, 3);
  }

  // ---------------------------------------------------------------- pages and ranges

  /** What is seen, with the rights that the last entry alone gives. */
  function Alone(x: Target): Target
  {
    if x.Fault? then Fault else x.(access := AccessOf(x.flags))
  }

  /** Before and after, page b is seen as page c would be if the way to it gave the rights r. */
  ghost predicate AliasBy(words: Words, words': Words, root: nat, b: Key, c: Key, r: Access)
  {
    && Translate(words, root, b, 3) == Narrow(Alone(Translate(words, root, c, 3)), r)
    && Translate(words', root, b, 3) == Narrow(Alone(Translate(words', root, c, 3)), r)
  }

  /** Page b is seen as before, or else before and after as page c on another way. */
  ghost predicate SeenLike(words: Words, words': Words, root: nat, b: Key, c: Key)
  {
    || Translate(words', root, b, 3) == Translate(words, root, b, 3)
    || exists r :: AliasBy(words, words', root, b, c, r)
  }

  /** What the processor makes of a page whose walk stays in the tree. */
  lemma TreeSeen(words: Words, k: Tables, a: Key)
    requires Tree(k) && Reads(words, k) && KeyOk(a) && !Lookup(k, a).Other?
    ensures Translate(words, k.root, a, 3) == Narrow(Seen(Lookup(k, a)), Way(k, a))
    ensures Alone(Translate(words, k.root, a, 3)) == Seen(Lookup(k, a))
  {
    TreeWalk(words, k, a, 3);
  }

  /** The same after a change of other pages. */
  lemma StillSeen(words: Words, k: Tables, m: Pages, words': Words, k': Tables, a: Key)
    requires Changed(words, k, m, words', k') && KeyOk(a) && !Lookup(k', a).Other?
    ensures Translate(words', k.root, a, 3) == Narrow(Seen(Lookup(k', a)), Way(k, a))
    ensures Lookup(k, a) == Lookup(k', a) ==> Translate(words', k.root, a, 3) == Translate(words, k.root, a, 3)
  {
    TreeSeen(words', k', a);
    assert Lookup(k', a) != Absent ==> WayFrom(k', a, 3) == WayFrom(k, a, 3);
    if Lookup(k, a) == Lookup(k', a) { TreeSeen(words, k, a); }
  }

  /** A page with flags that have the present bit can be written if they have bit 1, used by user code if
      they have bit 2, and executed unless they have bit 63. */
  predicate FullyAt(x: Target, p: nat, flags: nat)
  {
    if flags % 2 == 1 then
      && x.Page? && x.phys == p && x.flags == flags && x.level == 0
      && (x.access.write <==> flags / 2 % 2 == 1) && (x.access.user <==> flags / 4 % 2 == 1)
      && (x.access.execute <==> flags / 0x8000_0000_0000_0000 % 2 == 0)
    else
      x == Fault
  }

  /** A page that was mapped is seen so, with no more rights than the tables that were on the way before
      give; if those give all rights, or there were none, with the rights of the flags given. */
  lemma MappedSeen(k: Tables, a: Key, p: nat, flags: nat, words': Words, k': Tables)
    requires Tree(k') && Reads(words', k') && KeyOk(a) && Mapped(k, a, Leaf(p, flags), k')
    ensures Translate(words', k'.root, a, 3) == Narrow(Seen(Leaf(p, flags)), Way(k, a))
    ensures Way(k, a) == Access(true, true, true) ==> FullyAt(Translate(words', k'.root, a, 3), p, flags)
  {
    TreeSeen(words', k', a);
    assert WayFrom(k', a, 3) == WayFrom(k, a, 3);
  }

  /** When page a is mapped, unmapped or given other flags, it is seen so, with no more rights than the
      tables that were on the way before give. Every other page is translated as before unless it is an
      alias of a; a page whose walk stays in the tree is no alias. */
  lemma PageSeen(words: Words, k: Tables, m: Pages, words': Words, k': Tables, a: Key, e: Pte, b: Key)
    requires Changed(words, k, m, words', k') && Updated(k, a, e, k') && KeyOk(a) && KeyOk(b)
    requires !Lookup(k, a).Other? && !e.Other?
    ensures Translate(words', k.root, a, 3) == Narrow(Seen(e), Way(k, a))
    ensures SeenLike(words, words', k.root, b, a)
    ensures b != a && !Lookup(k, b).Other? ==> Translate(words', k.root, b, 3) == Translate(words, k.root, b, 3)
  {
    TreeSeen(words, k, a);
    TreeSeen(words', k', a);
    StillSeen(words, k, m, words', k', a);
    if b != a && !Lookup(k, b).Other? { StillSeen(words, k, m, words', k', b); }
    SeenTheorem(words, k, m, words', k', b);
    if Translate(words', k.root, b, 3) != Translate(words, k.root, b, 3) {
      var c, r :| Moves(words, k, words', k', k.root, b, 3, c, r);
      assert AliasBy(words, words', k.root, b, a, r);
    }
  }

  /** The same for a range of pages. */
  ghost predicate RangeLike(words: Words, words': Words, root: nat, ks: seq<Key>, b: Key)
  {
    || Translate(words', root, b, 3) == Translate(words, root, b, 3)
    || exists c :: c in ks && SeenLike(words, words', root, b, c)
  }

  lemma RangeSeen(words: Words, k: Tables, m: Pages, words': Words, k': Tables, ks: seq<Key>, b: Key)
    requires Changed(words, k, m, words', k') && Framed(k, ks, k') && KeyOk(b)
    ensures RangeLike(words, words', k.root, ks, b)
    ensures b !in ks && !Lookup(k, b).Other? ==> Translate(words', k.root, b, 3) == Translate(words, k.root, b, 3)
  {
    if b !in ks && !Lookup(k, b).Other? { StillSeen(words, k, m, words', k', b); }
    SeenTheorem(words, k, m, words', k', b);
    if Translate(words', k.root, b, 3) != Translate(words, k.root, b, 3) {
      var c, r :| Moves(words, k, words', k', k.root, b, 3, c, r);
      TreeSeen(words, k, c);
      TreeSeen(words', k', c);
      assert AliasBy(words, words', k.root, b, c, r);
      assert c in ks && SeenLike(words, words', k.root, b, c);
    }
  }

  // ---------------------------------------------------------------- the operations

  lemma OperationSeen(start: Tables, words: Words, k: Tables, m: Pages,
                      words': Words, k': Tables, m': Pages, ks: seq<Key>)
    requires Tree(start) && Tree(k) && Tree(k') && Reads(words, k) && Reads(words', k')
    requires Preserves(start, k) && Preserves(start, k') && Sealed(k, m) && Within(k, m, k', m') && Framed(k, ks, k')
    requires KeepsWays(k, k')
    ensures Changed(words, k, m, words', k') && Sealed(k', m') && (Wide(k) ==> Wide(k'))
    ensures forall b :: KeyOk(b) ==> RangeLike(words, words', k.root, ks, b)
    ensures forall b :: KeyOk(b) && b !in ks && !Lookup(k, b).Other? ==>
      Translate(words', k.root, b, 3) == Translate(words, k.root, b, 3)
  {
    PreservesBoth(start, k, k');
    SealedStays(k, m, k', m');
    if Wide(k) { WideStays(k, k'); }
    forall b | KeyOk(b)
      ensures RangeLike(words, words', k.root, ks, b)
      ensures b !in ks && !Lookup(k, b).Other? ==> Translate(words', k.root, b, 3) == Translate(words, k.root, b, 3)
    {
      RangeSeen(words, k, m, words', k', ks, b);
    }
  }

  /** Page b is seen with one of the frames given for it, and with no more rights than r gives. */
  ghost predicate SeenPlaced(words: Words, root: nat, ks: seq<Key>, fs: seq<nat>, flags: nat, b: Key, r: Access)
  {
    exists i: nat :: i < |ks| && i < |fs| && ks[i] == b
                     && Translate(words, root, b, 3) == Narrow(Seen(Leaf(fs[i], flags)), r)
  }

  lemma PlacedSeen(words: Words, k: Tables, m: Pages, words': Words, k': Tables, ks: seq<Key>, fs: seq<nat>,
                   flags: nat, b: Key)
    requires Changed(words, k, m, words', k') && KeyOk(b) && PlacedAt(k', ks, fs, flags, b)
    ensures SeenPlaced(words', k.root, ks, fs, flags, b, Way(k, b))
  {
    var i: nat :| i < |ks| && i < |fs| && ks[i] == b && Lookup(k', b) == Leaf(fs[i], flags);
    StillSeen(words, k, m, words', k', b);
  }

  /** Page b is seen with one of the frames given for it and the rights of the flags given. */
  ghost predicate SeenFully(words: Words, root: nat, ks: seq<Key>, fs: seq<nat>, flags: nat, b: Key)
  {
    exists i: nat :: i < |ks| && i < |fs| && ks[i] == b && FullyAt(Translate(words, root, b, 3), fs[i], flags)
  }

  lemma SeenAllRights(words: Words, root: nat, ks: seq<Key>, fs: seq<nat>, flags: nat, b: Key, r: Access)
    requires SeenPlaced(words, root, ks, fs, flags, b, r) && r == Access(true, true, true)
    ensures SeenFully(words, root, ks, fs, flags, b)
  {
    var i: nat :| i < |ks| && i < |fs| && ks[i] == b
                  && Translate(words, root, b, 3) == Narrow(Seen(Leaf(fs[i], flags)), r);
    assert FullyAt(Translate(words, root, b, 3), fs[i], flags);
  }

  /** kmap_map_pages in terms of what the processor sees before and after: the pages of the range with
      their frames, with the rights of the flags given as far as the tables that were there before do
      not limit them; other pages as before, unless they are aliases of pages of the range. */
  method MapSeen(pm: PageMap, start: nat, end: nat, base: nat, flags: nat, ghost ks: seq<Key>)
    returns (r: int, ghost fs: seq<nat>)
    requires pm.Valid() && IsFlags(flags) && Span(start, end, ks) && Open(pm.tab, ks)
    requires BaseForeign(pm.tab, pm.frames.pages, base, |ks|) && Sealed(pm.tab, pm.frames.pages)
    modifies pm, pm.frames, pm.frames.pmm, pm.frames.pmm.blocks
    ensures pm.Valid() && Sealed(pm.tab, pm.frames.pages) && (r == 0 || r == -1)
    ensures Wide(old(pm.tab)) ==> Wide(pm.tab)
    ensures forall b :: KeyOk(b) ==> RangeLike(old(pm.words), pm.words, pm.root, ks, b)
    ensures forall b :: KeyOk(b) && b !in ks && !Lookup(old(pm.tab), b).Other? ==>
      Translate(pm.words, pm.root, b, 3) == Translate(old(pm.words), pm.root, b, 3)
    ensures r == 0 ==> forall b :: KeyOk(b) && b in ks ==>
      SeenPlaced(pm.words, pm.root, ks, fs, flags, b, Way(old(pm.tab), b))
    ensures r == 0 ==> forall b :: KeyOk(b) && b in ks && Way(old(pm.tab), b) == Access(true, true, true) ==>
      SeenFully(pm.words, pm.root, ks, fs, flags, b)
  {
    ghost var words, k, m := pm.words, pm.tab, pm.frames.pages;
    ghost var done;
    r, fs, done := MapPages(pm, start, end, base, flags, ks);
    if r != 0 { FramedFailed(k, ks, done, pm.tab); } else { SameKeeps(k, pm.tab); }
    OperationSeen(pm.start, words, k, m, pm.words, pm.tab, pm.frames.pages, ks);
    if r == 0 {
      forall b | KeyOk(b) && b in ks
        ensures SeenPlaced(pm.words, pm.root, ks, fs, flags, b, Way(k, b))
        ensures Way(k, b) == Access(true, true, true) ==> SeenFully(pm.words, pm.root, ks, fs, flags, b)
      {
        PlacedSeen(words, k, m, pm.words, pm.tab, ks, fs, flags, b);
        if Way(k, b) == Access(true, true, true) {
          SeenAllRights(pm.words, pm.root, ks, fs, flags, b, Way(k, b));
        }
      }
    }
  }

  lemma FramedFailed(k: Tables, ks: seq<Key>, done: seq<Key>, k': Tables)
    requires done < ks && Cleared(k, done, k')
    ensures Framed(k, ks, k')
  {
    assert forall b :: b in done ==> b in ks;
  }

  /** kmap_unmap_pages: the pages of the range fault, other pages are seen as before, aliases aside. */
  method UnmapSeen(pm: PageMap, start: nat, end: nat, ghost ks: seq<Key>) returns (r: int)
    requires pm.Valid() && Span(start, end, ks) && Open(pm.tab, ks) && Sealed(pm.tab, pm.frames.pages)
    modifies pm, pm.frames, pm.frames.pmm, pm.frames.pmm.blocks
    ensures pm.Valid() && Sealed(pm.tab, pm.frames.pages) && r == 0
    ensures Wide(old(pm.tab)) ==> Wide(pm.tab)
    ensures forall b :: KeyOk(b) ==> RangeLike(old(pm.words), pm.words, pm.root, ks, b)
    ensures forall b :: KeyOk(b) && b !in ks && !Lookup(old(pm.tab), b).Other? ==>
      Translate(pm.words, pm.root, b, 3) == Translate(old(pm.words), pm.root, b, 3)
    ensures forall b :: KeyOk(b) && b in ks ==> Translate(pm.words, pm.root, b, 3) == Fault
  {
    ghost var words, k, m := pm.words, pm.tab, pm.frames.pages;
    r := UnmapPages(pm, start, end, ks, k, m);
    WithinReturned(k, m, NewTables(pm.tab, k) + FramesBehind(k, ks), pm.tab, pm.frames.pages);
    OperationSeen(pm.start, words, k, m, pm.words, pm.tab, pm.frames.pages, ks);
    forall b | KeyOk(b) && b in ks
      ensures Translate(pm.words, pm.root, b, 3) == Fault
    {
      TreeSeen(pm.words, pm.tab, b);
    }
  }

  /** kmap_modify_flags: mapped pages of the range keep their frames, have the new flags, and the rights
      that those give as far as the tables on the way do not limit them. */
  method ModifySeen(pm: PageMap, start: nat, end: nat, flags: nat, ghost ks: seq<Key>) returns (r: int)
    requires pm.Valid() && IsFlags(flags) && Span(start, end, ks) && Open(pm.tab, ks) && Sealed(pm.tab, pm.frames.pages)
    modifies pm
    ensures pm.Valid() && Sealed(pm.tab, pm.frames.pages) && r == 0
    ensures Wide(old(pm.tab)) ==> Wide(pm.tab)
    ensures forall b :: KeyOk(b) ==> RangeLike(old(pm.words), pm.words, pm.root, ks, b)
    ensures forall b :: KeyOk(b) && b !in ks && !Lookup(old(pm.tab), b).Other? ==>
      Translate(pm.words, pm.root, b, 3) == Translate(old(pm.words), pm.root, b, 3)
    ensures forall b :: KeyOk(b) && b in ks ==> ReflagSeen(old(pm.words), old(pm.tab), pm.words, flags, b)
  {
    ghost var words, k, m := pm.words, pm.tab, pm.frames.pages;
    r := ModifyFlags(pm, start, end, flags, ks);
    assert forall t :: t in pm.tab.mem ==> t in k.mem;
    SameKeeps(k, pm.tab);
    OperationSeen(pm.start, words, k, m, pm.words, pm.tab, pm.frames.pages, ks);
    forall b | KeyOk(b) && b in ks
      ensures ReflagSeen(words, k, pm.words, flags, b)
    {
      OpenKey(k, ks, b);
      ReflaggedSeen(words, k, m, pm.words, pm.tab, ks, flags, b);
    }
  }

  /** Page b keeps its frame, has the new flags and the rights that those and the tables on the way give;
      if the tables give all rights, it has those of the flags. */
  ghost predicate ReflagSeen(words: Words, k: Tables, words': Words, flags: nat, b: Key)
  {
    var x, y := Translate(words, k.root, b, 3), Translate(words', k.root, b, 3);
    && y == Reflag(x, flags, Way(k, b))
    && (Way(k, b) == Access(true, true, true) ==> if x.Fault? then y.Fault? else FullyAt(y, x.phys, flags))
  }

  lemma ReflaggedSeen(words: Words, k: Tables, m: Pages, words': Words, k': Tables, ks: seq<Key>, flags: nat, b: Key)
    requires Changed(words, k, m, words', k') && Reflagging(k, ks, flags, k') && KeyOk(b) && b in ks
    requires !Lookup(k, b).Other?
    ensures ReflagSeen(words, k, words', flags, b)
  {
    TreeSeen(words, k, b);
    StillSeen(words, k, m, words', k', b);
  }

  /** What a page is seen as when it is given other flags, on a way that gives the rights r. */
  function Reflag(x: Target, flags: nat, r: Access): Target
  {
    if x.Fault? || !Present(flags) then Fault else Page(x.phys, flags, x.level, Both(AccessOf(flags), r))
  }
}
