/** The read-only window of the nested kernel: the part of the page tables that hangs from the
    window's slots of the top table, and the rest that must not change. */
module Window {
  import opened Bits
  import opened PteBits
  import opened PageTables
  import opened TableRights
  import opened Frames
  import opened KmapSteps
  import opened KmapRegion
  import opened Translation

  /** Where page 0 appears in the window. */
  const RO_BASE: nat := 0xFFFF_8800_0000_0000

  /** The slots of the top table that 2^28 pages from RO_BASE on use. */
  predicate InWindow(slot: nat) { slot == 272 || slot == 273 }

  /** The window's page for page number i. */
  ghost function WindowKey(i: nat): (a: Key)
    ensures KeyOk(a)
  {
    KeyOf(RO_BASE + PAGE * i)
  }

  lemma WindowSlot(i: nat)
    requires i < FRAMES
    ensures InWindow(WindowKey(i).i3)
  {
    var addr := RO_BASE + PAGE * i;
    assert RO_BASE == 0x80_0000_0000 * 0x1FF_FF10;
    assert addr / 0x80_0000_0000 == 0x1FF_FF10 || addr / 0x80_0000_0000 == 0x1FF_FF11;
  }

  lemma WindowKeysDiffer(i: nat, j: nat)
    requires i < j < FRAMES
    ensures WindowKey(i) != WindowKey(j)
  {
    KeyValue(RO_BASE + PAGE * i);
    KeyValue(RO_BASE + PAGE * j);
    var q := RO_BASE / PAGE;
    assert (RO_BASE + PAGE * i) / PAGE == q + i && (RO_BASE + PAGE * j) / PAGE == q + j;
    RemaindersDiffer(q + i, q + j);
  }

  // ---------------------------------------------------------------- translation

  /** Entry i of table t, of level l, leads to another table. */
  ghost predicate Leads(words: Words, t: nat, l: nat, i: nat)
  {
    && 0 < l && t in words && i < |words[t]|
    && Decode(words[t][i]).To? && !Large(Decode(words[t][i]).flags)
  }

  /** No walk from the level l table t leads to a page of x; the window's slots aside. */
  ghost predicate Avoids(words: Words, t: nat, l: nat, x: set<nat>)
    decreases l
  {
    forall i: nat {:trigger Leads(words, t, l, i)} :: Leads(words, t, l, i) && (l == 3 ==> !InWindow(i)) ==>
      var p := Decode(words[t][i]).phys; p !in x && Avoids(words, p, l - 1, x)
  }

  /** From w0 to w, only tables of x were added, and of the tables that were there only the
      window's slots of the root changed. */
  ghost predicate Fixed(w0: Words, root: nat, x: set<nat>, w: Words)
  {
    && (forall t :: t in w <==> t in w0 || t in x)
    && (forall t :: t in w0 && t != root ==> w[t] == w0[t])
    && root in w0 && |w[root]| == |w0[root]|
    && (forall i: nat :: i < |w0[root]| && !InWindow(i) ==> w[root][i] == w0[root][i])
  }

  lemma {:induction false} SameBelow(w0: Words, root: nat, x: set<nat>, w: Words, t: nat, a: Key, l: nat)
    requires Fixed(w0, root, x, w) && l < 3 && Avoids(w0, t, l, x + {root}) && t !in x && t != root
    ensures Translate(w, t, a, l) == Translate(w0, t, a, l)
    decreases l
  {
    if t in w0 && Index(a, l) < |w0[t]| {
      var e := Decode(w0[t][Index(a, l)]);
      if e.To? && l > 0 && !Large(e.flags) {
        assert Leads(w0, t, l, Index(a, l));
        SameBelow(w0, root, x, w, e.phys, a, l - 1);
      }
    }
  }

  /** Pages outside the window are translated as before. */
  lemma SameOutside(w0: Words, root: nat, x: set<nat>, w: Words, a: Key)
    requires Fixed(w0, root, x, w) && Avoids(w0, root, 3, x + {root}) && !InWindow(a.i3)
    ensures Translate(w, root, a, 3) == Translate(w0, root, a, 3)
  {
    if a.i3 < |w0[root]| {
      var e := Decode(w0[root][a.i3]);
      if e.To? && !Large(e.flags) {
        assert Leads(w0, root, 3, a.i3);
        SameBelow(w0, root, x, w, e.phys, a, 2);
      }
    }
  }

  // ---------------------------------------------------------------- the window as a tree

  /** k is what hangs from the window's slots of the root. */
  ghost predicate Shows(words: Words, k: Tables)
  {
    && k.rest == map[]
    && (forall t :: t in k.mem ==> t in words && |words[t]| == |k.mem[t]|)
    && (forall t, i: nat {:trigger words[t][i]} :: t in k.up && t in k.mem && i < |k.mem[t]| ==>
          k.mem[t][i] == Decode(words[t][i]))
    && RootShows(words, k)
  }

  ghost predicate RootShows(words: Words, k: Tables)
  {
    && k.root in k.mem && k.root in words && |words[k.root]| == |k.mem[k.root]|
    && forall i: nat {:trigger k.mem[k.root][i]} :: i < |k.mem[k.root]| ==>
         k.mem[k.root][i] == (if InWindow(i) then Decode(words[k.root][i]) else Absent)
  }

  /** Tables are entered as present and writable, pages as present only. */
  ghost predicate Protected(k: Tables)
  {
    forall t, i: nat {:trigger Linked(k, t, i)} :: Linked(k, t, i) ==>
      k.mem[t][i].flags == if Level(k, t) > 0 then 3 else 1
  }

  lemma ShowsEntry(words: Words, k: Tables, t: nat, i: nat)
    requires Shows(words, k) && Sized(k) && t in k.mem && i < SLOTS && (t == k.root ==> InWindow(i))
    ensures t in words && i < |words[t]| && k.mem[t][i] == Decode(words[t][i]) && !Closed(k, t, i)
  {
    assert t == k.root ==> k.mem[k.root][i] == Decode(words[k.root][i]);
  }

  /** A page of the window: present, and neither to be written nor used by user code. */
  function ReadOnly(e: Pte): Target
    requires !e.Other?
  {
    if e.To? then Page(e.phys, 1, 0, Access(false, false, true)) else Fault
  }

  lemma WindowRights()
    ensures AccessOf(3) == Access(true, false, true) && AccessOf(1) == Access(false, false, true)
    ensures !Large(3) && !Large(1)
  {
  }

  /** One step of a translation that starts in the tree. */
  lemma StepInside(words: Words, k: Tables, t: nat, a: Key, l: nat)
    requires Sized(k) && Shows(words, k) && Protected(k) && t in k.mem && l == Level(k, t) && Index(a, l) < SLOTS
    requires t == k.root ==> InWindow(Index(a, l))
    ensures var e := k.mem[t][Index(a, l)];
      && !e.Other?
      && (Translate(words, t, a, l)
            == if !e.To? then Fault
               else if l == 0 then ReadOnly(e)
               else Narrow(Translate(words, e.phys, a, l - 1), Access(true, false, true)))
  {
    var i := Index(a, l);
    ShowsEntry(words, k, t, i);
    WindowRights();
    assert k.mem[t][i].To? ==> Linked(k, t, i);
  }

  lemma {:induction false} WalkInside(words: Words, k: Tables, a: Key, l: nat)
    requires Tree(k) && Shows(words, k) && Protected(k) && KeyOk(a) && InWindow(a.i3) && l <= 3 && On(k, a, l)
    ensures !Lookup(k, a).Other? && Translate(words, Tab(k, a, l), a, l) == ReadOnly(Lookup(k, a))
    decreases l
  {
    var t, i := Tab(k, a, l), Index(a, l);
    TabLevel(k, a, l);
    StepInside(words, k, t, a, l);
    ShowsEntry(words, k, t, i);
    if l > 0 && Linked(k, t, i) {
      WalkInside(words, k, a, l - 1);
    } else {
      EndsLookup(k, a, l);
    }
  }

  /** Pages of the window are translated to the frames that the tree maps them to. */
  lemma SameInside(words: Words, k: Tables, a: Key)
    requires Tree(k) && Shows(words, k) && Protected(k) && KeyOk(a) && InWindow(a.i3)
    ensures !Lookup(k, a).Other? && Translate(words, k.root, a, 3) == ReadOnly(Lookup(k, a))
  {
    WalkInside(words, k, a, 3);
  }

  // ---------------------------------------------------------------- building the window

  lemma {:induction false} AvoidsFewer(words: Words, t: nat, l: nat, x: set<nat>, y: set<nat>)
    requires Avoids(words, t, l, x) && y <= x
    ensures Avoids(words, t, l, y)
    decreases l
  {
    forall i: nat | Leads(words, t, l, i) && (l == 3 ==> !InWindow(i))
      ensures var p := Decode(words[t][i]).phys; p !in y && Avoids(words, p, l - 1, y)
    {
      AvoidsFewer(words, Decode(words[t][i]).phys, l - 1, x, y);
    }
  }

  /** The window k is built in the tables w0 with pages from the allocator. */
  ghost predicate Built(w0: Words, w: Words, k: Tables, m: Pages)
  {
    Tree(k) && Shows(w, k) && Protected(k) && Kept(w0, w, k.root, k.up.Keys, m)
  }

  /** Apart from the window's slots, the tables w0 are as they were; the tables x of the window came
      from the allocator, and neither they nor the free pages are met outside the window. */
  ghost predicate Kept(w0: Words, w: Words, root: nat, x: set<nat>, m: Pages)
  {
    && Fixed(w0, root, x, w) && x !! w0.Keys
    && (forall t :: t in w ==> t !in m.pool)
    && Avoids(w0, root, 3, m.pool + x + {root})
  }

  lemma BuiltTaken(w0: Words, w: Words, k: Tables, m: Pages, c: nat, m': Pages, zeros: seq<nat>,
                   t: nat, row: seq<nat>, i: nat, word: nat, w': Words, k': Tables)
    requires Built(w0, w, k, m) && PagesOk(m) && PagesOk(m') && Taken(m, c, m')
    requires t in k.mem && i < SLOTS && (t == k.root ==> InWindow(i)) && Attached(k, t, i, To(c, 3), k')
    requires |zeros| == SLOTS && forall j: nat :: j < SLOTS ==> zeros[j] == 0
    requires Decode(word) == To(c, 3) && t in w && i < |w[t]| && row == w[t][i := word]
    requires w' == w[c := zeros][t := row] && k' == Attach(k, t, i, To(c, 3))
    ensures Built(w0, w', k', m')
  {
    assert c !in w;
    AttachTree(k, t, i, To(c, 3), k');
    AttachShows(w, k, t, i, c, zeros, row, word);
    AttachProtected(k, t, i, c, k');
    AttachedKeys(k, t, i, c, k');
    KeptTaken(w0, w, k.root, k.up.Keys, m, c, m', zeros, t, row, i, word, w');
  }

  lemma KeptTaken(w0: Words, w: Words, root: nat, x: set<nat>, m: Pages, c: nat, m': Pages, zeros: seq<nat>,
                  t: nat, row: seq<nat>, i: nat, word: nat, w': Words)
    requires Kept(w0, w, root, x, m) && PagesOk(m') && Taken(m, c, m')
    requires t in w && i < |w[t]| && row == w[t][i := word] && (t in x || (t == root && InWindow(i)))
    requires w' == w[c := zeros][t := row]
    ensures Kept(w0, w', root, x + {c}, m')
  {
    assert c !in w;
    AttachFixed(w0, root, x, w, t, i, c, zeros, row, word);
    TakenApart(w, m, c, m', w');
    TakenAvoids(w0, root, m, x, c, m');
  }

  lemma AttachedKeys(k: Tables, t: nat, i: nat, c: nat, k': Tables)
    requires Attached(k, t, i, To(c, 3), k') && Sized(k)
    ensures k'.up.Keys == k.up.Keys + {c} && (t != k.root ==> t in k.up)
  {
  }

  lemma TakenApart(w: Words, m: Pages, c: nat, m': Pages, w': Words)
    requires PagesOk(m') && Taken(m, c, m') && (forall x :: x in w ==> x !in m.pool) && w'.Keys == w.Keys + {c}
    ensures forall x :: x in w' ==> x !in m'.pool
  {
    forall x | x in m'.pool ensures x in m.pool && x != c { assert x in m'.pool + m'.lost; }
  }

  lemma TakenAvoids(w0: Words, root: nat, m: Pages, x: set<nat>, c: nat, m': Pages)
    requires PagesOk(m') && Taken(m, c, m') && Avoids(w0, root, 3, m.pool + x + {root})
    ensures Avoids(w0, root, 3, m'.pool + (x + {c}) + {root})
  {
    forall y | y in m'.pool ensures y in m.pool { assert y in m'.pool + m'.lost; }
    AvoidsFewer(w0, root, 3, m.pool + x + {root}, m'.pool + (x + {c}) + {root});
  }

  lemma AttachShows(w: Words, k: Tables, t: nat, i: nat, c: nat, zeros: seq<nat>, row: seq<nat>, word: nat)
    requires Shows(w, k) && Sized(k) && t in k.mem && i < SLOTS && (t == k.root ==> InWindow(i)) && c !in w
    requires |zeros| == SLOTS && forall j: nat :: j < SLOTS ==> zeros[j] == 0
    requires Decode(word) == To(c, 3) && row == w[t][i := word]
    ensures Shows(w[c := zeros][t := row], Attach(k, t, i, To(c, 3)))
  {
    var k', w' := Attach(k, t, i, To(c, 3)), w[c := zeros][t := row];
    assert c !in k.mem;
    forall x, j: nat | x in k'.up && x in k'.mem && j < |k'.mem[x]| ensures k'.mem[x][j] == Decode(w'[x][j]) {
      assert x != c ==> k.mem[x][j] == Decode(w[x][j]);
    }
    forall j: nat | j < SLOTS ensures k'.mem[k.root][j] == if InWindow(j) then Decode(w'[k.root][j]) else Absent {
      assert k.mem[k.root][j] == (if InWindow(j) then Decode(w[k.root][j]) else Absent);
    }
  }

  lemma AttachProtected(k: Tables, t: nat, i: nat, c: nat, k': Tables)
    requires Sized(k) && Protected(k) && Attached(k, t, i, To(c, 3), k')
    ensures Protected(k')
  {
    forall x, j: nat | Linked(k', x, j) ensures k'.mem[x][j].flags == if Level(k', x) > 0 then 3 else 1 {
      assert Linked(k, x, j) || (x == t && j == i);
    }
  }

  lemma AttachFixed(w0: Words, root: nat, x: set<nat>, w: Words, t: nat, i: nat, c: nat, zeros: seq<nat>,
                    row: seq<nat>, word: nat)
    requires Fixed(w0, root, x, w) && c !in w && t in w && i < |w[t]| && row == w[t][i := word]
    requires t in x || (t == root && InWindow(i))
    requires x !! w0.Keys
    ensures Fixed(w0, root, x + {c}, w[c := zeros][t := row])
  {
  }

  lemma BuiltSet(w0: Words, w: Words, k: Tables, m: Pages, t: nat, i: nat, p: nat, row: seq<nat>, word: nat)
    requires Built(w0, w, k, m) && t in k.mem && Level(k, t) == 0 && i < SLOTS
    requires Decode(word) == To(p, 1) && row == w[t][i := word]
    ensures Built(w0, w[t := row], SetEntry(k, t, i, To(p, 1)), m)
  {
    assert t in k.up;
    ShowsEntry(w, k, t, i);
    SetTree(k, t, i, To(p, 1));
    SetShows(w, k, t, i, p, row, word);
    SetProtected(k, t, i, p);
    SetFixed(w0, k.root, k.up.Keys, w, t, row);
  }

  lemma SetShows(w: Words, k: Tables, t: nat, i: nat, p: nat, row: seq<nat>, word: nat)
    requires Shows(w, k) && Sized(k) && t in k.up && i < SLOTS && Decode(word) == To(p, 1) && row == w[t][i := word]
    ensures Shows(w[t := row], SetEntry(k, t, i, To(p, 1)))
  {
    var k', w' := SetEntry(k, t, i, To(p, 1)), w[t := row];
    forall x, j: nat | x in k'.up && x in k'.mem && j < |k'.mem[x]| ensures k'.mem[x][j] == Decode(w'[x][j]) {
      assert k.mem[x][j] == Decode(w[x][j]);
    }
    forall j: nat | j < SLOTS ensures k'.mem[k.root][j] == if InWindow(j) then Decode(w'[k.root][j]) else Absent {
      assert k.mem[k.root][j] == (if InWindow(j) then Decode(w[k.root][j]) else Absent);
    }
  }

  lemma SetProtected(k: Tables, t: nat, i: nat, p: nat)
    requires Sized(k) && Protected(k) && t in k.mem && Level(k, t) == 0 && i < SLOTS
    ensures Protected(SetEntry(k, t, i, To(p, 1)))
  {
    var k' := SetEntry(k, t, i, To(p, 1));
    forall x, j: nat | Linked(k', x, j) ensures k'.mem[x][j].flags == if Level(k', x) > 0 then 3 else 1 {
      assert Linked(k, x, j) || (x == t && j == i);
    }
  }

  lemma SetFixed(w0: Words, root: nat, x: set<nat>, w: Words, t: nat, row: seq<nat>)
    requires Fixed(w0, root, x, w) && t in x && x !! w0.Keys
    ensures Fixed(w0, root, x, w[t := row])
  {
  }
}
