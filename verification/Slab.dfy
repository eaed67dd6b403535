/** The slab allocator of kernel/slab.c: page-sized slabs of equal objects on three lists. */
module Slab {
  import opened Bits
  import opened Seqs

  const HEADER: nat := 56           // sizeof(slab_t)
  const FREE_LIST_OFFSET: nat := 40 // of slab_t.free_list
  const NODE_SIZE: nat := 16        // sizeof(slab_obj_t)

  /** The fields of a slab's header, in order: a list node, two pointers, a counter and the head of
      the free list, which ends the header; a node is two pointers of 8 bytes. */
  lemma Layout()
    ensures NODE_SIZE == 2 * 8 && FREE_LIST_OFFSET == NODE_SIZE + 8 + 8 + 8 && HEADER == FREE_LIST_OFFSET + NODE_SIZE
  {
  }

  /** A slab's header: how many objects are in use, and the free objects by address. */
  datatype Header = Header(inuse: int, freeList: seq<nat>)

  /** The number of free objects in the slabs of a list. */
  ghost function FreeIn(list: seq<nat>, slabs: map<nat, Header>): nat
  {
    if list == [] then 0
    else (if list[0] in slabs then |slabs[list[0]].freeList| else 0) + FreeIn(list[1..], slabs)
  }

  lemma {:induction false} FreeInRemoved(list: seq<nat>, slabs: map<nat, Header>, p: nat)
    requires p in slabs
    ensures FreeIn(Remove(list, p), slabs) == FreeIn(list, slabs) - (if p in list then |slabs[p].freeList| else 0)
  {
    if list != [] && list[0] != p { FreeInRemoved(list[1..], slabs, p); }
  }

  lemma {:induction false} FreeInOther(list: seq<nat>, slabs: map<nat, Header>, p: nat, h: Header)
    requires p !in list
    ensures FreeIn(list, slabs[p := h]) == FreeIn(list, slabs)
  {
    if list != [] { FreeInOther(list[1..], slabs, p, h); }
  }

  // ---------------------------------------------------------------- the objects of a page

  /** The k-th object of the slab at a page. */
  function ObjectAt(page: nat, size: nat, k: nat): nat
  {
    page + HEADER + size * k
  }

  function PerSlab(size: nat): nat
    requires size > 0
  {
    (PAGE - HEADER) / size
  }

  ghost predicate IsObject(page: nat, size: nat, x: nat)
    requires size > 0
  {
    exists k: nat :: k < PerSlab(size) && x == ObjectAt(page, size, k)
  }

  /** An object lies in its page behind the header, and masking its address gives the page. */
  lemma ObjectInPage(page: nat, size: nat, x: nat)
    requires size > 0 && page % PAGE == 0 && IsObject(page, size, x)
    ensures page + HEADER <= x && x + size <= page + PAGE
    ensures x - x % PAGE == page
  {
    var k: nat :| k < PerSlab(size) && x == ObjectAt(page, size, k);
    MulGrowsTo(size, k, PerSlab(size));
    assert size * PerSlab(size) <= PAGE - HEADER;
  }

  lemma MulGrowsTo(m: nat, j: nat, k: nat)
    requires j < k
    ensures m * j + m <= m * k
  {
    MulGrows(m, j, k);
  }

  /** Distinct objects do not overlap. */
  lemma ObjectsDisjoint(page: nat, page': nat, size: nat, x: nat, y: nat)
    requires size > 0 && page % PAGE == 0 && page' % PAGE == 0
    requires IsObject(page, size, x) && IsObject(page', size, y) && x < y
    ensures x + size <= y
  {
    ObjectInPage(page, size, x);
    ObjectInPage(page', size, y);
    if page == page' {
      var j: nat :| j < PerSlab(size) && x == ObjectAt(page, size, j);
      var k: nat :| k < PerSlab(size) && y == ObjectAt(page, size, k);
      if j < k {
        MulGrowsTo(size, j, k);
      } else if k < j {
        MulGrowsTo(size, k, j);
      }
    }
  }

  /** The objects a new slab starts with. */
  function AllObjects(page: nat, size: nat, n: nat): seq<nat>
  {
    if n == 0 then [] else AllObjects(page, size, n - 1) + [ObjectAt(page, size, n - 1)]
  }

  lemma {:induction false} AllObjectsFacts(page: nat, size: nat, n: nat)
    requires size > 0 && n <= PerSlab(size)
    ensures |AllObjects(page, size, n)| == n && Distinct(AllObjects(page, size, n))
    ensures forall i: nat :: i < n ==> AllObjects(page, size, n)[i] == ObjectAt(page, size, i)
    ensures forall x: nat :: x in AllObjects(page, size, n) ==> IsObject(page, size, x)
  {
    if n > 0 {
      AllObjectsFacts(page, size, n - 1);
      forall i: nat | i < n - 1 ensures ObjectAt(page, size, i) < ObjectAt(page, size, n - 1) {
        MulGrowsTo(size, i, n - 1);
      }
    }
  }

  // ---------------------------------------------------------------- the cache as a value

  /** A cache: its object size, the slabs on its three lists, their headers, the counters. */
  datatype Cache = Cache(size: nat, full: seq<nat>, partial: seq<nat>, free: seq<nat>,
                         slabs: map<nat, Header>, total: nat, freeObjects: int)

  /** Every slab is on exactly one of the lists, once. */
  ghost predicate ListsOk(c: Cache)
  {
    && Distinct(c.full) && Distinct(c.partial) && Distinct(c.free)
    && (forall p: nat {:trigger p in c.slabs} :: p in c.slabs <==> p in c.full || p in c.partial || p in c.free)
    && (forall p: nat {:trigger p in c.full}{:trigger p in c.partial}{:trigger p in c.free} ::
          !(p in c.full && p in c.partial) && !(p in c.full && p in c.free) && !(p in c.partial && p in c.free))
  }

  ghost predicate HeaderOk(p: nat, h: Header, size: nat)
    requires size > 0
  {
    && p % PAGE == 0 && p > 0
    && Distinct(h.freeList) && (forall x: nat :: x in h.freeList ==> IsObject(p, size, x))
    && h.inuse + |h.freeList| == PerSlab(size)
  }

  ghost predicate HeadersOk(c: Cache)
    requires c.size > 0
  {
    forall p: nat {:trigger p in c.slabs} :: p in c.slabs ==> HeaderOk(p, c.slabs[p], c.size)
  }

  /** Slabs on the partial and free lists have a free object; on the free list no object is used. */
  ghost predicate ListsHonest(c: Cache)
  {
    && (forall p: nat {:trigger p in c.partial} :: p in c.partial && p in c.slabs ==> c.slabs[p].freeList != [])
    && (forall p: nat {:trigger p in c.free} :: p in c.free && p in c.slabs ==>
          c.slabs[p].freeList != [] && c.slabs[p].inuse == 0)
  }

  ghost predicate TotalOk(c: Cache)
    requires c.size > 0
  {
    c.total == PerSlab(c.size) * (|c.full| + |c.partial| + |c.free|)
  }

  ghost predicate FreeCountOk(c: Cache)
  {
    c.freeObjects == FreeIn(c.full, c.slabs) + FreeIn(c.partial, c.slabs) + FreeIn(c.free, c.slabs)
  }

  /** What holds of a cache whose slabs have room for at least two objects, and whose objects have
      room for the list node of a free object. */
  ghost predicate CacheInv(c: Cache)
  {
    && NODE_SIZE <= c.size && PerSlab(c.size) >= 2
    && ListsOk(c) && HeadersOk(c) && ListsHonest(c) && TotalOk(c) && FreeCountOk(c)
  }

  function Page(x: nat): nat
  {
    x - x % PAGE
  }

  /** The object at x is handed out. */
  ghost predicate Live(c: Cache, x: nat)
    requires c.size > 0
  {
    Page(x) in c.slabs && IsObject(Page(x), c.size, x) && x !in c.slabs[Page(x)].freeList
  }

  // ---------------------------------------------------------------- the operations

  /** What the first entry of a slab's free list is read as; of an empty list, the list head. */
  function FirstFree(p: nat, h: Header): nat
  {
    if h.freeList == [] then p + FREE_LIST_OFFSET else h.freeList[0]
  }

  /** Take the first free object of a slab. */
  function TakeFirst(c: Cache, p: nat): Cache
    requires p in c.slabs
  {
    var h := c.slabs[p];
    c.(slabs := c.slabs[p := Header(h.inuse + 1, if h.freeList == [] then [] else h.freeList[1..])],
       freeObjects := c.freeObjects - 1)
  }

  /** Add a new slab at a page, on no list yet. */
  function NewSlab(c: Cache, page: nat): Cache
    requires c.size > 0
  {
    var n := PerSlab(c.size);
    c.(slabs := c.slabs[page := Header(0, AllObjects(page, c.size, n))],
       total := c.total + n, freeObjects := c.freeObjects + n)
  }

  /** Allocate an object; `page` is what the page allocator answers if asked, 0 for nothing. */
  function Alloc(c: Cache, page: nat): (Cache, nat)
    requires c.size > 0 && (c.partial != [] ==> c.partial[0] in c.slabs) && (c.free != [] ==> c.free[0] in c.slabs)
  {
    if c.partial != [] then
      var p := c.partial[0];
      var c' := TakeFirst(c, p);
      (if c'.slabs[p].freeList == [] then c'.(partial := c.partial[1..], full := [p] + c.full) else c',
       FirstFree(p, c.slabs[p]))
    else if c.free != [] then
      var p := c.free[0];
      (TakeFirst(c, p).(free := c.free[1..], partial := [p]), FirstFree(p, c.slabs[p]))
    else if page == 0 then (c, 0)
    else
      var c' := NewSlab(c, page);
      (TakeFirst(c', page).(partial := [page]), FirstFree(page, c'.slabs[page]))
  }

  /** slab_free looks whether the slab is next to the head of the full list on either side. */
  predicate SeenFull(c: Cache, p: nat)
  {
    c.full != [] && (c.full[0] == p || c.full[|c.full| - 1] == p)
  }

  function Drop(c: Cache, p: nat): Cache
  {
    c.(full := Remove(c.full, p), partial := Remove(c.partial, p), free := Remove(c.free, p))
  }

  function Free(c: Cache, x: nat): Cache
  {
    var p := Page(x);
    if p !in c.slabs then c
    else
      var h := Header(c.slabs[p].inuse - 1, [x] + c.slabs[p].freeList);
      var c' := c.(slabs := c.slabs[p := h], freeObjects := c.freeObjects + 1);
      if SeenFull(c, p) then c'.(full := Remove(c.full, p), partial := [p] + c.partial)
      else if h.inuse == 0 then Drop(c', p).(free := [p] + Remove(c.free, p))
      else c'
  }

  // ---------------------------------------------------------------- allocating keeps the invariant

  lemma TakeFirstOk(c: Cache, p: nat)
    requires c.size > 0 && p in c.slabs && HeadersOk(c) && c.slabs[p].freeList != []
    ensures HeadersOk(TakeFirst(c, p))
    ensures FirstFree(p, c.slabs[p]) in c.slabs[p].freeList && IsObject(p, c.size, FirstFree(p, c.slabs[p]))
    ensures forall x: nat :: x in TakeFirst(c, p).slabs[p].freeList <==>
              x in c.slabs[p].freeList && x != FirstFree(p, c.slabs[p])
  {
    var l := c.slabs[p].freeList;
    assert l == [l[0]] + l[1..];
    assert HeaderOk(p, c.slabs[p], c.size);
    assert forall x: nat :: x in l[1..] ==> x in l;
  }

  /** Exactly the object x changed hands, from free to live. */
  ghost predicate HandedOut(c: Cache, c': Cache, x: nat)
  {
    && c.size > 0 && c'.size == c.size
    && !Live(c, x) && forall y: nat :: Live(c', y) <==> Live(c, y) || y == x
  }

  lemma TakeFirstLive(c: Cache, p: nat)
    requires c.size > 0 && p in c.slabs && HeadersOk(c) && c.slabs[p].freeList != []
    ensures HandedOut(c, TakeFirst(c, p), FirstFree(p, c.slabs[p]))
  {
    TakeFirstOk(c, p);
    var x := FirstFree(p, c.slabs[p]);
    assert HeaderOk(p, c.slabs[p], c.size);
    ObjectInPage(p, c.size, x);
  }

  lemma AllocPartialCount(c: Cache, page: nat)
    requires CacheInv(c) && c.partial != [] && c.partial[0] in c.slabs
    ensures FreeCountOk(Alloc(c, page).0)
  {
    var p := c.partial[0];
    assert p in c.partial;
    var h := TakeFirst(c, p).slabs[p];
    FreeInOther(c.full, c.slabs, p, h);
    FreeInOther(c.free, c.slabs, p, h);
    FreeInOther(c.partial[1..], c.slabs, p, h);
    assert ([p] + c.full)[1..] == c.full;
  }

  lemma AllocPartialTotal(c: Cache, page: nat)
    requires CacheInv(c) && c.partial != [] && c.partial[0] in c.slabs
    ensures TotalOk(Alloc(c, page).0)
  {
    var c' := Alloc(c, page).0;
    assert |c'.full| + |c'.partial| + |c'.free| == |c.full| + |c.partial| + |c.free|;
  }

  lemma AllocPartialLists(c: Cache, page: nat)
    requires CacheInv(c) && c.partial != [] && c.partial[0] in c.slabs
    ensures var c' := Alloc(c, page).0; ListsOk(c') && ListsHonest(c')
  {
    MovedToFull(c);
    assert Alloc(c, page).0.slabs.Keys == c.slabs.Keys;
  }

  /** Moving the first partial slab to the full list. */
  lemma MovedToFull(c: Cache)
    requires ListsOk(c) && c.partial != []
    ensures ListsOk(c.(partial := c.partial[1..], full := [c.partial[0]] + c.full))
    ensures forall q: nat :: q in c.partial[1..] ==> q in c.partial && q != c.partial[0]
  {
    var p := c.partial[0];
    assert p in c.partial && p !in c.full && p !in c.free;
    TailFacts(c.partial);
    PrependFacts(p, c.full);
  }

  lemma AllocPartial(c: Cache, page: nat)
    requires CacheInv(c) && c.partial != [] && c.partial[0] in c.slabs
    ensures var (c', x) := Alloc(c, page); CacheInv(c') && HandedOut(c, c', x)
  {
    var p := c.partial[0];
    assert p in c.partial;
    TakeFirstOk(c, p);
    TakeFirstLive(c, p);
    AllocPartialLists(c, page);
    AllocPartialTotal(c, page);
    AllocPartialCount(c, page);
  }

  lemma AllocFreeLists(c: Cache, page: nat)
    requires CacheInv(c) && c.partial == [] && c.free != [] && c.free[0] in c.slabs
    ensures var c' := Alloc(c, page).0; ListsOk(c') && ListsHonest(c') && TotalOk(c') && FreeCountOk(c')
  {
    var p := c.free[0];
    assert p in c.free && p !in c.full;
    TailFacts(c.free);
    var h := TakeFirst(c, p).slabs[p];
    FreeInOther(c.full, c.slabs, p, h);
    FreeInOther(c.free[1..], c.slabs, p, h);
    var c' := Alloc(c, page).0;
    assert HeaderOk(p, c.slabs[p], c.size);
    assert c'.slabs.Keys == c.slabs.Keys;
    assert ListsOk(c');
  }

  lemma AllocFree(c: Cache, page: nat)
    requires CacheInv(c) && c.partial == [] && c.free != [] && c.free[0] in c.slabs
    ensures var (c', x) := Alloc(c, page); CacheInv(c') && HandedOut(c, c', x)
  {
    assert c.free[0] in c.free;
    TakeFirstOk(c, c.free[0]);
    TakeFirstLive(c, c.free[0]);
    AllocFreeLists(c, page);
  }

  lemma NewSlabHeaders(c: Cache, page: nat)
    requires CacheInv(c) && page > 0 && page % PAGE == 0 && page !in c.slabs
    ensures HeadersOk(NewSlab(c, page)) && |NewSlab(c, page).slabs[page].freeList| == PerSlab(c.size)
  {
    var n := NewSlab(c, page);
    AllObjectsFacts(page, c.size, PerSlab(c.size));
    assert HeaderOk(page, n.slabs[page], c.size);
  }

  lemma AllocNewLists(c: Cache, page: nat)
    requires CacheInv(c) && c.partial == [] && c.free == []
    requires page > 0 && page % PAGE == 0 && page !in c.slabs
    ensures var c' := Alloc(c, page).0; ListsOk(c') && ListsHonest(c') && TotalOk(c') && FreeCountOk(c')
  {
    var n := NewSlab(c, page);
    NewSlabHeaders(c, page);
    assert page !in c.full;
    FreeInOther(c.full, c.slabs, page, n.slabs[page]);
    FreeInOther(c.full, n.slabs, page, TakeFirst(n, page).slabs[page]);
    var c' := Alloc(c, page).0;
    assert c'.slabs.Keys == c.slabs.Keys + {page};
    assert ListsOk(c');
    MulNext(PerSlab(c.size), |c.full|);
  }

  lemma AllocNew(c: Cache, page: nat)
    requires CacheInv(c) && c.partial == [] && c.free == []
    requires page > 0 && page % PAGE == 0 && page !in c.slabs
    ensures var (c', x) := Alloc(c, page); CacheInv(c') && HandedOut(c, c', x)
  {
    NewSlabHeaders(c, page);
    NewSlabLive(c, page);
    TakeFirstOk(NewSlab(c, page), page);
    TakeFirstLive(NewSlab(c, page), page);
    AllocNewLists(c, page);
  }

  lemma NewSlabLive(c: Cache, page: nat)
    requires c.size > 0 && page % PAGE == 0 && page !in c.slabs
    ensures forall y: nat :: Live(NewSlab(c, page), y) <==> Live(c, y)
  {
    AllObjectsFacts(page, c.size, PerSlab(c.size));
    forall y: nat | IsObject(page, c.size, y) ensures y in NewSlab(c, page).slabs[page].freeList {
      var k: nat :| k < PerSlab(c.size) && y == ObjectAt(page, c.size, k);
      assert AllObjects(page, c.size, PerSlab(c.size))[k] == y;
    }
  }

  /** Every allocation keeps the invariant and hands out one object that was free, or none if
      all slabs are full and there is no page. */
  lemma AllocTheorem(c: Cache, page: nat)
    requires CacheInv(c) && page % PAGE == 0 && page !in c.slabs
    ensures (c.partial != [] ==> c.partial[0] in c.slabs) && (c.free != [] ==> c.free[0] in c.slabs)
    ensures var (c', x) := Alloc(c, page);
      && CacheInv(c')
      && if c.partial == [] && c.free == [] && page == 0 then c' == c && x == 0 else HandedOut(c, c', x)
  {
    if c.partial != [] {
      assert c.partial[0] in c.partial;
      AllocPartial(c, page);
    } else if c.free != [] {
      assert c.free[0] in c.free;
      AllocFree(c, page);
    } else if page != 0 {
      AllocNew(c, page);
    }
  }

  // ---------------------------------------------------------------- freeing keeps the invariant

  /** The header after x was freed. */
  function Freed(c: Cache, x: nat): Header
    requires Page(x) in c.slabs
  {
    var h := c.slabs[Page(x)];
    Header(h.inuse - 1, [x] + h.freeList)
  }

  lemma FreedHeader(c: Cache, x: nat)
    requires CacheInv(c) && Live(c, x)
    ensures HeaderOk(Page(x), Freed(c, x), c.size)
  {
    assert HeaderOk(Page(x), c.slabs[Page(x)], c.size);
    PrependFacts(x, c.slabs[Page(x)].freeList);
  }

  lemma FreeLive(c: Cache, x: nat)
    requires CacheInv(c) && Live(c, x)
    ensures HeadersOk(Free(c, x)) && HandedOut(Free(c, x), c, x)
  {
    FreedHeader(c, x);
    var c', p := Free(c, x), Page(x);
    assert c'.slabs == c.slabs[p := Freed(c, x)];
    assert forall y: nat :: y in c'.slabs[p].freeList <==> y in c.slabs[p].freeList || y == x;
  }

  /** The three ways a free can leave the lists. */
  lemma FreeSeenFull(c: Cache, x: nat)
    requires CacheInv(c) && Live(c, x) && SeenFull(c, Page(x))
    ensures var c' := Free(c, x); ListsOk(c') && ListsHonest(c') && TotalOk(c') && FreeCountOk(c')
  {
    var c', p := Free(c, x), Page(x);
    assert p in c.full && p !in c.partial && p !in c.free;
    RemoveFacts(c.full, p);
    PrependFacts(p, c.partial);
    assert c'.slabs.Keys == c.slabs.Keys;
    assert ListsOk(c');
    FreeInRemoved(c.full, c.slabs, p);
    FreeInOther(c'.full, c.slabs, p, Freed(c, x));
    FreeInOther(c.partial, c.slabs, p, Freed(c, x));
    FreeInOther(c.free, c.slabs, p, Freed(c, x));
    assert ([p] + c.partial)[1..] == c.partial;
  }

  lemma FreeEmptied(c: Cache, x: nat)
    requires CacheInv(c) && Live(c, x) && !SeenFull(c, Page(x)) && c.slabs[Page(x)].inuse == 1
    ensures var c' := Free(c, x); ListsOk(c') && ListsHonest(c')
  {
    var p := Page(x);
    assert p in c.slabs && HeaderOk(p, c.slabs[p], c.size);
    MovedToFree(c, p);
    assert Free(c, x).slabs.Keys == c.slabs.Keys;
  }

  lemma FreeEmptiedTotal(c: Cache, x: nat)
    requires CacheInv(c) && Live(c, x) && !SeenFull(c, Page(x)) && c.slabs[Page(x)].inuse == 1
    ensures TotalOk(Free(c, x))
  {
    var p := Page(x);
    assert p in c.slabs;
    RemoveFacts(c.full, p);
    RemoveFacts(c.partial, p);
    RemoveFacts(c.free, p);
  }

  /** Taking a slab off whatever list it is on and putting it on the free list. */
  lemma MovedToFree(c: Cache, p: nat)
    requires ListsOk(c) && p in c.slabs
    ensures ListsOk(Drop(c, p).(free := [p] + Remove(c.free, p)))
    ensures forall q: nat :: q in Remove(c.partial, p) ==> q in c.partial && q != p
    ensures forall q: nat :: q in [p] + Remove(c.free, p) ==> q in c.free || q == p
  {
    RemoveFacts(c.full, p);
    RemoveFacts(c.partial, p);
    RemoveFacts(c.free, p);
    PrependFacts(p, Remove(c.free, p));
  }

  lemma FreeEmptiedCount(c: Cache, x: nat)
    requires CacheInv(c) && Live(c, x) && !SeenFull(c, Page(x)) && c.slabs[Page(x)].inuse == 1
    ensures FreeCountOk(Free(c, x))
  {
    var c', p, h := Free(c, x), Page(x), Freed(c, x);
    RemoveFacts(c.full, p);
    RemoveFacts(c.partial, p);
    RemoveFacts(c.free, p);
    FreeInRemoved(c.full, c.slabs, p);
    FreeInRemoved(c.partial, c.slabs, p);
    FreeInRemoved(c.free, c.slabs, p);
    FreeInOther(Remove(c.full, p), c.slabs, p, h);
    FreeInOther(Remove(c.partial, p), c.slabs, p, h);
    FreeInOther(Remove(c.free, p), c.slabs, p, h);
    assert ([p] + Remove(c.free, p))[1..] == Remove(c.free, p);
  }

  lemma {:induction false} FreeInUpdate(list: seq<nat>, slabs: map<nat, Header>, p: nat, h: Header)
    requires Distinct(list) && p in slabs
    ensures FreeIn(list, slabs[p := h]) ==
            FreeIn(list, slabs) + (if p in list then |h.freeList| - |slabs[p].freeList| else 0)
  {
    if list != [] {
      TailFacts(list);
      FreeInUpdate(list[1..], slabs, p, h);
    }
  }

  lemma FreeStays(c: Cache, x: nat)
    requires CacheInv(c) && Live(c, x) && !SeenFull(c, Page(x)) && c.slabs[Page(x)].inuse != 1
    ensures var c' := Free(c, x); ListsOk(c') && ListsHonest(c') && TotalOk(c') && FreeCountOk(c')
  {
    var c', p := Free(c, x), Page(x);
    assert p in c.slabs && c'.slabs.Keys == c.slabs.Keys;
    LiveCount(c, p);
    assert p !in c.free;
    FreeInUpdate(c.full, c.slabs, p, Freed(c, x));
    FreeInUpdate(c.partial, c.slabs, p, Freed(c, x));
    FreeInUpdate(c.free, c.slabs, p, Freed(c, x));
  }

  // ---------------------------------------------------------------- in use means live

  ghost function Objects(page: nat, size: nat, n: nat): set<nat>
  {
    if n == 0 then {} else Objects(page, size, n - 1) + {ObjectAt(page, size, n - 1)}
  }

  lemma {:induction false} ObjectsAre(page: nat, size: nat, n: nat)
    ensures forall x: nat :: x in Objects(page, size, n) <==> exists k: nat :: k < n && x == ObjectAt(page, size, k)
  {
    if n > 0 { ObjectsAre(page, size, n - 1); }
  }

  lemma {:induction false} ObjectsCount(page: nat, size: nat, n: nat)
    requires size > 0
    ensures |Objects(page, size, n)| == n
  {
    if n > 0 {
      var m: nat := n - 1;
      ObjectsCount(page, size, m);
      ObjectsAre(page, size, m);
      forall k: nat | k < m ensures ObjectAt(page, size, k) != ObjectAt(page, size, m) { MulGrowsTo(size, k, m); }
    }
  }

  lemma ObjectsFacts(page: nat, size: nat, n: nat)
    requires size > 0
    ensures |Objects(page, size, n)| == n
    ensures forall x: nat :: x in Objects(page, size, n) <==> exists k: nat :: k < n && x == ObjectAt(page, size, k)
  {
    ObjectsCount(page, size, n);
    ObjectsAre(page, size, n);
  }

  function Elements(s: seq<nat>): set<nat>
  {
    set x | x in s
  }

  lemma {:induction false} ElementsSize(s: seq<nat>)
    requires Distinct(s)
    ensures |Elements(s)| == |s|
  {
    if s != [] {
      TailFacts(s);
      ElementsSize(s[1..]);
      assert Elements(s) == {s[0]} + Elements(s[1..]);
    }
  }

  ghost function ObjectsOf(c: Cache, p: nat): (all: set<nat>)
    requires c.size > 0
    ensures |all| == PerSlab(c.size) && forall x: nat :: x in all <==> IsObject(p, c.size, x)
  {
    ObjectsFacts(p, c.size, PerSlab(c.size));
    Objects(p, c.size, PerSlab(c.size))
  }

  /** The live objects of a slab. */
  ghost function LiveIn(c: Cache, p: nat): set<nat>
    requires c.size > 0 && p in c.slabs
  {
    ObjectsOf(c, p) - Elements(c.slabs[p].freeList)
  }

  /** The use count of a slab is the number of its live objects. */
  lemma LiveCount(c: Cache, p: nat)
    requires CacheInv(c) && p in c.slabs
    ensures c.slabs[p].inuse == |LiveIn(c, p)|
    ensures forall x: nat :: x in LiveIn(c, p) <==> Page(x) == p && Live(c, x)
  {
    var h := c.slabs[p];
    assert HeaderOk(p, h, c.size);
    ElementsSize(h.freeList);
    assert Elements(h.freeList) <= ObjectsOf(c, p);
    forall x: nat | IsObject(p, c.size, x) ensures Page(x) == p { ObjectInPage(p, c.size, x); }
  }

  /** Page p is on the list, and neither its first nor its last entry. */
  ghost predicate Inside(list: seq<nat>, p: nat)
  {
    exists i: nat :: 0 < i < |list| - 1 && list[i] == p
  }

  lemma InsideList(list: seq<nat>, p: nat)
    requires Distinct(list)
    ensures Inside(list, p) <==> p in list && list[0] != p && list[|list| - 1] != p
  {
    if p in list && list[0] != p && list[|list| - 1] != p {
      var i: nat :| i < |list| && list[i] == p;
    }
  }

  lemma RemoveEnds(list: seq<nat>, p: nat)
    requires Distinct(list) && list != []
    ensures list[0] == p ==> Remove(list, p) == list[1..]
    ensures list[|list| - 1] == p ==> Remove(list, p) == list[..|list| - 1]
  {
    if list[|list| - 1] == p {
      var rest := list[..|list| - 1];
      assert list == rest + [p];
      assert p !in rest;
      RemoveAbsent(rest, p);
    }
  }

  /** Where a free leaves the slab of its object. The first and the last slab of the full list go to
      the front of the partial list. Any other slab goes to the front of the free list if it has no
      other live object, and stays where it is if it has. The object is the first that the slab will
      hand out next. */
  lemma FreeMoves(c: Cache, x: nat)
    requires CacheInv(c) && Live(c, x)
    ensures var p, c' := Page(x), Free(c, x);
      && p in c.slabs && p in c'.slabs
      && c'.slabs[p].inuse == c.slabs[p].inuse - 1 && c'.slabs[p].freeList == [x] + c.slabs[p].freeList
      && (p in c'.full <==> Inside(c.full, p) && c.slabs[p].inuse != 1)
      && (c.full != [] && c.full[0] == p ==>
            c'.full == c.full[1..] && c'.partial == [p] + c.partial && c'.free == c.free)
      && (c.full != [] && c.full[|c.full| - 1] == p ==>
            c'.full == c.full[..|c.full| - 1] && c'.partial == [p] + c.partial && c'.free == c.free)
      && ((p in c.partial || Inside(c.full, p)) && c.slabs[p].inuse == 1 ==>
            c'.full == Remove(c.full, p) && c'.partial == Remove(c.partial, p) && c'.free == [p] + c.free)
      && ((p in c.partial || Inside(c.full, p)) && c.slabs[p].inuse != 1 ==>
            c'.full == c.full && c'.partial == c.partial && c'.free == c.free)
  {
    var p := Page(x);
    assert p in c.slabs;
    LiveCount(c, p);
    assert p !in c.free;
    RemoveAbsent(c.free, p);
    RemoveFacts(c.full, p);
    InsideList(c.full, p);
    if c.full != [] { RemoveEnds(c.full, p); }
  }

  /** Which object an allocation hands out: the first free one of the first partial slab, else of the
      first free slab, else of a new slab, where it is right behind the header. */
  lemma AllocPicks(c: Cache, page: nat)
    requires CacheInv(c) && page % PAGE == 0 && page !in c.slabs
    ensures Ready(c)
    ensures var (c', x) := Alloc(c, page);
      if c.partial != [] then
        var p := c.partial[0];
        && c.slabs[p].freeList != [] && x == c.slabs[p].freeList[0] && c'.free == c.free
        && (if |c.slabs[p].freeList| == 1 then c'.partial == c.partial[1..] && c'.full == [p] + c.full
            else c'.partial == c.partial && c'.full == c.full)
      else if c.free != [] then
        var p := c.free[0];
        && c.slabs[p].freeList != [] && x == c.slabs[p].freeList[0]
        && c'.free == c.free[1..] && c'.partial == [p] && c'.full == c.full
      else if page != 0 then
        x == page + 56 && c'.partial == [page] && c'.full == c.full && c'.free == []
      else x == 0 && c' == c
  {
    assert c.partial != [] ==> c.partial[0] in c.partial;
    assert c.free != [] ==> c.free[0] in c.free;
    AllObjectsFacts(page, c.size, PerSlab(c.size));
  }

  /** Freeing a live object keeps the invariant and makes exactly that object free. The slab is
      left on the full list although it has a free object exactly when it was inside that list
      and still has another live object. */
  lemma FreeTheorem(c: Cache, x: nat)
    requires CacheInv(c) && Live(c, x)
    ensures CacheInv(Free(c, x)) && HandedOut(Free(c, x), c, x)
    ensures Page(x) in Free(c, x).full <==> Inside(c.full, Page(x)) && c.slabs[Page(x)].inuse != 1
  {
    FreeMoves(c, x);
    FreeLive(c, x);
    var p := Page(x);
    RemoveFacts(c.full, p);
    if SeenFull(c, p) {
      FreeSeenFull(c, x);
    } else if c.slabs[p].inuse == 1 {
      FreeEmptied(c, x);
      FreeEmptiedTotal(c, x);
      FreeEmptiedCount(c, x);
    } else {
      FreeStays(c, x);
    }
  }

  // ---------------------------------------------------------------- runs

  function NewCache(size: nat): Cache
  {
    Cache(size, [], [], [], map[], 0, 0)
  }

  datatype Op = AllocOp(page: nat) | FreeOp(x: nat)

  /** The slabs that an allocation looks at first are slabs. */
  ghost predicate Ready(c: Cache)
  {
    c.size > 0 && (c.partial != [] ==> c.partial[0] in c.slabs) && (c.free != [] ==> c.free[0] in c.slabs)
  }

  /** Pages are handed to the cache once, and only live objects are freed. What an allocation would
      do if it met something else than a slab is left open: that no run does has to be shown. */
  ghost predicate Step(c: Cache, op: Op, c': Cache)
  {
    match op
    case AllocOp(page) => page % PAGE == 0 && page !in c.slabs && (Ready(c) ==> c' == Alloc(c, page).0)
    case FreeOp(x) => c.size > 0 && Live(c, x) && c' == Free(c, x)
  }

  ghost predicate Run(run: seq<Cache>, ops: seq<Op>, size: nat)
  {
    && |run| == |ops| + 1 && run[0] == NewCache(size)
    && forall i: nat :: i < |ops| ==> Step(run[i], ops[i], run[i + 1])
  }

  /** At every point of every run of a cache with room for two objects in a slab and for a list node
      in an object: the lists and counters are right, and the live objects lie behind the headers, in
      the page that masking their address gives, and do not overlap. */
  lemma {:induction false} RunTheorem(run: seq<Cache>, ops: seq<Op>, size: nat, n: nat)
    requires NODE_SIZE <= size && PerSlab(size) >= 2 && Run(run, ops, size) && n <= |ops|
    ensures CacheInv(run[n]) && run[n].size == size
    ensures forall x: nat :: Live(run[n], x) ==> Page(x) + 56 <= x && x + size <= Page(x) + 4096
    ensures forall x: nat, y: nat {:trigger Live(run[n], x), Live(run[n], y)} ::
              Live(run[n], x) && Live(run[n], y) && x < y ==> x + size <= y
  {
    if n > 0 {
      RunTheorem(run, ops, size, n - 1);
      StepKeeps(run[n - 1], ops[n - 1], run[n]);
    }
    forall x: nat | Live(run[n], x) ensures Page(x) + HEADER <= x && x + size <= Page(x) + PAGE {
      ObjectInPage(Page(x), size, x);
    }
    forall x: nat, y: nat | Live(run[n], x) && Live(run[n], y) && x < y ensures x + size <= y {
      ObjectsDisjoint(Page(x), Page(y), size, x, y);
    }
  }

  lemma StepKeeps(c: Cache, op: Op, c': Cache)
    requires CacheInv(c) && Step(c, op, c')
    ensures CacheInv(c') && c'.size == c.size
  {
    match op
    case AllocOp(page) => AllocTheorem(c, page);
    case FreeOp(x) => FreeTheorem(c, x);
  }

  // ---------------------------------------------------------------- where it goes wrong

  /** The list nodes that a new slab's free objects hold lie in the page and apart from each other. */
  ghost predicate NodesApart(page: nat, size: nat)
    requires size > 0
  {
    && (forall k: nat :: k < PerSlab(size) ==> ObjectAt(page, size, k) + NODE_SIZE <= page + PAGE)
    && (forall j: nat, k: nat :: j < k < PerSlab(size) ==>
          ObjectAt(page, size, j) + NODE_SIZE <= ObjectAt(page, size, k))
  }

  /** They do exactly if an object has room for a node. */
  lemma NodesFit(page: nat, size: nat)
    requires size > 0 && page % PAGE == 0
    ensures NodesApart(page, size) <==> NODE_SIZE <= size
  {
    if NODE_SIZE <= size {
      forall k: nat | k < PerSlab(size) ensures ObjectAt(page, size, k) + NODE_SIZE <= page + PAGE {
        ObjectInPage(page, size, ObjectAt(page, size, k));
      }
      forall j: nat, k: nat | j < k < PerSlab(size)
        ensures ObjectAt(page, size, j) + NODE_SIZE <= ObjectAt(page, size, k)
      {
        MulGrowsTo(size, j, k);
      }
    } else {
      ManyPerSlab(size);
      assert ObjectAt(page, size, 0) + NODE_SIZE > ObjectAt(page, size, 1);
    }
  }

  lemma ManyPerSlab(size: nat)
    requires 0 < size < NODE_SIZE
    ensures PerSlab(size) >= 2
  {
  }

  lemma FirstAllocation(size: nat, p: nat)
    requires size > 0 && p > 0
    ensures var c := Alloc(NewCache(size), p).0;
      c.size == size && c.partial == [p] && c.free == [] && p in c.slabs
  {
  }

  lemma TwoObjects(size: nat, p: nat, q: nat)
    requires NODE_SIZE <= size && PerSlab(size) >= 2
    requires p > 0 && q > 0 && p % PAGE == 0 && q % PAGE == 0 && p != q
    ensures var (c, x) := Alloc(NewCache(size), p);
      c.size == size && Ready(c) && var y := Alloc(c, q).1; IsObject(Page(x), size, x) && IsObject(Page(y), size, y)
  {
    var c0 := NewCache(size);
    var (c, x) := Alloc(c0, p);
    FirstAllocation(size, p);
    AllocTheorem(c0, p);
    assert c.slabs.Keys == {p};
    AllocTheorem(c, q);
    assert Live(c, x) && Live(Alloc(c, q).0, Alloc(c, q).1);
  }

  lemma HeadHandedOut(size: nat, p: nat, q: nat)
    requires size > 0 && PerSlab(size) < 2 && p > 0 && p % PAGE == 0
    ensures var c := Alloc(NewCache(size), p).0;
      Ready(c) && var y := Alloc(c, q).1; y == p + FREE_LIST_OFFSET && Page(y) == p && !IsObject(p, size, y)
  {
    FirstAllocation(size, p);
    AllObjectsFacts(p, size, PerSlab(size));
    assert Alloc(NewCache(size), p).0.slabs[p].freeList == [];
    assert Page(p + FREE_LIST_OFFSET) == p;
  }

  /** The first two allocations of a new cache return objects, and the list nodes in the slab are
      sound, exactly when a slab has room for two objects and an object for a list node. Without room
      for two objects, the head of an empty free list, inside the header, is handed out. */
  lemma TwoAllocations(size: nat, p: nat, q: nat)
    requires size > 0 && p > 0 && q > 0 && p % PAGE == 0 && q % PAGE == 0 && p != q
    ensures var (c, x) := Alloc(NewCache(size), p);
      && c.size == size && c.partial == [p] && c.free == [] && p in c.slabs
      && var y := Alloc(c, q).1;
      && ((IsObject(Page(x), size, x) && IsObject(Page(y), size, y) && NodesApart(p, size))
          <==> (PerSlab(size) >= 2 && NODE_SIZE <= size))
      && (PerSlab(size) < 2 ==> y == p + FREE_LIST_OFFSET)
  {
    FirstAllocation(size, p);
    NodesFit(p, size);
    if PerSlab(size) < 2 {
      HeadHandedOut(size, p, q);
    } else if NODE_SIZE <= size {
      TwoObjects(size, p, q);
    }
  }

  /** Of the sizes that slab_cache_create accepts, those from 16 to 1024 meet both conditions. */
  lemma SoundSizes(k: nat)
    requires Pow2(k) <= PAGE
    ensures PerSlab(Pow2(k)) >= 2 && NODE_SIZE <= Pow2(k) <==> 4 <= k <= 10
  {
    Pow2Values();
    if k <= 3 { Pow2Monotone(k, 3); }
    if k >= 4 { Pow2Monotone(4, k); }
    if k <= 10 {
      Pow2Monotone(k, 10);
      RoomForTwo(Pow2(k));
    } else {
      Pow2Monotone(11, k);
      NoRoomForTwo(Pow2(k));
    }
  }

  lemma RoomForTwo(size: nat)
    requires 0 < size <= 1024
    ensures PerSlab(size) >= 2
  {
  }

  lemma NoRoomForTwo(size: nat)
    requires size >= 2048
    ensures PerSlab(size) < 2
  {
  }

  /** Three allocations fill a slab of three objects. */
  lemma FillSlab(c: Cache, p: nat) returns (c1: Cache, c2: Cache, c3: Cache)
    requires c.size == 1024 && c.partial == [] && c.free == []
    requires p > 0 && p % PAGE == 0 && p !in c.slabs && 0 !in c.slabs
    ensures Step(c, AllocOp(p), c1) && Step(c1, AllocOp(0), c2) && Step(c2, AllocOp(0), c3)
    ensures c3 == Cache(1024, [p] + c.full, [], [], c.slabs[p := Header(3, [])], c.total + 3, c.freeObjects)
  {
    assert PerSlab(1024) == 3;
    AllObjectsFacts(p, 1024, 3);
    var l := AllObjects(p, 1024, 3);
    c1 := Cache(1024, c.full, [p], [], c.slabs[p := Header(1, l[1..])], c.total + 3, c.freeObjects + 2);
    c2 := Cache(1024, c.full, [p], [], c.slabs[p := Header(2, l[2..])], c.total + 3, c.freeObjects + 1);
    c3 := Cache(1024, [p] + c.full, [], [], c.slabs[p := Header(3, [])], c.total + 3, c.freeObjects);
    assert l[1..][1..] == l[2..] && l[2..][1..] == [];
    assert c1 == Alloc(c, p).0;
    assert c2 == Alloc(c1, 0).0;
    assert c3 == Alloc(c2, 0).0;
  }

  lemma RunOn(run: seq<Cache>, ops: seq<Op>, size: nat, op: Op, c: Cache)
    requires Run(run, ops, size) && Step(run[|ops|], op, c)
    ensures Run(run + [c], ops + [op], size)
  {
    var run', ops' := run + [c], ops + [op];
    forall i: nat | i < |ops'| ensures Step(run'[i], ops'[i], run'[i + 1]) {
      assert i < |ops| ==> Step(run[i], ops[i], run[i + 1]);
    }
  }

  /** A run that goes on by filling one more slab. */
  lemma FillNext(run: seq<Cache>, ops: seq<Op>, p: nat) returns (run': seq<Cache>, ops': seq<Op>)
    requires Run(run, ops, 1024)
    requires var c := run[|ops|]; c.size == 1024 && c.partial == [] && c.free == [] && p !in c.slabs && 0 !in c.slabs
    requires p > 0 && p % PAGE == 0
    ensures Run(run', ops', 1024) && |ops'| == |ops| + 3
    ensures var c, c' := run[|ops|], run'[|ops'|];
      c' == Cache(1024, [p] + c.full, [], [], c.slabs[p := Header(3, [])], c.total + 3, c.freeObjects)
  {
    var c1, c2, c3 := FillSlab(run[|ops|], p);
    RunOn(run, ops, 1024, AllocOp(p), c1);
    RunOn(run + [c1], ops + [AllocOp(p)], 1024, AllocOp(0), c2);
    RunOn(run + [c1] + [c2], ops + [AllocOp(p)] + [AllocOp(0)], 1024, AllocOp(0), c3);
    run', ops' := run + [c1] + [c2] + [c3], ops + [AllocOp(p)] + [AllocOp(0)] + [AllocOp(0)];
  }

  /** Being on the full list does not mean having no free object: a run that fills three slabs and
      frees an object of the second one leaves it on the full list, and no slab on another. */
  lemma FullListHidesObject() returns (run: seq<Cache>, ops: seq<Op>)
    ensures Run(run, ops, 1024) && |ops| == 10 && ops[9] == FreeOp(8192 + HEADER)
    ensures var c := run[10];
      8192 in c.full && 8192 in c.slabs && c.slabs[8192].freeList == [8192 + HEADER] && c.partial == [] && c.free == []
  {
    run, ops := FillNext([NewCache(1024)], [], 12288);
    run, ops := FillNext(run, ops, 8192);
    run, ops := FillNext(run, ops, 4096);
    var c := FreeInside(run[9]);
    RunOn(run, ops, 1024, FreeOp(8192 + HEADER), c);
    run, ops := run + [c], ops + [FreeOp(8192 + HEADER)];
  }

  lemma FreeInside(c: Cache) returns (c': Cache)
    requires c.size == 1024 && c.full == [4096] + ([8192] + ([12288] + [])) && c.partial == [] && c.free == []
    requires 8192 in c.slabs && c.slabs[8192] == Header(3, [])
    ensures Step(c, FreeOp(8192 + HEADER), c')
    ensures 8192 in c'.full && 8192 in c'.slabs && c'.slabs[8192].freeList == [8192 + HEADER] && c'.partial == []
    ensures c'.free == []
  {
    assert ObjectAt(8192, 1024, 0) == 8192 + HEADER;
    assert IsObject(8192, 1024, 8192 + HEADER);
    assert c.full == [4096, 8192, 12288];
    assert c.full[1] == 8192;
    c' := Free(c, 8192 + HEADER);
  }

  // ---------------------------------------------------------------- the power of two test

  lemma {:induction false} PredOfPow2(x: nat) returns (k: nat)
    requires x > 0 && And(x, x - 1) == 0
    ensures x == Pow2(k)
  {
    if x % 2 == 1 {
      assert (x - 1) / 2 == x / 2;
      AndSame(x / 2);
      k := 0;
    } else {
      assert (x - 1) / 2 == x / 2 - 1;
      k := PredOfPow2(x / 2);
      k := k + 1;
    }
  }

  lemma {:induction false} AndSame(x: nat)
    ensures And(x, x) == x
  {
    if x > 0 { AndSame(x / 2); }
  }

  /** The test of slab_cache_create accepts exactly the powers of two. */
  lemma PowerOfTwoTest(x: nat)
    requires x > 0
    ensures And(x, x - 1) == 0 <==> exists k: nat :: x == Pow2(k)
  {
    if And(x, x - 1) == 0 { var k := PredOfPow2(x); }
    if k: nat :| x == Pow2(k) { AndPow2(k); }
  }

  lemma {:induction false} AndPow2(k: nat)
    ensures And(Pow2(k), Pow2(k) - 1) == 0
  {
    if k > 0 {
      AndPow2(k - 1);
      AndDouble(Pow2(k - 1));
    } else {
      AndZero(1);
    }
  }

  lemma AndDouble(m: nat)
    requires m > 0
    ensures And(2 * m, 2 * m - 1) == 2 * And(m, m - 1)
  {
    assert (2 * m) / 2 == m && (2 * m - 1) / 2 == m - 1 && (2 * m) % 2 == 0;
  }

  // ---------------------------------------------------------------- the cache on the heap

  class SlabCache {
    const objectSize: nat
    var slabsFull: seq<nat>
    var slabsPartial: seq<nat>
    var slabsFree: seq<nat>
    var headers: map<nat, Header>
    var totalObjects: nat
    var freeObjects: int

    ghost function View(): Cache
      reads this
    {
      Cache(objectSize, slabsFull, slabsPartial, slabsFree, headers, totalObjects, freeObjects)
    }

    constructor (size: nat)
      ensures View() == NewCache(size)
    {
      objectSize := size;
      slabsFull, slabsPartial, slabsFree := [], [], [];
      headers, totalObjects, freeObjects := map[], 0, 0;
    }

    /** slab_new: a slab at the page the page allocator answered with. */
    method NewSlabAt(page: nat)
      requires objectSize > 0
      modifies this
      ensures View() == NewSlab(old(View()), page)
    {
      var n := PerSlab(objectSize);
      var list, objPtr, i := [], page + HEADER, 0;
      while i < n
        invariant 0 <= i <= n && objPtr == ObjectAt(page, objectSize, i) && list == AllObjects(page, objectSize, i)
        invariant View() == old(View())
      {
        list := list + [objPtr];
        MulNext(objectSize, i);
        objPtr := objPtr + objectSize;
        i := i + 1;
      }
      headers := headers[page := Header(0, list)];
      totalObjects := totalObjects + n;
      freeObjects := freeObjects + n;
    }

    /** Take the first object off a slab's free list. */
    method TakeObject(p: nat) returns (obj: nat)
      requires p in headers
      modifies this
      ensures View() == TakeFirst(old(View()), p) && obj == FirstFree(p, old(headers)[p])
    {
      var h := headers[p];
      obj := FirstFree(p, h);
      headers := headers[p := Header(h.inuse + 1, if h.freeList == [] then [] else h.freeList[1..])];
      freeObjects := freeObjects - 1;
    }

    /** slab_alloc; `page` is what the page allocator answers if asked, 0 for nothing. */
    method TakeAny(page: nat) returns (obj: nat)
      requires objectSize > 0
      requires (slabsPartial != [] ==> slabsPartial[0] in headers) && (slabsFree != [] ==> slabsFree[0] in headers)
      modifies this
      ensures View() == Alloc(old(View()), page).0 && obj == Alloc(old(View()), page).1
    {
      if slabsPartial != [] {
        var p := slabsPartial[0];
        obj := TakeObject(p);
        if headers[p].freeList == [] {
          slabsPartial := slabsPartial[1..];
          slabsFull := [p] + slabsFull;
        }
      } else if slabsFree != [] {
        var p := slabsFree[0];
        obj := TakeObject(p);
        slabsFree := slabsFree[1..];
        slabsPartial := [p] + slabsPartial;
        assert slabsPartial == [p];
      } else if page == 0 {
        obj := 0;
      } else {
        NewSlabAt(page);
        obj := TakeObject(page);
        slabsPartial := [page] + slabsPartial;
        assert slabsPartial == [page];
      }
    }

    method AllocObject(page: nat) returns (obj: nat)
      requires CacheInv(View()) && page % PAGE == 0 && page !in headers
      modifies this
      ensures CacheInv(View())
      ensures if old(slabsPartial) == [] && old(slabsFree) == [] && page == 0 then View() == old(View()) && obj == 0
              else HandedOut(old(View()), View(), obj)
    {
      AllocTheorem(View(), page);
      obj := TakeAny(page);
    }

    /** slab_free */
    method GiveBack(x: nat)
      modifies this
      ensures View() == Free(old(View()), x)
    {
      var p := Page(x);
      if p !in headers {
        return;
      }
      var h := headers[p];
      var wasFull := slabsFull != [] && (slabsFull[0] == p || slabsFull[|slabsFull| - 1] == p);
      headers := headers[p := Header(h.inuse - 1, [x] + h.freeList)];
      freeObjects := freeObjects + 1;
      if wasFull {
        slabsFull := Remove(slabsFull, p);
        slabsPartial := [p] + slabsPartial;
      } else if headers[p].inuse == 0 {
        slabsFull, slabsPartial := Remove(slabsFull, p), Remove(slabsPartial, p);
        slabsFree := [p] + Remove(slabsFree, p);
      }
    }

    method FreeObject(x: nat)
      requires CacheInv(View()) && Live(View(), x)
      modifies this
      ensures CacheInv(View()) && HandedOut(View(), old(View()), x)
    {
      FreeTheorem(View(), x);
      GiveBack(x);
    }
  }

  /** slab_cache_create: a cache, or nothing if the size is zero, too large or no power of two. */
  method CreateCache(size: nat) returns (c: SlabCache?)
    ensures c != null <==> 0 < size <= PAGE && exists k: nat :: size == Pow2(k)
    ensures c != null ==> fresh(c) && c.View() == NewCache(size)
  {
    if size == 0 || size > PAGE {
      return null;
    }
    PowerOfTwoTest(size);
    if And(size, size - 1) != 0 {
      return null;
    }
    c := new SlabCache(size);
  }
}
