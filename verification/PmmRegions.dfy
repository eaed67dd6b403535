/** Adding and reserving regions of memory. */
module PmmRegions {
  import opened Bits
  import opened PmmModel

  /** The number of the first page that starts at or after an address. */
  function RoundUp(addr: nat): nat
  {
    (addr + PAGE - 1) / PAGE
  }

  // ---------------------------------------------------------------- tiling a range with blocks

  /** The largest order up to k of an aligned block at page p within n pages. */
  function BestOrder(p: nat, n: nat, k: nat): (o: nat)
    ensures o <= k
  {
    if k == 0 || (Pow2(k) <= n && Aligned(p, k)) then k else BestOrder(p, n, k - 1)
  }

  lemma {:induction false} BestOrderFits(p: nat, n: nat, k: nat)
    requires n > 0
    ensures Aligned(p, BestOrder(p, n, k)) && Pow2(BestOrder(p, n, k)) <= n
  {
    if !(k == 0 || (Pow2(k) <= n && Aligned(p, k))) { BestOrderFits(p, n, k - 1); }
  }

  lemma {:induction false} BestOrderLargest(p: nat, n: nat, k: nat, j: nat)
    requires j <= k && Pow2(j) <= n && Aligned(p, j)
    ensures j <= BestOrder(p, n, k)
  {
    if !(k == 0 || (Pow2(k) <= n && Aligned(p, k))) { BestOrderLargest(p, n, k - 1, j); }
  }

  ghost predicate RangeUnclaimed(s: State, p: nat, end: nat)
  {
    forall q: nat :: p <= q < end ==> q !in s.owner || s.owner[q] == Dropped
  }

  /** From s, describing the pages [p, end) as free, taking the largest block up to order k
      each time, leads to r. */
  ghost predicate TilesTo(s: State, p: nat, end: nat, k: nat, r: State)
    decreases end - p
  {
    && |s.free| == MAX_ORDER + 1 && k <= MAX_ORDER
    && if p >= end then r == s
       else var o := BestOrder(p, end - p, k); TilesTo(AddBlock(s, p, o), p + Pow2(o), end, k, r)
  }

  lemma TilesToNothing(s: State, p: nat, end: nat, k: nat)
    requires |s.free| == MAX_ORDER + 1 && k <= MAX_ORDER && p >= end
    ensures TilesTo(s, p, end, k, s)
  {
  }

  ghost predicate Extends(s: State, r: State)
  {
    |s.desc| <= |r.desc| && forall x: nat :: x < |s.desc| ==> r.desc[x] == s.desc[x]
  }

  /** From s to r, exactly the pages [p, end) became free; they are lost instead only when the
      descriptors are exhausted. */
  ghost predicate Tiled(s: State, r: State, p: nat, end: nat)
  {
    && (forall q: nat :: q in r.owner <==> q in s.owner || p <= q < end)
    && (forall q: nat :: q in s.owner && !(p <= q < end) ==> r.owner[q] == s.owner[q])
    && (forall q: nat :: q in r.owner && p <= q < end ==>
          r.owner[q].Free? || (r.owner[q] == Dropped && |r.desc| == MAX_BLOCK_DESC))
  }

  /** From s to r, the lists gained new descriptors of blocks within [p, end), nothing else. */
  ghost predicate TilesListed(s: State, r: State, p: nat, end: nat, k: nat)
  {
    && Extends(s, r) && r.used == s.used
    && (forall x: nat :: OnFree(r, x) <==> OnFree(s, x) || |s.desc| <= x < |r.desc|)
    && (forall x: nat :: |s.desc| <= x < |r.desc| ==>
          p <= r.desc[x].head && r.desc[x].head + Pow2(r.desc[x].order) <= end && r.desc[x].order <= k)
  }

  lemma TilesListedTwice(s: State, t: State, r: State, p: nat, m: nat, end: nat, k: nat)
    requires p <= m <= end && TilesListed(s, t, p, m, k) && TilesListed(t, r, m, end, k)
    ensures TilesListed(s, r, p, end, k)
  {
  }

  /** One tile: a new descriptor (if one is left) of a block at p. */
  lemma TileOne(s: State, p: nat, o: nat, t: State)
    requires Inv(s, NONE) && o <= MAX_ORDER && Aligned(p, o) && Unclaimed(s, p, o) && t == AddBlock(s, p, o)
    ensures Inv(t, NONE) && Tiled(s, t, p, p + Pow2(o)) && TilesListed(s, t, p, p + Pow2(o), o)
    ensures |t.desc| <= |s.desc| + 1
    ensures forall x: nat :: |s.desc| <= x < |t.desc| ==> t.desc[x] == Desc(p, o)
  {
    AddBlockInv(s, NONE, p, o);
    assert forall q: nat :: Covers(Desc(p, o), q) <==> p <= q < p + Pow2(o);
  }

  lemma TileNext(s: State, p: nat, end: nat, k: nat, o: nat)
    requires Inv(s, NONE) && k <= MAX_ORDER && RangeUnclaimed(s, p, end) && p < end
    requires o == BestOrder(p, end - p, k)
    ensures p + Pow2(o) <= end && Aligned(p, o) && Unclaimed(s, p, o)
    ensures Inv(AddBlock(s, p, o), NONE) && RangeUnclaimed(AddBlock(s, p, o), p + Pow2(o), end)
  {
    BestOrderFits(p, end - p, k);
    AddBlockInv(s, NONE, p, o);
  }

  lemma TiledTwice(s: State, t: State, r: State, p: nat, m: nat, end: nat)
    requires p <= m <= end && Tiled(s, t, p, m) && Tiled(t, r, m, end) && |t.desc| <= |r.desc| <= MAX_BLOCK_DESC
    ensures Tiled(s, r, p, end)
  {
  }

  lemma TilesListedWeaken(s: State, r: State, p: nat, end: nat, j: nat, k: nat)
    requires TilesListed(s, r, p, end, j) && j <= k
    ensures TilesListed(s, r, p, end, k)
  {
  }

  ghost predicate TileOk(s: State, r: State, p: nat, end: nat, k: nat)
  {
    Inv(r, NONE) && Tiled(s, r, p, end) && TilesListed(s, r, p, end, k)
  }

  lemma TileOkTwice(s: State, t: State, r: State, p: nat, m: nat, end: nat, k: nat)
    requires p <= m <= end && TileOk(s, t, p, m, k) && TileOk(t, r, m, end, k)
    ensures TileOk(s, r, p, end, k)
  {
    TiledTwice(s, t, r, p, m, end);
    TilesListedTwice(s, t, r, p, m, end, k);
  }

  lemma TileOkOne(s: State, p: nat, end: nat, k: nat)
    requires Inv(s, NONE) && k <= MAX_ORDER && RangeUnclaimed(s, p, end) && p < end
    ensures var o := BestOrder(p, end - p, k);
      TileOk(s, AddBlock(s, p, o), p, p + Pow2(o), k)
  {
    var o := BestOrder(p, end - p, k);
    var t := AddBlock(s, p, o);
    TileNext(s, p, end, k, o);
    TileOne(s, p, o, t);
    TilesListedWeaken(s, t, p, p + Pow2(o), o, k);
  }

  lemma TileOkNone(s: State, p: nat, k: nat)
    requires Inv(s, NONE)
    ensures TileOk(s, s, p, p, k)
  {
  }

  /** The tiles cover the range: new descriptors of blocks inside it, every page of it free. */
  lemma {:induction false} TileTheorem(s: State, p: nat, end: nat, k: nat, r: State)
    requires Inv(s, NONE) && k <= MAX_ORDER && RangeUnclaimed(s, p, end) && p <= end
    requires TilesTo(s, p, end, k, r)
    ensures TileOk(s, r, p, end, k)
    decreases end - p
  {
    if p == end {
      TileOkNone(s, p, k);
    } else {
      var o := BestOrder(p, end - p, k);
      TileNext(s, p, end, k, o);
      TileOkOne(s, p, end, k);
      var t, q := AddBlock(s, p, o), p + Pow2(o);
      TileTheorem(t, q, end, k, r);
      TileOkTwice(s, t, r, p, q, end, k);
    }
  }

  /** The first tile is not the buddy of a later one: together they would have been one tile. */
  lemma FirstTileNotBuddy(p: nat, end: nat, k: nat, o: nat, e: Desc)
    requires p < end && k <= MAX_ORDER && o == BestOrder(p, end - p, k) && o < k
    requires e.order == o && e.head >= p + Pow2(o) && e.head + Pow2(o) <= end && BlockOk(e)
    ensures Buddy(Desc(p, o)) != e.head && Buddy(e) != p
  {
    BestOrderFits(p, end - p, k);
    BuddyHalves(Desc(p, o));
    BuddyHalves(e);
    if Aligned(p, o + 1) && Pow2(o + 1) <= end - p { BestOrderLargest(p, end - p, k, o + 1); }
    assert Pow2(o + 1) == 2 * Pow2(o);
  }

  /** The tiles of [p, end), in order. */
  function Tiles(p: nat, end: nat, k: nat): (ds: seq<Desc>)
    ensures forall i :: 0 <= i < |ds| ==> p <= ds[i].head && ds[i].head + Pow2(ds[i].order) <= end
    ensures forall i :: 0 <= i < |ds| ==> ds[i].order <= k && Aligned(ds[i].head, ds[i].order)
    decreases end - p
  {
    if p >= end then []
    else
      BestOrderFits(p, end - p, k);
      var o := BestOrder(p, end - p, k);
      [Desc(p, o)] + Tiles(p + Pow2(o), end, k)
  }

  ghost predicate BuddiesBelow(d: Desc, e: Desc, k: nat)
  {
    d.order == e.order < k && e.head == Buddy(d)
  }

  /** No two of the tiles are buddies below order k. */
  lemma {:induction false} TilesNotBuddies(p: nat, end: nat, k: nat, i: nat, j: nat)
    requires k <= MAX_ORDER && i < |Tiles(p, end, k)| && j < |Tiles(p, end, k)|
    ensures !BuddiesBelow(Tiles(p, end, k)[i], Tiles(p, end, k)[j], k)
    decreases end - p
  {
    var o := BestOrder(p, end - p, k);
    var rest := Tiles(p + Pow2(o), end, k);
    if i > 0 && j > 0 {
      TilesNotBuddies(p + Pow2(o), end, k, i - 1, j - 1);
    } else if i == j {
      BuddyHalves(Desc(p, o));
    } else if o < k {
      var e := if i == 0 then rest[j - 1] else rest[i - 1];
      if e.order == o { FirstTileNotBuddy(p, end, k, o, e); }
    }
  }

  /** The descriptors a tiling adds are the tiles, as many as there is room for. */
  lemma {:induction false} TileDescs(s: State, p: nat, end: nat, k: nat, r: State)
    requires |s.free| == MAX_ORDER + 1 && k <= MAX_ORDER && |s.desc| <= MAX_BLOCK_DESC
    requires TilesTo(s, p, end, k, r)
    ensures var ds, room := Tiles(p, end, k), MAX_BLOCK_DESC - |s.desc|;
      r.desc == s.desc + (if |ds| <= room then ds else ds[..room])
    decreases end - p
  {
    if p < end {
      var o := BestOrder(p, end - p, k);
      TileDescs(AddBlock(s, p, o), p + Pow2(o), end, k, r);
    }
  }
}
