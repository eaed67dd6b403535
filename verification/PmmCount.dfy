/** Counting the pages on the free lists. */
module PmmCount {
  import opened Bits
  import opened PmmModel
  import opened Seqs

  /** The number of pages in the blocks on the first k lists. */
  ghost function Weight(lists: seq<seq<nat>>, k: nat): nat
    requires k <= |lists|
  {
    if k == 0 then 0 else Weight(lists, k - 1) + Pow2(k - 1) * |lists[k - 1]|
  }

  lemma {:induction false} WeightSet(lists: seq<seq<nat>>, k: nat, o: nat, l: seq<nat>)
    requires k <= |lists| && o < |lists|
    ensures Weight(lists[o := l], k) == Weight(lists, k) + (if o < k then Pow2(o) * |l| - Pow2(o) * |lists[o]| else 0)
  {
    if k > 0 { WeightSet(lists, k - 1, o, l); }
  }

  lemma WeightPush(lists: seq<seq<nat>>, o: nat, x: nat)
    requires o < |lists|
    ensures Weight(lists[o := lists[o] + [x]], |lists|) == Weight(lists, |lists|) + Pow2(o)
  {
    WeightSet(lists, |lists|, o, lists[o] + [x]);
    MulNext(Pow2(o), |lists[o]|);
  }

  lemma WeightRemove(lists: seq<seq<nat>>, o: nat, x: nat)
    requires o < |lists| && Distinct(lists[o]) && x in lists[o]
    ensures Weight(lists[o := Remove(lists[o], x)], |lists|) == Weight(lists, |lists|) - Pow2(o)
  {
    RemoveFacts(lists[o], x);
    WeightSet(lists, |lists|, o, Remove(lists[o], x));
    MulNext(Pow2(o), |lists[o]| - 1);
  }

  // ---------------------------------------------------------------- the weight is the number of free pages

  ghost function FreePages(s: State): set<nat>
  {
    set p | p in s.owner && s.owner[p].Free?
  }

  /** The free pages owned by the first i descriptors of list o or by a list before it. */
  ghost function PagesUpTo(s: State, o: nat, i: nat): set<nat>
    requires |s.free| == MAX_ORDER + 1 && o <= MAX_ORDER && i <= |s.free[o]|
  {
    set p | p in s.owner && s.owner[p].Free? && Among(s, o, i, s.owner[p].id)
  }

  ghost predicate Among(s: State, o: nat, i: nat, id: nat)
    requires |s.free| == MAX_ORDER + 1 && o <= MAX_ORDER && i <= |s.free[o]|
  {
    id in s.free[o][..i] || exists k: nat :: k < o && id in s.free[k]
  }

  lemma {:induction false} RangeSize(lo: nat, n: nat)
    ensures |Range(lo, n)| == n
  {
    if n > 0 {
      RangeSize(lo, n - 1);
      assert Range(lo, n) == Range(lo, n - 1) + {lo + n - 1};
    }
  }

  ghost function Range(lo: nat, n: nat): set<nat>
  {
    set p: nat {:trigger Here(p)} | lo <= p < lo + n && Here(p)
  }

  lemma AmongNext(s: State, o: nat, i: nat)
    requires Shape(s, NONE) && o <= MAX_ORDER && i < |s.free[o]|
    ensures forall x: nat :: Among(s, o, i + 1, x) <==> Among(s, o, i, x) || x == s.free[o][i]
    ensures !Among(s, o, i, s.free[o][i])
  {
    var id := s.free[o][i];
    assert id in s.free[o];
    assert s.free[o][..i + 1] == s.free[o][..i] + [id];
  }

  lemma BlockRange(s: State, id: nat)
    requires Inv(s, NONE) && OnFree(s, id)
    ensures forall p: nat ::
      p in Range(s.desc[id].head, Pow2(s.desc[id].order)) <==> p in s.owner && s.owner[p] == Free(id)
  {
    assert forall p: nat :: p in Range(s.desc[id].head, Pow2(s.desc[id].order)) <==> Covers(s.desc[id], p);
  }

  lemma OneMore(s: State, o: nat, i: nat)
    requires Inv(s, NONE) && o <= MAX_ORDER && i < |s.free[o]|
    ensures |PagesUpTo(s, o, i + 1)| == |PagesUpTo(s, o, i)| + Pow2(o)
  {
    var id := s.free[o][i];
    assert id in s.free[o];
    assert OnFree(s, id);
    var block := Range(s.desc[id].head, Pow2(o));
    RangeSize(s.desc[id].head, Pow2(o));
    BlockRange(s, id);
    AmongNext(s, o, i);
    assert PagesUpTo(s, o, i + 1) == PagesUpTo(s, o, i) + block;
    assert PagesUpTo(s, o, i) !! block;
  }

  lemma {:induction false} WeightUpTo(s: State, o: nat, i: nat)
    requires Inv(s, NONE) && o <= MAX_ORDER && i <= |s.free[o]|
    ensures |PagesUpTo(s, o, i)| == Weight(s.free, o) + Pow2(o) * i
    decreases o, i
  {
    if i > 0 {
      WeightUpTo(s, o, i - 1);
      OneMore(s, o, i - 1);
      MulNext(Pow2(o), i - 1);
    } else if o > 0 {
      WeightUpTo(s, o - 1, |s.free[o - 1]|);
      assert s.free[o - 1][..|s.free[o - 1]|] == s.free[o - 1];
      assert PagesUpTo(s, o, 0) == PagesUpTo(s, o - 1, |s.free[o - 1]|);
    } else {
      assert PagesUpTo(s, o, i) == {};
    }
  }

  /** The blocks on the free lists hold exactly as many pages as are free. */
  lemma WeightIsFreePages(s: State)
    requires Inv(s, NONE)
    ensures Weight(s.free, MAX_ORDER + 1) == |FreePages(s)|
  {
    var n := |s.free[MAX_ORDER]|;
    WeightUpTo(s, MAX_ORDER, n);
    assert s.free[MAX_ORDER][..n] == s.free[MAX_ORDER];
    forall p | p in s.owner && s.owner[p].Free? ensures Among(s, MAX_ORDER, n, s.owner[p].id) {
      assert OnFree(s, s.owner[p].id);
      assert s.owner[p].id in s.free[s.desc[s.owner[p].id].order];
    }
    assert PagesUpTo(s, MAX_ORDER, n) == FreePages(s);
  }
}
