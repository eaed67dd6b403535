/** The list of kernel mappings: kmap_create, kmap_split, kmap_merge, kmap_lookup and reference
    counts of kernel/kmap.c. */
module Regions {
  import opened Bits
  import opened Seqs
  import opened RegionSpec

  class Region {
    var start: nat
    var end: nat
    const base: nat
    const props: Props
    var refs: int
    var pages: nat

    ghost function View(): Info
      reads this
    {
      Info(start, end, base, props, refs, pages)
    }

    constructor (start: nat, end: nat, base: nat, props: Props)
      requires start <= end
      ensures View() == Info(start, end, base, props, 1, (end - start) / PAGE)
    {
      this.start := start;
      this.end := end;
      this.base := base;
      this.props := props;
      refs := 1;
      pages := (end - start) / PAGE;
    }
  }

  /** The list as it reads. */
  ghost predicate Shows(list: seq<Region>, v: seq<Info>)
    reads list
  {
    |v| == |list| && forall i: nat :: i < |list| ==> list[i].View() == v[i]
  }

  /** The list with the references to mapping i changed. */
  ghost function Counted(v: seq<Info>, i: nat, delta: int): seq<Info>
    requires i < |v|
  {
    v[i := v[i].(refs := v[i].refs + delta)]
  }

  /** The list with one more reference to mapping i than in v0. */
  ghost predicate Held(v0: seq<Info>, i: nat, v: seq<Info>)
  {
    i < |v0| && v0[i].refs > 0 && v == Counted(v0, i, 1)
  }

  ghost predicate AllOk(v: seq<Info>)
  {
    forall i: nat :: i < |v| ==> InfoOk(v[i])
  }

  class RegionList {
    var list: seq<Region>
    ghost var v: seq<Info>

    ghost predicate Valid()
      reads this, list
    {
      Distinct(list) && Shows(list, v) && AllOk(v)
    }

    constructor ()
      ensures Valid() && list == [] && v == []
    {
      list := [];
      v := [];
    }

    /** Register a mapping. Without memory for it, or if the bounds are not those of pages, nothing
        happens. */
    method Create(start: nat, end: nat, base: nat, props: Props, memory: bool) returns (r: Region?)
      requires Valid()
      modifies this
      ensures Valid()
      ensures r != null <==> start % PAGE == 0 && end % PAGE == 0 && start < end && memory
      ensures r == null ==> list == old(list) && v == old(v)
      ensures r != null ==>
        (fresh(r) && r in list && v == Insert(old(v), Info(start, end, base, props, 1, (end - start) / PAGE)))
    {
      if start % PAGE != 0 || end % PAGE != 0 || start >= end || !memory {
        return null;
      }
      var m := new Region(start, end, base, props);
      r := m;
      var i := InsertionPoint(start);
      Place(m, i);
    }

    /** Where a new mapping goes: behind the first one that starts above it, or at the end. */
    method InsertionPoint(start: nat) returns (p: nat)
      requires Valid()
      ensures var j := FirstAbove(v, start, 0); p == if j < |v| then j + 1 else j
    {
      p := 0;
      while p < |list|
        invariant p <= |list| && FirstAbove(v, start, 0) == FirstAbove(v, start, p)
      {
        if start < list[p].start {
          return p + 1;
        }
        p := p + 1;
      }
    }

    /** Link a new mapping at position p. */
    method Place(m: Region, p: nat)
      requires Valid() && p <= |list| && m !in list && InfoOk(m.View())
      modifies this
      ensures Valid() && v == old(v)[..p] + [m.View()] + old(v)[p..]
      ensures list == old(list)[..p] + [m] + old(list)[p..]
    {
      list := list[..p] + [m] + list[p..];
      v := v[..p] + [m.View()] + v[p..];
    }

    /** Split a mapping in two at s. */
    method Split(m: Region, s: nat, memory: bool, ghost i: nat) returns (ret: int)
      requires Valid() && i < |list| && m == list[i]
      modifies this, m
      ensures Valid()
      ensures ret == 0 <==> CanSplit(old(v)[i], s) && memory
      ensures ret == 0 ==> v == SplitAt(old(v), i, s)
      ensures ret != 0 ==> ret == -1 && list == old(list) && v == old(v)
    {
      if s % PAGE != 0 || s <= m.start || s >= m.end || !memory {
        return -1;
      }
      Cut(m, s, i);
      ret := 0;
    }

    method Cut(m: Region, s: nat, ghost i: nat)
      requires Valid() && i < |list| && m == list[i] && CanSplit(v[i], s)
      modifies this, m
      ensures Valid() && v == SplitAt(old(v), i, s)
    {
      ghost var v0 := v;
      var upper := new Region(s, m.end, m.base + (s - m.start), m.props);
      ghost var u := upper.View();
      assert u == UpperHalf(v0[i], s);
      Shrink(m, s, i);
      ghost var v1 := v;
      var p := Position(m, i);
      Place(upper, p + 1);
      SplitSteps(v0, i, s, u, v1, v);
    }

    static lemma SplitSteps(v0: seq<Info>, i: nat, s: nat, u: Info, v1: seq<Info>, v: seq<Info>)
      requires i < |v0| && CanSplit(v0[i], s) && u == UpperHalf(v0[i], s) && v1 == v0[i := Lower(v0[i], s)]
      requires v == v1[..i + 1] + [u] + v1[i + 1..]
      ensures v == SplitAt(v0, i, s)
    {
    }

    /** The mapping now ends at s. */
    method Shrink(m: Region, s: nat, ghost i: nat)
      requires Valid() && i < |list| && m == list[i] && CanSplit(v[i], s)
      modifies `v, m
      ensures Valid() && v == old(v)[i := Lower(old(v)[i], s)]
    {
      m.end := s;
      m.pages := (s - m.start) / PAGE;
      v := v[i := m.View()];
    }

    /** Where a mapping is linked. */
    method Position(m: Region, ghost i: nat) returns (j: nat)
      requires Valid() && i < |list| && m == list[i]
      ensures j == i
    {
      j := 0;
      while list[j] != m
        invariant j <= i
        decreases i - j
      {
        j := j + 1;
      }
    }

    /** Take a mapping off the list. */
    method Unlink(m: Region, ghost i: nat)
      requires Valid() && i < |list| && m == list[i]
      modifies this
      ensures Valid() && v == RemoveAt(old(v), i) && list == old(list)[..i] + old(list)[i + 1..]
    {
      var j := Position(m, i);
      list := list[..j] + list[j + 1..];
      v := RemoveAt(v, i);
    }

    /** Merge two adjacent mappings with the same properties that nobody else holds. */
    method Merge(m1: Region, m2: Region, ghost i: nat, ghost j: nat) returns (ret: int)
      requires Valid() && i < |list| && j < |list| && m1 == list[i] && m2 == list[j]
      modifies this, m1
      ensures Valid()
      ensures ret == 0 <==> CanMerge(old(v)[i], old(v)[j])
      ensures ret == 0 ==> i != j && v == MergeAt(old(v), i, j)
      ensures ret != 0 ==> ret == -1 && list == old(list) && v == old(v)
    {
      if m1.end != m2.start {
        return -1;
      }
      if m1.props != m2.props {
        return -1;
      }
      if m1.refs != 1 || m2.refs != 1 {
        return -1;
      }
      Extend(m1, m2, i, j);
      Unlink(m2, j);
      ret := 0;
    }

    /** The first mapping takes over the addresses of the second. */
    method Extend(m1: Region, m2: Region, ghost i: nat, ghost j: nat)
      requires Valid() && i < |list| && j < |list| && m1 == list[i] && m2 == list[j] && v[i].end == v[j].start
      modifies `v, m1
      ensures Valid() && i != j && v == old(v)[i := Joined(old(v)[i], old(v)[j])]
    {
      assert InfoOk(v[i]) && InfoOk(v[j]);
      PagesAdd(v[i].start, v[i].end, v[j].end);
      m1.end := m2.end;
      m1.pages := m1.pages + m2.pages;
      v := v[i := m1.View()];
    }

    /** The first mapping that holds an address, with one more reference. */
    method Lookup(addr: nat) returns (r: Region?)
      requires Valid()
      modifies `v, list
      ensures Valid() && list == old(list)
      ensures var j := Find(old(v), addr, 0);
        if j == |old(v)| then r == null && v == old(v) else r == list[j] && v == Counted(old(v), j, 1)
    {
      var i := 0;
      while i < |list|
        invariant i <= |list| && v == old(v) && Valid() && forall m: Region | m in list :: unchanged(m)
        invariant Find(v, addr, 0) == Find(v, addr, i)
      {
        if addr >= list[i].start && addr < list[i].end {
          Count(list[i], 1, i);
          return list[i];
        }
        i := i + 1;
      }
      return null;
    }

    /** Change the number of references to a mapping. */
    method Count(m: Region, delta: int, ghost i: nat)
      requires Valid() && i < |list| && m == list[i]
      modifies `v, m
      ensures Valid() && v == Counted(old(v), i, delta)
    {
      m.refs := m.refs + delta;
      v := v[i := m.View()];
    }

    /** Drop a reference; the mapping goes with the last one. */
    method Put(m: Region, ghost i: nat)
      requires Valid() && i < |list| && m == list[i]
      modifies this, m
      ensures Valid()
      ensures v == if old(v)[i].refs == 1 then RemoveAt(old(v), i) else Counted(old(v), i, -1)
      ensures old(v)[i].refs != 1 ==> list == old(list)
    {
      var before := m.refs;
      Count(m, -1, i);
      if before == 1 {
        var ret := Destroy(m, i);
        DropCounted(old(v), i);
      }
    }

    static lemma DropCounted(v: seq<Info>, i: nat)
      requires i < |v|
      ensures RemoveAt(Counted(v, i, -1), i) == RemoveAt(v, i)
    {
    }

    /** Remove a mapping that has no references left. */
    method Destroy(m: Region, ghost i: nat) returns (ret: int)
      requires Valid() && i < |list| && m == list[i]
      modifies this
      ensures Valid()
      ensures ret == 0 <==> old(v)[i].refs == 0
      ensures v == if ret == 0 then RemoveAt(old(v), i) else old(v)
      ensures ret != 0 ==> list == old(list)
    {
      if m.refs != 0 {
        return -1;
      }
      Unlink(m, i);
      ret := 0;
    }

    /** Drop the reference that a lookup took. */
    method PutBack(m: Region, ghost i: nat, ghost v0: seq<Info>)
      requires Valid() && i < |list| && m == list[i] && Held(v0, i, v)
      modifies this, m
      ensures Valid() && list == old(list) && v == v0
    {
      Put(m, i);
      assert v == v0;
    }

    /** The mapping that a fault at addr concerns, with one more reference, if it is pageable. */
    method Acquire(addr: nat) returns (m: Region?)
      requires Valid() && forall i: nat :: i < |v| ==> v[i].refs > 0
      modifies this, list
      ensures Valid() && list == old(list)
      ensures m != null <==> Described(old(v), addr).Here? && Described(old(v), addr).props.pageable
      ensures m == null ==> v == old(v)
      ensures m != null ==> (var j := Find(old(v), addr, 0);
        m == list[j] && m.props == old(v)[j].props && Held(old(v), j, v))
    {
      m := Lookup(addr);
      if m != null && !m.props.pageable {
        PutBack(m, Find(old(v), addr, 0), old(v));
        m := null;
      }
    }

    /** Whether an address lies in a pageable mapping; the reference counts are as before. */
    method IsPageable(addr: nat) returns (pageable: bool)
      requires Valid() && forall i: nat :: i < |v| ==> v[i].refs > 0
      modifies this, list
      ensures Valid() && list == old(list) && v == old(v)
      ensures pageable <==> Described(v, addr).Here? && Described(v, addr).props.pageable
    {
      var m := Lookup(addr);
      if m == null {
        return false;
      }
      pageable := m.props.pageable;
      PutBack(m, Find(old(v), addr, 0), old(v));
    }
  }
}
