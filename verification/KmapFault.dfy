/** Page faults in pageable mappings (kmap_handle_page_fault). */
module KmapFault {
  import opened Bits
  import opened PteBits
  import opened PageTables
  import opened Frames
  import opened KmapSteps
  import opened KmapRegion
  import opened Kmap
  import opened RegionSpec
  import opened Regions

  /** The offset into a page does not matter to the tables. */
  lemma SamePage(addr: nat)
    ensures KeyOf(addr - addr % PAGE) == KeyOf(addr)
  {
    var q := addr / PAGE;
    assert addr - addr % PAGE == PAGE * q;
    Quotients(addr);
    Quotients(PAGE * q);
    assert PAGE * q / PAGE == q;
  }

  /** The page of an address. */
  function PageKey(addr: nat): (a: Key)
    ensures a == KeyOf(addr)
  {
    SamePage(addr);
    KeyOf(addr - addr % PAGE)
  }

  /** Page a was mapped already, or is mapped now, or could not be for want of pages. */
  ghost predicate Filled(k: Tables, m: Pages, a: Key, flags: nat, r: int, p: nat, k': Tables, m': Pages)
  {
    if r == 0 then
      if Lookup(k, a).To? then k' == k && m' == m
      else Mapped(k, a, Leaf(p, flags), k') && Drawn(m, NewTables(k, k') + {p}, m')
    else
      k' == k && Lookup(k, a) == Absent && Failed(m, 4, m')
  }

  /** What handling a fault at page a did, given what the list of mappings says about it. */
  ghost predicate Handled(f: Found, k: Tables, m: Pages, a: Key, r: int, p: nat, k': Tables, m': Pages)
  {
    if f.Here? && f.props.pageable then Filled(k, m, a, f.props.flags, r, p, k', m')
    else r == -1 && k' == k && m' == m
  }

  /** Map the page of a faulting address if it lies in a pageable mapping and is not mapped yet. */
  method HandlePageFault(regions: RegionList, pm: PageMap, addr: nat) returns (r: int, ghost p: nat)
    requires pm.Valid() && regions.Valid() && forall i: nat :: i < |regions.v| ==> regions.v[i].refs > 0
    requires Described(regions.v, addr).Here? ==> IsFlags(Described(regions.v, addr).props.flags)
    requires Described(regions.v, addr).Here? ==> !Lookup(pm.tab, KeyOf(addr)).Other?
    modifies pm, pm.frames, pm.frames.pmm, pm.frames.pmm.blocks, regions, regions.list
    ensures pm.Valid() && regions.Valid() && regions.v == old(regions.v) && (r == 0 || r == -1)
    ensures Handled(Described(old(regions.v), addr), old(pm.tab), old(pm.frames.pages), KeyOf(addr), r, p,
                    pm.tab, pm.frames.pages)
  {
    p := 0;
    ghost var v, j := regions.v, Find(regions.v, addr, 0);
    var m := regions.Acquire(addr);
    if m == null {
      return -1, 0;
    }
    r, p := Serve(regions, pm, m, PageKey(addr), j, v);
  }

  /** Fill the page and let go of the mapping. */
  method Serve(regions: RegionList, pm: PageMap, m: Region, a: Key, ghost j: nat, ghost v: seq<Info>) returns (r: int,
               ghost p: nat)
    requires pm.Valid() && KeyOk(a) && IsFlags(m.props.flags) && !Lookup(pm.tab, a).Other?
    requires regions.Valid() && j < |regions.list| && m == regions.list[j] && Held(v, j, regions.v)
    modifies pm, pm.frames, pm.frames.pmm, pm.frames.pmm.blocks, regions, m
    ensures pm.Valid() && (r == 0 || r == -1)
    ensures Filled(old(pm.tab), old(pm.frames.pages), a, m.props.flags, r, p, pm.tab, pm.frames.pages)
    ensures regions.Valid() && regions.list == old(regions.list) && regions.v == v
  {
    r, p := FillPage(pm, a, m.props.flags);
    regions.PutBack(m, j, v);
  }

  /** Map page a unless it is mapped already. */
  method FillPage(pm: PageMap, a: Key, flags: nat) returns (r: int, ghost p: nat)
    requires pm.Valid() && KeyOk(a) && IsFlags(flags) && !Lookup(pm.tab, a).Other?
    modifies pm, pm.frames, pm.frames.pmm, pm.frames.pmm.blocks
    ensures pm.Valid() && (r == 0 || r == -1)
    ensures Filled(old(pm.tab), old(pm.frames.pages), a, flags, r, p, pm.tab, pm.frames.pages)
  {
    p := 0;
    var mapped := pm.IsMapped(a);
    if mapped {
      return 0, 0;
    }
    r, p := pm.AllocPage(a, flags);
  }
}
