/** The list of kernel mappings as a value: what splitting, merging, inserting and looking up do to
    the addresses it describes. */
module RegionSpec {
  import opened Bits

  datatype Kind = Code | RoData | Data | Stack | PageTable | PmmPages | SlabPages | Device | Dynamic
  datatype Protection = NoProtection | ReadOnly | Private

  /** What two mappings must have in common to be merged. */
  datatype Props = Props(kind: Kind, pageable: bool, monitor: Protection, flags: nat)

  /** A mapping of [start, end): to frames from base on, or on demand if base is 0. */
  datatype Info = Info(start: nat, end: nat, base: nat, props: Props, refs: int, pages: nat)

  ghost predicate InfoOk(x: Info)
  {
    x.start % PAGE == 0 && x.end % PAGE == 0 && x.start < x.end && x.pages == (x.end - x.start) / PAGE
  }

  predicate Holds(x: Info, addr: nat) { x.start <= addr < x.end }

  /** What is behind an address of a mapping. */
  datatype Backing = OnDemand | Frame(phys: nat)

  function Behind(x: Info, addr: nat): Backing
    requires Holds(x, addr)
  {
    if x.base == 0 then OnDemand else Frame(x.base + (addr - x.start))
  }

  // ---------------------------------------------------------------- looking up

  /** The first mapping from position i on that holds addr, or the length of the list. */
  ghost function Find(v: seq<Info>, addr: nat, i: nat): (j: nat)
    requires i <= |v|
    ensures i <= j <= |v|
    ensures j < |v| ==> Holds(v[j], addr)
    ensures forall h: nat :: i <= h < j ==> !Holds(v[h], addr)
    decreases |v| - i
  {
    if i == |v| || Holds(v[i], addr) then i else Find(v, addr, i + 1)
  }

  /** The result of a lookup is determined by being the first mapping that holds the address. */
  lemma FindUnique(v: seq<Info>, addr: nat, j: nat)
    requires j <= |v| && (j < |v| ==> Holds(v[j], addr)) && forall h: nat :: h < j ==> !Holds(v[h], addr)
    ensures Find(v, addr, 0) == j
  {
  }

  datatype Found = Missing | Here(props: Props, behind: Backing)

  /** What a lookup says about an address. */
  ghost function Described(v: seq<Info>, addr: nat): Found
  {
    var j := Find(v, addr, 0);
    if j == |v| then Missing else Here(v[j].props, Behind(v[j], addr))
  }

  // ---------------------------------------------------------------- splitting

  function Lower(x: Info, s: nat): Info
    requires x.start <= s
  {
    x.(end := s, pages := (s - x.start) / PAGE)
  }

  function UpperHalf(x: Info, s: nat): Info
    requires x.start <= s <= x.end
  {
    Info(s, x.end, x.base + (s - x.start), x.props, 1, (x.end - s) / PAGE)
  }

  predicate CanSplit(x: Info, s: nat)
  {
    s % PAGE == 0 && x.start < s < x.end
  }

  ghost function SplitAt(v: seq<Info>, i: nat, s: nat): (w: seq<Info>)
    requires i < |v| && CanSplit(v[i], s)
    ensures |w| == |v| + 1
    ensures forall h: nat :: h < |w| ==>
      (w[h] == if h < i then v[h]
               else if h == i then Lower(v[i], s)
               else if h == i + 1 then UpperHalf(v[i], s)
               else v[h - 1])
  {
    v[..i] + [Lower(v[i], s), UpperHalf(v[i], s)] + v[i + 1..]
  }

  /** Splitting keeps what is behind every address exactly when the mapping has frames of its own:
      the upper half of a mapping on demand is given frames. */
  lemma SplitBacking(x: Info, s: nat)
    requires CanSplit(x, s)
    ensures (forall addr: nat | Holds(x, addr) ::
               Behind(if addr < s then Lower(x, s) else UpperHalf(x, s), addr) == Behind(x, addr))
       <==> x.base != 0
  {
    assert Holds(x, s) && Holds(UpperHalf(x, s), s);
    assert Behind(UpperHalf(x, s), s) == Frame(x.base + (s - x.start));
    assert x.base == 0 ==> Behind(x, s) == OnDemand;
  }

  /** Where the two halves of position i are found. */
  lemma SplitFind(v: seq<Info>, i: nat, s: nat, addr: nat)
    requires i < |v| && CanSplit(v[i], s)
    ensures var j, w := Find(v, addr, 0), SplitAt(v, i, s);
      Find(w, addr, 0) == if j < i then j else if j == i then (if addr < s then i else i + 1) else j + 1
  {
    var j, w := Find(v, addr, 0), SplitAt(v, i, s);
    assert Holds(v[i], addr) <==> Holds(w[i], addr) || Holds(w[i + 1], addr);
    var j' := if j < i then j else if j == i then (if addr < s then i else i + 1) else j + 1;
    forall h: nat | h < j' ensures !Holds(w[h], addr) {
      assert h > i + 1 ==> w[h] == v[h - 1];
    }
    FindUnique(w, addr, j');
  }

  /** A split changes nothing that a lookup tells, unless it gives frames to pages on demand. */
  lemma SplitDescribes(v: seq<Info>, i: nat, s: nat, addr: nat)
    requires i < |v| && CanSplit(v[i], s)
    ensures Described(SplitAt(v, i, s), addr) == Described(v, addr)
       <==> !(Find(v, addr, 0) == i && s <= addr && v[i].base == 0)
    ensures Described(v, addr).Here? <==> Described(SplitAt(v, i, s), addr).Here?
    ensures Described(v, addr).Here? ==> Described(SplitAt(v, i, s), addr).props == Described(v, addr).props
  {
    SplitFind(v, i, s, addr);
  }

  // ---------------------------------------------------------------- merging

  predicate CanMerge(x: Info, y: Info)
  {
    x.end == y.start && x.props == y.props && x.refs == 1 && y.refs == 1
  }

  function Joined(x: Info, y: Info): Info
  {
    x.(end := y.end, pages := x.pages + y.pages)
  }

  ghost function RemoveAt(v: seq<Info>, j: nat): (w: seq<Info>)
    requires j < |v|
    ensures |w| == |v| - 1 && forall h: nat :: h < |w| ==> w[h] == if h < j then v[h] else v[h + 1]
  {
    v[..j] + v[j + 1..]
  }

  ghost function MergeAt(v: seq<Info>, i: nat, j: nat): (w: seq<Info>)
    requires i < |v| && j < |v| && i != j
  {
    RemoveAt(v[i := Joined(v[i], v[j])], j)
  }

  /** Merging keeps what is behind every address exactly when both are on demand or the frames of
      the second follow those of the first. */
  lemma MergeBacking(x: Info, y: Info)
    requires CanMerge(x, y) && InfoOk(x) && InfoOk(y)
    ensures (forall addr: nat | Holds(Joined(x, y), addr) ::
               Behind(Joined(x, y), addr) == Behind(if addr < x.end then x else y, addr))
       <==> if x.base == 0 then y.base == 0 else y.base == x.base + (x.end - x.start)
  {
    var z := Joined(x, y);
    assert Holds(z, y.start) && Holds(y, y.start);
    assert Behind(y, y.start) == if y.base == 0 then OnDemand else Frame(y.base);
    assert Behind(z, y.start) == if x.base == 0 then OnDemand else Frame(x.base + (x.end - x.start));
  }

  /** No two mappings share an address. */
  ghost predicate Disjoint(v: seq<Info>)
  {
    forall i: nat, j: nat, addr: nat {:trigger Holds(v[i], addr), Holds(v[j], addr)} ::
      i < |v| && j < |v| && Holds(v[i], addr) && Holds(v[j], addr) ==> i == j
  }

  lemma MergeHolds(v: seq<Info>, i: nat, j: nat, addr: nat)
    requires i < |v| && j < |v| && i != j && CanMerge(v[i], v[j]) && InfoOk(v[i]) && InfoOk(v[j])
    ensures Holds(Joined(v[i], v[j]), addr) <==> Holds(v[i], addr) || Holds(v[j], addr)
  {
  }

  /** Among disjoint mappings, merging two changes no lookup but, perhaps, the frames behind the
      addresses of the second. */
  lemma MergeDescribes(v: seq<Info>, i: nat, j: nat, addr: nat)
    requires i < |v| && j < |v| && i != j && CanMerge(v[i], v[j]) && InfoOk(v[i]) && InfoOk(v[j]) && Disjoint(v)
    ensures var w := MergeAt(v, i, j);
      && (Described(w, addr).Here? <==> Described(v, addr).Here?)
      && (Described(v, addr).Here? ==> Described(w, addr).props == Described(v, addr).props)
      && (!Holds(v[j], addr) ==> Described(w, addr) == Described(v, addr))
      && (Holds(v[j], addr) ==> (Described(w, addr) == Described(v, addr)
            <==> if v[i].base == 0 then v[j].base == 0 else v[j].base == v[i].base + (v[i].end - v[i].start)))
  {
    var w, f := MergeAt(v, i, j), Find(v, addr, 0);
    var i' := if i < j then i else i - 1;
    var f' := if f == |v| then |w| else if f == i || f == j then i' else if f < j then f else f - 1;
    MergeHolds(v, i, j, addr);
    assert w[i'] == Joined(v[i], v[j]);
    forall h: nat | h < |w| && h != i' ensures w[h] == v[if h < j then h else h + 1] { }
    forall h: nat | h < f' ensures !Holds(w[h], addr) {
      var g := if h < j then h else h + 1;
      assert h != i' ==> w[h] == v[g] && g != i && g != j;
      assert f < |v| && Holds(v[g], addr) ==> g == f;
    }
    FindUnique(w, addr, f');
  }

  // ---------------------------------------------------------------- splitting and merging

  lemma PagesAdd(x: nat, s: nat, e: nat)
    requires x % PAGE == 0 && s % PAGE == 0 && e % PAGE == 0 && x <= s <= e
    ensures (s - x) / PAGE + (e - s) / PAGE == (e - x) / PAGE
  {
  }

  /** The halves of a split mapping that nobody else holds merge into the mapping they came from. */
  lemma SplitMerge(v: seq<Info>, i: nat, s: nat)
    requires i < |v| && InfoOk(v[i]) && CanSplit(v[i], s)
    ensures var w := SplitAt(v, i, s);
      && (CanMerge(w[i], w[i + 1]) <==> v[i].refs == 1)
      && MergeAt(w, i, i + 1) == v
      && InfoOk(w[i]) && InfoOk(w[i + 1])
  {
    var w := SplitAt(v, i, s);
    PagesAdd(v[i].start, s, v[i].end);
    assert Joined(w[i], w[i + 1]) == v[i];
    var u := MergeAt(w, i, i + 1);
    assert |u| == |v|;
    forall h: nat | h < |v| ensures u[h] == v[h] { }
  }

  /** Splitting a merged mapping where it was joined gives the two back exactly when the frames of
      the second follow those of the first. */
  lemma MergeSplit(v: seq<Info>, i: nat)
    requires i + 1 < |v| && InfoOk(v[i]) && InfoOk(v[i + 1]) && CanMerge(v[i], v[i + 1])
    ensures var w, s := MergeAt(v, i, i + 1), v[i].end;
      && InfoOk(w[i]) && CanSplit(w[i], s)
      && (SplitAt(w, i, s) == v <==> v[i + 1].base == v[i].base + (v[i].end - v[i].start))
  {
    var w, s := MergeAt(v, i, i + 1), v[i].end;
    PagesAdd(v[i].start, s, v[i + 1].end);
    assert w[i] == Joined(v[i], v[i + 1]);
    var u := SplitAt(w, i, s);
    assert |u| == |v|;
    forall h: nat | h < |v| && h != i + 1 ensures u[h] == v[h] { }
    assert u[i + 1] == v[i + 1].(base := v[i].base + (v[i].end - v[i].start));
    assert u == v <==> u[i + 1] == v[i + 1];
  }

  // ---------------------------------------------------------------- inserting

  /** The first mapping from position i on that starts above s, or the length of the list. */
  ghost function FirstAbove(v: seq<Info>, s: nat, i: nat): (j: nat)
    requires i <= |v|
    ensures i <= j <= |v|
    ensures j < |v| ==> s < v[j].start
    ensures forall h: nat :: i <= h < j ==> v[h].start <= s
    decreases |v| - i
  {
    if i == |v| || s < v[i].start then i else FirstAbove(v, s, i + 1)
  }

  /** A new mapping goes behind the first one that starts above it, or else to the end. */
  ghost function Insert(v: seq<Info>, x: Info): (w: seq<Info>)
    ensures |w| == |v| + 1
  {
    var j := FirstAbove(v, x.start, 0);
    if j < |v| then v[..j + 1] + [x] + v[j + 1..] else v + [x]
  }

  ghost predicate Sorted(v: seq<Info>)
  {
    forall i: nat, j: nat :: i < j < |v| ==> v[i].start <= v[j].start
  }

  /** The list stays sorted exactly when no mapping starts above the new one. */
  lemma InsertSorted(v: seq<Info>, x: Info)
    requires Sorted(v)
    ensures Sorted(Insert(v, x)) <==> forall i: nat :: i < |v| ==> v[i].start <= x.start
  {
    var j, w := FirstAbove(v, x.start, 0), Insert(v, x);
    if j < |v| {
      assert w[j] == v[j] && w[j + 1] == x;
    } else {
      assert forall i: nat :: i < |v| ==> w[i] == v[i];
    }
  }

  /** Nothing else changes: without the new mapping, the list is the old one. */
  lemma InsertAdds(v: seq<Info>, x: Info)
    ensures var w := Insert(v, x); exists p: nat :: p < |w| && w[p] == x && RemoveAt(w, p) == v
  {
    var j, w := FirstAbove(v, x.start, 0), Insert(v, x);
    var p := if j < |v| then j + 1 else j;
    var u := RemoveAt(w, p);
    assert w[p] == x && |u| == |v|;
    assert forall h: nat :: h < |v| ==> u[h] == v[h];
    assert u == v;
  }

  /** Mapping [0x1000, 0x2000) after [0x2000, 0x3000) leaves the list out of order. */
  lemma InsertUnsorted(p: Props)
    ensures var v := [Info(0x2000, 0x3000, 0, p, 1, 1)];
      Sorted(v) && !Sorted(Insert(v, Info(0x1000, 0x2000, 0, p, 1, 1)))
  {
    var v := [Info(0x2000, 0x3000, 0, p, 1, 1)];
    InsertSorted(v, Info(0x1000, 0x2000, 0, p, 1, 1));
    assert v[0].start > 0x1000;
  }

  /** Splitting the mapping on demand of [0x1000, 0x3000) in the middle puts frame 0x1000 behind its
      second page. */
  lemma SplitOnDemand(p: Props)
    ensures var v := [Info(0x1000, 0x3000, 0, p, 1, 2)];
      Described(v, 0x2000) == Here(p, OnDemand) && Described(SplitAt(v, 0, 0x2000), 0x2000) == Here(p, Frame(0x1000))
  {
    var v := [Info(0x1000, 0x3000, 0, p, 1, 2)];
    FindUnique(v, 0x2000, 0);
    SplitFind(v, 0, 0x2000, 0x2000);
  }

  /** Two neighbours with frames that do not follow each other: merged, the first address of the
      second has another frame behind it. */
  lemma MergeMovesFrame(p: Props)
    ensures var v := [Info(0x1000, 0x2000, 0x5000, p, 1, 1), Info(0x2000, 0x3000, 0x9000, p, 1, 1)];
      && InfoOk(v[0]) && InfoOk(v[1]) && Disjoint(v) && CanMerge(v[0], v[1])
      && Described(v, 0x2000) == Here(p, Frame(0x9000)) && Described(MergeAt(v, 0, 1), 0x2000) == Here(p, Frame(0x6000))
  {
    var v := [Info(0x1000, 0x2000, 0x5000, p, 1, 1), Info(0x2000, 0x3000, 0x9000, p, 1, 1)];
    FindUnique(v, 0x2000, 1);
    var w := MergeAt(v, 0, 1);
    assert w[0] == Info(0x1000, 0x3000, 0x5000, p, 1, 2);
    FindUnique(w, 0x2000, 0);
  }
}
