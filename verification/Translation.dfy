/** What the processor makes of the tables in memory (4-level paging, large pages included). */
module Translation {
  import opened PageTables
  import opened TableRights
  import opened KmapSteps

  /** A fault, or a page with the flags of the last entry and the rights that all entries met give. */
  datatype Target = Fault | Page(phys: nat, flags: nat, level: nat, access: Access)

  /** The same page, with no more rights than r gives. */
  function Narrow(x: Target, r: Access): Target
  {
    if x.Fault? then Fault else x.(access := Both(x.access, r))
  }

  /** What the processor makes of a page that is mapped with entry e, if the way to it gives all rights. */
  function Seen(e: Pte): Target
    requires !e.Other?
  {
    if e.To? then Page(e.phys, e.flags, 0, AccessOf(e.flags)) else Fault
  }

  /** What the processor makes of page a, from the level l table t on. */
  ghost function Translate(words: Words, t: nat, a: Key, l: nat): Target
    decreases l
  {
    if t !in words || Index(a, l) >= |words[t]| then Fault
    else
      match Decode(words[t][Index(a, l)])
      case Absent => Fault
      case To(p, f) =>
        if l == 0 || Large(f) then Page(p, f, l, AccessOf(f))
        else Narrow(Translate(words, p, a, l - 1), AccessOf(f))
  }

  lemma NarrowTwice(x: Target, r: Access, s: Access)
    ensures Narrow(Narrow(x, r), s) == Narrow(x, Both(r, s)) == Narrow(x, Both(s, r))
    ensures Narrow(x, ALL) == x
  {
  }
}
