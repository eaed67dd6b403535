/**
 Spinlocks and nested interrupt disabling as a step protocol of any number of CPUs. A CPU runs
 its base code and, when interrupts are enabled, may at any step be interrupted by a handler,
 which runs with interrupts disabled until it returns.
 */
module Locks {

  /** A section entered with arch_spin_lock_irqsave: the lock and the saved interrupt flag. */
  datatype Section = Section(lock: nat, flags: bool)

  /** Where the code of one context is. */
  datatype Pc =
    | Running                              // ordinary code, inside its sections if it has any
    | Saved(lock: nat, flags: bool)        // irq_save: flags read
    | Counted(lock: nat, flags: bool)      // irq_disable: depth incremented
    | Trying(lock: nat, flags: bool)       // arch_spin_lock: at the compare-and-exchange
    | Waiting(lock: nat, flags: bool)      // arch_spin_lock: spinning on the lock word
    | Releasing(flags: bool)               // arch_spin_unlock: lock word cleared
    | Restoring(flags: bool)               // irq_restore: depth decremented

  datatype Context = Context(pc: Pc, sections: seq<Section>)

  datatype Option<T> = None | Some(value: T)

  /** enabled is the CPU's interrupt flag, depth its nesting depth, plain the locks it holds
      without having saved the flag. chosen is the value the flag was last given outside all
      sections. */
  datatype Cpu = Cpu(base: Context, handler: Option<Context>, enabled: bool, depth: nat, chosen: bool,
                     plain: multiset<nat>)

  /** `holder` records which CPU, if any, took each lock. */
  datatype System = System(cpus: seq<Cpu>, words: seq<nat>, holder: seq<Option<nat>>)

  const IDLE: Context := Context(Running, [])

  function Top(c: Cpu): Context
  {
    if c.handler.Some? then c.handler.value else c.base
  }

  function WithTop(c: Cpu, t: Context): Cpu
  {
    if c.handler.Some? then c.(handler := Some(t)) else c.(base := t)
  }

  // ---------------------------------------------------------------- steps of one CPU

  datatype Step =
    | SetFlag(b: bool)     // ordinary code enables or disables interrupts outside all sections
    | Interrupt | Return   // a handler starts or returns
    | ReadFlags(lock: nat) | Count | Disable
    | Acquire | Fail | Spin
    | Unlock | Uncount | Enable
    | Take(lock: nat) | Refuse(lock: nat) | Drop(lock: nat)   // arch_spin_lock or trylock alone

  /** The step of one CPU; the lock word it meets and leaves are w and w'. */
  ghost predicate CpuStep(c: Cpu, w: nat, step: Step, c': Cpu, w': nat)
  {
    var t := Top(c);
    match step
    case SetFlag(b) =>
      c.handler.None? && c.base == IDLE && w' == w && c' == c.(enabled := b, chosen := b)
    case Interrupt =>
      c.enabled && c.handler.None? && w' == w && c' == c.(handler := Some(IDLE), enabled := false)
    case Return =>
      c.handler == Some(IDLE) && w' == w && c' == c.(handler := None, enabled := true)
    case ReadFlags(l) =>
      t.pc == Running && w' == w && c' == WithTop(c, t.(pc := Saved(l, c.enabled)))
    case Count =>
      t.pc.Saved? && w' == w && c' == WithTop(c, t.(pc := Counted(t.pc.lock, t.pc.flags))).(depth := c.depth + 1)
    case Disable =>
      && t.pc.Counted? && w' == w
      && c' == WithTop(c, t.(pc := Trying(t.pc.lock, t.pc.flags)))
               .(enabled := if c.depth == 1 then false else c.enabled)
    case Acquire =>
      && t.pc.Trying? && w == 0 && w' == 1
      && c' == WithTop(c, Context(Running, t.sections + [Section(t.pc.lock, t.pc.flags)]))
    case Fail =>   // the word is taken, or the weak compare-and-exchange fails spuriously
      t.pc.Trying? && w' == w && c' == WithTop(c, t.(pc := Waiting(t.pc.lock, t.pc.flags)))
    case Spin =>
      && t.pc.Waiting? && w' == w
      && c' == if w == 0 then WithTop(c, t.(pc := Trying(t.pc.lock, t.pc.flags))) else c
    case Unlock =>
      && t.pc == Running && t.sections != [] && w' == 0
      && c' == WithTop(c, Context(Releasing(Last(t.sections).flags), t.sections[..|t.sections| - 1]))
    case Uncount =>
      && t.pc.Releasing? && w' == w
      && c' == WithTop(c, t.(pc := Restoring(t.pc.flags))).(depth := if c.depth > 0 then c.depth - 1 else 0)
    case Enable =>
      && t.pc.Restoring? && w' == w
      && c' == WithTop(c, t.(pc := Running)).(enabled := if t.pc.flags && c.depth == 0 then true else c.enabled)
    case Take(l) =>
      t.pc == Running && w == 0 && w' == 1 && c' == c.(plain := c.plain + multiset{l})
    case Refuse(l) =>   // the strong compare-and-exchange fails only when the word is taken
      t.pc == Running && w != 0 && w' == w && c' == c
    case Drop(l) =>
      t.pc == Running && l in c.plain && w' == 0 && c' == c.(plain := c.plain - multiset{l})
  }

  function Last(s: seq<Section>): Section
    requires s != []
  {
    s[|s| - 1]
  }

  /** The lock whose word a step reads or writes, if any. */
  function LockOf(c: Cpu, step: Step): Option<nat>
  {
    var t := Top(c);
    match step
    case Acquire => if t.pc.Trying? then Some(t.pc.lock) else None
    case Fail => if t.pc.Trying? then Some(t.pc.lock) else None
    case Spin => if t.pc.Waiting? then Some(t.pc.lock) else None
    case Unlock => if t.sections != [] then Some(Last(t.sections).lock) else None
    case Take(l) => Some(l)
    case Refuse(l) => Some(l)
    case Drop(l) => Some(l)
    case _ => None
  }

  /** The step takes, or gives back, the lock it is about. */
  predicate Takes(step: Step) { step.Acquire? || step.Take? }
  predicate Gives(step: Step) { step.Unlock? || step.Drop? }

  /** One CPU takes a step; everything else stays. */
  ghost predicate Next(s: System, s': System)
  {
    exists i: nat, step: Step :: i < |s.cpus| && StepOf(s, i, step, s')
  }

  ghost predicate StepOf(s: System, i: nat, step: Step, s': System)
    requires i < |s.cpus|
  {
    var l := LockOf(s.cpus[i], step);
    && |s'.cpus| == |s.cpus| && s'.cpus == s.cpus[i := s'.cpus[i]]
    && if l.Some? then
         && l.value < |s.words| && l.value < |s.holder| && |s'.words| == |s.words|
         && s'.words == s.words[l.value := s'.words[l.value]]
         && CpuStep(s.cpus[i], s.words[l.value], step, s'.cpus[i], s'.words[l.value])
         && s'.holder == (if Takes(step) then s.holder[l.value := Some(i)]
                          else if Gives(step) then s.holder[l.value := None] else s.holder)
       else
         s'.words == s.words && s'.holder == s.holder && CpuStep(s.cpus[i], 0, step, s'.cpus[i], 0)
  }

  /** Any number of CPUs and locks; every CPU is outside all sections. */
  ghost predicate Init(s: System)
  {
    && |s.holder| == |s.words|
    && (forall l: nat :: l < |s.words| ==> s.words[l] == 0 && s.holder[l] == None)
    && (forall i: nat :: i < |s.cpus| ==>
          s.cpus[i] == Cpu(IDLE, None, s.cpus[i].enabled, 0, s.cpus[i].enabled, multiset{}))
  }

  // ---------------------------------------------------------------- what a CPU keeps

  /** The context has incremented the depth for the section it is entering or leaving. */
  predicate InFlight(t: Context)
  {
    t.pc.Counted? || t.pc.Trying? || t.pc.Waiting? || t.pc.Releasing?
  }

  function Nesting(t: Context): nat
  {
    |t.sections| + if InFlight(t) then 1 else 0
  }

  /** Inside a section, or past the point where interrupts are disabled for one. */
  predicate Critical(t: Context)
  {
    t.sections != [] || t.pc.Trying? || t.pc.Waiting? || t.pc.Releasing? || t.pc.Restoring?
  }

  /** The saved flag of the section being entered or left, if any. */
  predicate HasFlags(t: Context)
  {
    !t.pc.Running?
  }

  /** Only the outermost section of the base code has saved anything but a cleared flag. */
  ghost predicate FlagsOk(t: Context, outer: bool)
  {
    && (forall j: nat :: j < |t.sections| ==> t.sections[j].flags == if j == 0 then outer else false)
    && (HasFlags(t) ==> t.pc.flags == if t.sections == [] then outer else false)
  }

  ghost predicate CpuInv(c: Cpu)
  {
    && c.depth == Nesting(c.base) + (if c.handler.Some? then Nesting(c.handler.value) else 0)
    && FlagsOk(c.base, c.chosen)
    && (c.handler.Some? ==> FlagsOk(c.handler.value, false) && !c.enabled && c.chosen && !Critical(c.base))
    && (c.handler.None? ==> c.enabled == (c.chosen && !Critical(c.base)))
  }

  lemma BaseStepInv(c: Cpu, w: nat, step: Step, c': Cpu, w': nat)
    requires CpuInv(c) && CpuStep(c, w, step, c', w') && c.handler.None?
    ensures CpuInv(c')
  {
  }

  lemma HandlerStepInv(c: Cpu, w: nat, step: Step, c': Cpu, w': nat)
    requires CpuInv(c) && CpuStep(c, w, step, c', w') && c.handler.Some?
    ensures CpuInv(c')
  {
  }

  lemma CpuStepInv(c: Cpu, w: nat, step: Step, c': Cpu, w': nat)
    requires CpuInv(c) && CpuStep(c, w, step, c', w')
    ensures CpuInv(c')
  {
    if c.handler.None? {
      BaseStepInv(c, w, step, c', w');
    } else {
      HandlerStepInv(c, w, step, c', w');
    }
  }

  // ---------------------------------------------------------------- what the system keeps

  function CountIn(ss: seq<Section>, l: nat): nat
  {
    if ss == [] then 0 else CountIn(ss[..|ss| - 1], l) + if Last(ss).lock == l then 1 else 0
  }

  /** How many times the CPU holds lock l. */
  function HoldCount(c: Cpu, l: nat): nat
  {
    c.plain[l] + CountIn(c.base.sections, l) + if c.handler.Some? then CountIn(c.handler.value.sections, l) else 0
  }

  /** What the sections of a CPU contribute changes by the sections of its top context. */
  lemma TopCount(c: Cpu, t: Context, l: nat)
    ensures HoldCount(WithTop(c, t), l) == HoldCount(c, l) - CountIn(Top(c).sections, l) + CountIn(t.sections, l)
  {
  }

  /** Only taking and giving back change what a CPU holds, by one. */
  lemma HoldCountStep(c: Cpu, w: nat, step: Step, c': Cpu, w': nat, l: nat)
    requires CpuStep(c, w, step, c', w')
    ensures HoldCount(c', l) == HoldCount(c, l)
              + (if Takes(step) && LockOf(c, step) == Some(l) then 1 else 0)
              - (if Gives(step) && LockOf(c, step) == Some(l) then 1 else 0)
  {
    var t := Top(c);
    if step.Acquire? {
      var t' := Context(Running, t.sections + [Section(t.pc.lock, t.pc.flags)]);
      TopCount(c, t', l);
      assert t'.sections[..|t.sections|] == t.sections;
    } else if step.Unlock? {
      TopCount(c, Context(Releasing(Last(t.sections).flags), t.sections[..|t.sections| - 1]), l);
    } else {
      OtherHoldCount(c, w, step, c', w', l);
    }
  }

  lemma OtherHoldCount(c: Cpu, w: nat, step: Step, c': Cpu, w': nat, l: nat)
    requires CpuStep(c, w, step, c', w') && !step.Acquire? && !step.Unlock?
    ensures HoldCount(c', l) == HoldCount(c, l)
              + (if step.Take? && step.lock == l then 1 else 0) - (if step.Drop? && step.lock == l then 1 else 0)
  {
  }

  /** The lock words and the record of holders agree with the CPUs' sections. */
  ghost predicate LocksInv(s: System)
  {
    && |s.holder| == |s.words|
    && (forall l: nat :: l < |s.words| ==> s.words[l] == if s.holder[l].Some? then 1 else 0)
    && (forall l: nat :: l < |s.words| && s.holder[l].Some? ==> s.holder[l].value < |s.cpus|)
    && (forall i: nat, l: nat :: i < |s.cpus| && l < |s.words| ==>
          HoldCount(s.cpus[i], l) == if s.holder[l] == Some(i) then 1 else 0)
  }

  ghost predicate SystemInv(s: System)
  {
    LocksInv(s) && forall i: nat :: i < |s.cpus| ==> CpuInv(s.cpus[i])
  }

  lemma InitInv(s: System)
    requires Init(s)
    ensures SystemInv(s)
  {
    forall i: nat | i < |s.cpus| ensures CpuInv(s.cpus[i]) {
      assert s.cpus[i].base == IDLE;
    }
  }

  lemma StepCpus(s: System, i: nat, step: Step, s': System)
    requires SystemInv(s) && i < |s.cpus| && StepOf(s, i, step, s')
    ensures forall j: nat :: j < |s'.cpus| ==> CpuInv(s'.cpus[j])
  {
    var l := LockOf(s.cpus[i], step);
    if l.Some? {
      CpuStepInv(s.cpus[i], s.words[l.value], step, s'.cpus[i], s'.words[l.value]);
    } else {
      CpuStepInv(s.cpus[i], 0, step, s'.cpus[i], 0);
    }
    assert forall j: nat :: j < |s.cpus| && j != i ==> s'.cpus[j] == s.cpus[j];
  }

  lemma StepHolds(s: System, i: nat, step: Step, s': System, k: nat)
    requires SystemInv(s) && i < |s.cpus| && StepOf(s, i, step, s') && k < |s.words|
    ensures HoldCount(s'.cpus[i], k) == if s'.holder[k] == Some(i) then 1 else 0
    ensures s'.words[k] == if s'.holder[k].Some? then 1 else 0
  {
    var l := LockOf(s.cpus[i], step);
    if l.Some? {
      HoldCountStep(s.cpus[i], s.words[l.value], step, s'.cpus[i], s'.words[l.value], k);
      HoldCountStep(s.cpus[i], s.words[l.value], step, s'.cpus[i], s'.words[l.value], l.value);
    } else {
      HoldCountStep(s.cpus[i], 0, step, s'.cpus[i], 0, k);
    }
  }

  /** A lock that another CPU holds is neither taken nor given back. */
  lemma OthersKeep(s: System, i: nat, step: Step, s': System, j: nat, k: nat)
    requires SystemInv(s) && i < |s.cpus| && StepOf(s, i, step, s') && k < |s.words| && j < |s.cpus| && j != i
    ensures s'.holder[k] == Some(j) <==> s.holder[k] == Some(j)
  {
    var l := LockOf(s.cpus[i], step);
    if l.Some? {
      HoldCountStep(s.cpus[i], s.words[l.value], step, s'.cpus[i], s'.words[l.value], l.value);
    }
  }

  lemma StepLocks(s: System, i: nat, step: Step, s': System)
    requires SystemInv(s) && i < |s.cpus| && StepOf(s, i, step, s')
    ensures LocksInv(s')
  {
    assert forall j: nat :: j < |s.cpus| && j != i ==> s'.cpus[j] == s.cpus[j];
    forall k: nat | k < |s.words|
      ensures HoldCount(s'.cpus[i], k) == if s'.holder[k] == Some(i) then 1 else 0
      ensures s'.words[k] == if s'.holder[k].Some? then 1 else 0
    {
      StepHolds(s, i, step, s', k);
    }
    forall j: nat, k: nat | j < |s.cpus| && k < |s.words| && j != i
      ensures s'.holder[k] == Some(j) <==> s.holder[k] == Some(j)
    {
      OthersKeep(s, i, step, s', j, k);
    }
  }

  /** Every step of every CPU keeps the invariant. */
  lemma NextInv(s: System, s': System)
    requires SystemInv(s) && Next(s, s')
    ensures SystemInv(s')
  {
    var i: nat, step :| i < |s.cpus| && StepOf(s, i, step, s');
    StepCpus(s, i, step, s');
    StepLocks(s, i, step, s');
  }

  // ---------------------------------------------------------------- runs

  ghost predicate Run(run: seq<System>)
  {
    && run != [] && Init(run[0])
    && forall n: nat :: n + 1 < |run| ==> Next(run[n], run[n + 1])
  }

  lemma {:induction false} RunInv(run: seq<System>, n: nat)
    requires Run(run) && n < |run|
    ensures SystemInv(run[n])
  {
    if n == 0 {
      InitInv(run[0]);
    } else {
      RunInv(run, n - 1);
      NextInv(run[n - 1], run[n]);
    }
  }

  predicate Holds(t: Context, l: nat)
  {
    exists j: nat :: j < |t.sections| && t.sections[j].lock == l
  }

  predicate CpuHolds(c: Cpu, l: nat)
  {
    l in c.plain || Holds(c.base, l) || (c.handler.Some? && Holds(c.handler.value, l))
  }

  lemma {:induction false} CountIsHolding(ss: seq<Section>, l: nat)
    ensures CountIn(ss, l) > 0 <==> exists j: nat :: j < |ss| && ss[j].lock == l
  {
    if ss != [] {
      CountIsHolding(ss[..|ss| - 1], l);
      assert Last(ss).lock == ss[|ss| - 1].lock;
    }
  }

  lemma {:induction false} CountTwice(ss: seq<Section>, l: nat, j: nat, k: nat)
    requires j < k < |ss| && ss[j].lock == l && ss[k].lock == l
    ensures CountIn(ss, l) >= 2
  {
    if k < |ss| - 1 {
      CountTwice(ss[..|ss| - 1], l, j, k);
    } else {
      CountIsHolding(ss[..|ss| - 1], l);
      assert ss[..|ss| - 1][j].lock == l;
    }
  }

  lemma HoldingIsCount(c: Cpu, l: nat)
    ensures CpuHolds(c, l) <==> HoldCount(c, l) > 0
  {
    CountIsHolding(c.base.sections, l);
    if c.handler.Some? { CountIsHolding(c.handler.value.sections, l); }
  }

  /** Mutual exclusion over every run: at most one CPU holds a lock, in at most one section, and
      the lock word is 1 exactly when one does and 0 otherwise. */
  lemma MutualExclusion(run: seq<System>, n: nat, l: nat)
    requires Run(run) && n < |run| && l < |run[n].words|
    ensures var s := run[n];
      && (forall i: nat, j: nat ::
            i < |s.cpus| && j < |s.cpus| && CpuHolds(s.cpus[i], l) && CpuHolds(s.cpus[j], l) ==> i == j)
      && (s.words[l] == 1 <==> exists i: nat :: i < |s.cpus| && CpuHolds(s.cpus[i], l))
      && (s.words[l] == 0 || s.words[l] == 1)
      && (forall i: nat :: i < |s.cpus| ==> HoldCount(s.cpus[i], l) <= 1)
      && (forall i: nat, j: nat, k: nat {:trigger s.cpus[i].base.sections[j], s.cpus[i].base.sections[k]} ::
            i < |s.cpus| && j < k < |s.cpus[i].base.sections| && s.cpus[i].base.sections[j].lock == l ==>
            s.cpus[i].base.sections[k].lock != l)
  {
    RunInv(run, n);
    var s := run[n];
    forall i: nat | i < |s.cpus| ensures CpuHolds(s.cpus[i], l) <==> s.holder[l] == Some(i) {
      HoldingIsCount(s.cpus[i], l);
    }
    forall i: nat, j: nat, k: nat
      | i < |s.cpus| && j < k < |s.cpus[i].base.sections| && s.cpus[i].base.sections[j].lock == l
      ensures s.cpus[i].base.sections[k].lock != l
    {
      if s.cpus[i].base.sections[k].lock == l { CountTwice(s.cpus[i].base.sections, l, j, k); }
    }
  }

  /** Interrupts over every run: a CPU inside any section, or waiting for its lock, has interrupts
      disabled; outside all sections its base code finds the flag as it was last set there, with
      the depth back at zero; and a handler never finds the base code inside a section. */
  lemma InterruptsOff(run: seq<System>, n: nat, i: nat)
    requires Run(run) && n < |run| && i < |run[n].cpus|
    ensures var c := run[n].cpus[i];
      && (Top(c).sections != [] || Top(c).pc.Trying? || Top(c).pc.Waiting? ==> !c.enabled)
      && (c.handler.None? && c.base == IDLE ==> c.enabled == c.chosen && c.depth == 0)
      && (c.handler.Some? ==> c.base.sections == [] && !c.enabled)
  {
    RunInv(run, n);
  }

  /** Only code outside all sections chooses the flag. */
  lemma ChosenOutside(s: System, s': System, i: nat)
    requires Next(s, s') && i < |s.cpus| && i < |s'.cpus| && s'.cpus[i].chosen != s.cpus[i].chosen
    ensures s.cpus[i].handler.None? && s.cpus[i].base == IDLE
  {
    var j: nat, step :| j < |s.cpus| && StepOf(s, j, step, s');
  }

  // ---------------------------------------------------------------- what can be done

  /** The system after CPU i became c and left w in the word of lock l. */
  function Moved(s: System, i: nat, c: Cpu, l: nat, w: nat, holder: Option<nat>): System
    requires i < |s.cpus| && l < |s.words| && l < |s.holder|
  {
    System(s.cpus[i := c], s.words[l := w], s.holder[l := holder])
  }

  /** A waiting CPU whose lock word is 0 can take the lock by two steps of its own. */
  lemma WaiterCanTake(s: System, i: nat) returns (s1: System, s2: System)
    requires i < |s.cpus| && Top(s.cpus[i]).pc.Waiting? && |s.holder| == |s.words|
    requires var l := Top(s.cpus[i]).pc.lock; l < |s.words| && s.words[l] == 0
    ensures StepOf(s, i, Spin, s1) && i < |s1.cpus| && StepOf(s1, i, Acquire, s2)
    ensures var l := Top(s.cpus[i]).pc.lock;
      i < |s2.cpus| && l < |s2.words| && s2.words[l] == 1 && CpuHolds(s2.cpus[i], l)
  {
    var c := s.cpus[i];
    var t := Top(c);
    var l, flags := t.pc.lock, t.pc.flags;
    var c1 := WithTop(c, t.(pc := Trying(l, flags)));
    s1 := Moved(s, i, c1, l, 0, s.holder[l]);
    var t2 := Context(Running, t.sections + [Section(l, flags)]);
    s2 := Moved(s1, i, WithTop(c1, t2), l, 1, Some(i));
    assert t2.sections[|t.sections|].lock == l;
    assert s1.words == s.words && s1.holder == s.holder;
  }

  /** A CPU that waits for a lock whose word is not 0 stays where it is. */
  lemma WaiterWaits(s: System, i: nat, s': System)
    requires i < |s.cpus| && Top(s.cpus[i]).pc.Waiting? && StepOf(s, i, Spin, s')
    ensures var l := Top(s.cpus[i]).pc.lock; l < |s.words| && (s.words[l] != 0 ==> s' == s)
  {
  }

  ghost predicate CanStep(s: System, i: nat, step: Step)
    requires i < |s.cpus|
  {
    exists s' :: StepOf(s, i, step, s')
  }

  /** Of the two outcomes of a trylock, taking the lock is possible exactly if its word is 0, and being
      refused exactly if it is not. */
  lemma TryLock(s: System, i: nat, l: nat)
    requires i < |s.cpus| && Top(s.cpus[i]).pc == Running && l < |s.words| && |s.holder| == |s.words|
    ensures CanStep(s, i, Take(l)) <==> s.words[l] == 0
    ensures CanStep(s, i, Refuse(l)) <==> s.words[l] != 0
  {
    var c := s.cpus[i];
    if s.words[l] == 0 {
      assert StepOf(s, i, Take(l), Moved(s, i, c.(plain := c.plain + multiset{l}), l, 1, Some(i)));
    } else {
      assert Moved(s, i, c, l, s.words[l], s.holder[l]) == s;
      assert StepOf(s, i, Refuse(l), s);
    }
  }

  /** From ordinary code a CPU comes to hold a free lock by four steps of its own, and by three more
      it is back with the lock free again and its interrupt flag and depth as they were. */
  lemma InAndOut(s: System, i: nat, l: nat) returns (run: seq<System>, steps: seq<Step>)
    requires i < |s.cpus| && l < |s.words| && s.words[l] == 0 && |s.holder| == |s.words| && s.holder[l] == None
    requires s.cpus[i].handler == None && s.cpus[i].base == IDLE && s.cpus[i].depth == 0
    ensures |run| == 8 && |steps| == 7 && run[0] == s && run[7] == s
    ensures forall j: nat :: j < 7 ==> i < |run[j].cpus| && StepOf(run[j], i, steps[j], run[j + 1])
    ensures i < |run[4].cpus| && CpuHolds(run[4].cpus[i], l) && !run[4].cpus[i].enabled
  {
    var c := s.cpus[i];
    var f := c.enabled;
    var c1 := c.(base := Context(Saved(l, f), []));
    var c2 := c.(base := Context(Counted(l, f), []), depth := 1);
    var c3 := c.(base := Context(Trying(l, f), []), depth := 1, enabled := false);
    var c4 := c3.(base := Context(Running, [Section(l, f)]));
    var c5 := c3.(base := Context(Releasing(f), []));
    var c6 := c3.(base := Context(Restoring(f), []), depth := 0);
    run := [s, s.(cpus := s.cpus[i := c1]), s.(cpus := s.cpus[i := c2]), s.(cpus := s.cpus[i := c3]),
            Moved(s, i, c4, l, 1, Some(i)), s.(cpus := s.cpus[i := c5]), s.(cpus := s.cpus[i := c6]), s];
    steps := [ReadFlags(l), Count, Disable, Acquire, Unlock, Uncount, Enable];
    Entering(s, i, l, c, c1, c2, c3, c4);
    Leaving(s, i, l, c4, c5, c6, f);
    assert [Section(l, f)][0].lock == l;
  }

  lemma Entering(s: System, i: nat, l: nat, c: Cpu, c1: Cpu, c2: Cpu, c3: Cpu, c4: Cpu)
    requires i < |s.cpus| && l < |s.words| && s.words[l] == 0 && |s.holder| == |s.words|
    requires c == s.cpus[i] && c.handler == None && c.base == IDLE && c.depth == 0
    requires c1 == c.(base := Context(Saved(l, c.enabled), []))
    requires c2 == c.(base := Context(Counted(l, c.enabled), []), depth := 1)
    requires c3 == c.(base := Context(Trying(l, c.enabled), []), depth := 1, enabled := false)
    requires c4 == c3.(base := Context(Running, [Section(l, c.enabled)]))
    ensures StepOf(s, i, ReadFlags(l), s.(cpus := s.cpus[i := c1]))
    ensures StepOf(s.(cpus := s.cpus[i := c1]), i, Count, s.(cpus := s.cpus[i := c2]))
    ensures StepOf(s.(cpus := s.cpus[i := c2]), i, Disable, s.(cpus := s.cpus[i := c3]))
    ensures StepOf(s.(cpus := s.cpus[i := c3]), i, Acquire, Moved(s, i, c4, l, 1, Some(i)))
  {
    assert [] + [Section(l, c.enabled)] == [Section(l, c.enabled)];
  }

  lemma Leaving(s: System, i: nat, l: nat, c4: Cpu, c5: Cpu, c6: Cpu, f: bool)
    requires i < |s.cpus| && l < |s.words| && s.words[l] == 0 && |s.holder| == |s.words| && s.holder[l] == None
    requires s.cpus[i].handler == None && s.cpus[i].base == IDLE && s.cpus[i].depth == 0 && s.cpus[i].enabled == f
    requires c4 == s.cpus[i].(base := Context(Running, [Section(l, f)]), depth := 1, enabled := false)
    requires c5 == c4.(base := Context(Releasing(f), [])) && c6 == c4.(base := Context(Restoring(f), []), depth := 0)
    ensures StepOf(Moved(s, i, c4, l, 1, Some(i)), i, Unlock, s.(cpus := s.cpus[i := c5]))
    ensures StepOf(s.(cpus := s.cpus[i := c5]), i, Uncount, s.(cpus := s.cpus[i := c6]))
    ensures StepOf(s.(cpus := s.cpus[i := c6]), i, Enable, s)
  {
    var s4 := Moved(s, i, c4, l, 1, Some(i));
    assert s4.words[l := 0] == s.words && s4.holder[l := None] == s.holder;
    assert [Section(l, f)][..0] == [];
    assert s.cpus[i := c6][i := s.cpus[i]] == s.cpus;
  }
}
