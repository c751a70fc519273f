/** Whole sessions with every command: what keeps the debuggee on the undebugged run throughout. */
module Histories {
  import opened Machine
  import opened Sessions
  import opened Overlap
  import opened Separation
  import opened Stepping
  import opened Deletion
  import opened Numbering

  /** A placement is on an instruction, a deletion of an entry nobody has captured, and stepping tells hits. */
  ghost predicate Safe(p: Program, s: Session, c: Command) {
    match c
    case DoPlace(a) => Placeable(p, a)
    case DoRemove(number) =>
      var i := FindNumber(s.table, number);
      Remove(s, number).0 != s ==> i < |s.table| && NotCaptured(s.table, i)
    case _ => StepTellsHits(p.cpu, s, c)
  }

  ghost predicate AllSafe(p: Program, systrace: bool, s: Session, cs: seq<Command>)
    decreases |cs|
  {
    cs == [] || s.crashed || (Safe(p, s, cs[0]) && AllSafe(p, systrace, Perform(p.cpu, systrace, s, cs[0]), cs[1..]))
  }

  /** A stepping command tells hits in all its rounds. */
  ghost predicate StepTellsHits(cpu: Cpu, s: Session, c: Command) {
    match c
    case DoStepAuto(uninitialised, fuel) => AutoTells(cpu, s, uninitialised, fuel)
    case DoStepX(count) => StepTells(cpu, s, count)
    case _ => true
  }

  ghost predicate StepsTellHits(cpu: Cpu, systrace: bool, s: Session, cs: seq<Command>)
    decreases |cs|
  {
    cs == [] || s.crashed
    || (StepTellsHits(cpu, s, cs[0]) && StepsTellHits(cpu, systrace, Perform(cpu, systrace, s, cs[0]), cs[1..]))
  }

  lemma SafeFollows(p: Program, systrace: bool, s: Session, c: Command, n: nat) returns (n': nat)
    requires Assumed(p) && Shows(p, s, n) && !s.crashed && Safe(p, s, c)
    ensures n <= n' && Shows(p, Perform(p.cpu, systrace, s, c), n')
  {
    n' := n;
    match c
    case DoRemove(number) => if Remove(s, number).0 != s { RemoveSoundIff(p, s, number); }
    case DoStepAuto(uninitialised, fuel) =>
      var rounds := StepAutoFollows(p, s, uninitialised, fuel, n);
      n' := AdvanceBy(p, n, rounds);
    case DoStepX(count) =>
      var steps := StepXFollows(p, s, count, n);
      n' := AdvanceBy(p, n, steps);
    case _ => n' := PerformFollows(p, systrace, s, c, n);
  }

  /** Whatever is placed, disabled, continued, safely stepped and safely deleted, the debuggee stays on the
      undebugged run. */
  lemma {:induction false} SafeTransparency(p: Program, systrace: bool, s: Session, cs: seq<Command>, n: nat)
    requires Assumed(p) && Shows(p, s, n) && AllSafe(p, systrace, s, cs)
    ensures exists n' | n <= n' :: Shows(p, PerformAll(p.cpu, systrace, s, cs), n')
    decreases |cs|
  {
    if cs == [] || s.crashed {
      if s.crashed { CrashedForGood(p.cpu, systrace, s, cs); }
      assert Shows(p, PerformAll(p.cpu, systrace, s, cs), n);
    } else {
      var m := SafeFollows(p, systrace, s, cs[0], n);
      var s' := Perform(p.cpu, systrace, s, cs[0]);
      SafeTransparency(p, systrace, s', cs[1..], m);
      var n' :| m <= n' && Shows(p, PerformAll(p.cpu, systrace, s', cs[1..]), n');
      assert n <= n' && Shows(p, PerformAll(p.cpu, systrace, s, cs), n');
    }
  }

  /** Placing breakpoints a word apart makes every later deletion safe. */
  lemma {:induction false} ApartIsSafe(p: Program, systrace: bool, s: Session, cs: seq<Command>)
    requires Separate(p.orig, s.mem, s.table) && KeepsApart(p.cpu, systrace, s, cs) && PlacesOnInstructions(p, cs)
    requires StepsTellHits(p.cpu, systrace, s, cs)
    ensures AllSafe(p, systrace, s, cs)
    decreases |cs|
  {
    if cs != [] && !s.crashed {
      if cs[0].DoRemove? && Remove(s, cs[0].number).0 != s {
        ApartNotCaptured(s.table, FindNumber(s.table, cs[0].number));
      }
      PerformSeparate(p.cpu, p.orig, systrace, s, cs[0]);
      ApartIsSafe(p, systrace, Perform(p.cpu, systrace, s, cs[0]), cs[1..]);
    }
  }

  lemma PlaceKeepsOrdered(orig: Memory, s: Session, a: int)
    requires Patched(orig, s.mem, s.table) && Ordered(orig, s.table)
    ensures Ordered(orig, Place(s, a).0.table)
  {
    if s.proc.Alive? && Mapped(s.mem, a) {
      PlaceOrdered(orig, s.mem, s.table, Entry(a, Peek(s.mem, a), |s.table| + 1, true));
    }
  }

  lemma RemoveKeepsOrdered(orig: Memory, s: Session, number: int)
    requires Ordered(orig, s.table) && !InteriorRemoval(s, DoRemove(number)) && !s.crashed
    ensures Ordered(orig, Remove(s, number).0.table)
  {
    RemoveErases(s, number);
    OrderedWithoutLast(orig, s.table, Remove(s, number).0.table);
  }

  lemma OrderedWithoutLast(orig: Memory, t: seq<Entry>, t': seq<Entry>)
    requires Ordered(orig, t) && (t' == t || (t != [] && t' == Without(t, |t| - 1)))
    ensures Ordered(orig, t')
  {
    if t' != t { LastErasedOrdered(orig, t); }
  }

  lemma PerformOrdered(p: Program, systrace: bool, s: Session, c: Command)
    requires Patched(p.orig, s.mem, s.table) && Ordered(p.orig, s.table) && !InteriorRemoval(s, c) && !s.crashed
    ensures Ordered(p.orig, Perform(p.cpu, systrace, s, c).table)
  {
    match c
    case DoPlace(a) => PlaceKeepsOrdered(p.orig, s, a);
    case DoDisable(number) => RelabelledOrdered(p.orig, s.table, Disable(s, number).table);
    case DoRemove(number) => RemoveKeepsOrdered(p.orig, s, number);
    case _ => RunsKeepTable(p.cpu, systrace, s, c);
  }

  lemma LastIsSafe(p: Program, s: Session, c: Command)
    requires ListedPlaceable(p, s.table) && Ordered(p.orig, s.table)
    requires c.DoRemove? && !InteriorRemoval(s, c) && !s.crashed
    ensures Safe(p, s, c)
  {
    RemoveErases(s, c.number);
    if Remove(s, c.number).0 != s {
      assert Placeable(p, s.table[|s.table| - 1].address);
      LastNotCaptured(p.orig, s.table);
    }
  }

  /** So does deleting in reverse order only, in any layout. */
  lemma {:induction false} LastInFirstOutIsSafe(p: Program, systrace: bool, s: Session, cs: seq<Command>, n: nat)
    requires Assumed(p) && Shows(p, s, n) && Ordered(p.orig, s.table) && !EverInterior(p.cpu, systrace, s, cs)
    requires PlacesOnInstructions(p, cs) && StepsTellHits(p.cpu, systrace, s, cs)
    ensures AllSafe(p, systrace, s, cs)
    decreases |cs|
  {
    if cs != [] && !s.crashed {
      if cs[0].DoRemove? { LastIsSafe(p, s, cs[0]); }
      PerformOrdered(p, systrace, s, cs[0]);
      var m := SafeFollows(p, systrace, s, cs[0], n);
      LastInFirstOutIsSafe(p, systrace, Perform(p.cpu, systrace, s, cs[0]), cs[1..], m);
    }
  }
}
