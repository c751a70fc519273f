/** What StepX does with a disabled breakpoint. */
module Deviations {
  import opened Words
  import opened Machine
  import opened Sessions
  import opened Overlap
  import opened Ahead
  import opened Stepping

  /** The debuggee is about to execute a planted breakpoint that is disabled. */
  ghost predicate AtDisabled(s: Session) {
    && s.proc.Alive? && !s.proc.core.inKernel
    && var a := s.proc.core.regs.rip;
      At(s.mem, a) == INT3 && Listed(s.table, a) && !s.table[FindAddress(s.table, a)].enabled
  }

  /** The session when its trap has been waited for. */
  function Trapped(s: Session): Session
    requires s.proc.Alive?
  {
    var regs := s.proc.core.regs.(rip := s.proc.core.regs.rip + 1);
    s.(proc := Alive(s.proc.core.(regs := regs)), regs := regs)
  }

  lemma DisabledTurn(cpu: Cpu, s: Session, i: nat, x: int)
    requires AtDisabled(s) && x == s.proc.core.regs.rip + 1 - i
    ensures var a := s.proc.core.regs.rip;
      StepRound(cpu, s, i) == Again(Restore(cpu, Trapped(s), s.table[FindAddress(s.table, a)].origdata, x).0)
  {
    StepRoundIs(cpu, s, Trapped(s), i);
  }

  /** A disabled breakpoint met in round i is handled at x = rip - i, one byte past its address less i: its saved
      word goes there, and the debuggee is stepped from there. Only in the second round, i being 1, is that its own
      address. */
  lemma DisabledRound(cpu: Cpu, s: Session, i: nat, x: int)
    requires AtDisabled(s) && x == s.proc.core.regs.rip + 1 - i && Mapped(s.mem, x)
    ensures var a, r := s.proc.core.regs.rip, StepRound(cpu, s, i);
      r.Again? && HandledAt(cpu, s, a, x, r.s) && (HandledAt(cpu, s, a, a, r.s) <==> i == 1)
  {
    DisabledTurn(cpu, s, i, x);
    RestoreHandles(cpu, s, x, StepRound(cpu, s, i));
  }

  /** From session s, the breakpoint at address a has been handled at address x: the word that is looked up for a
      is written there, and the debuggee, otherwise as it was, is stepped from there. */
  ghost predicate HandledAt(cpu: Cpu, s: Session, a: int, x: int, s': Session)
    requires s.proc.Alive?
  {
    && Listed(s.table, a) && Mapped(s.mem, x)
    && s'.mem == Poke(s.mem, x, s.table[FindAddress(s.table, a)].origdata) && s'.table == s.table
    && s'.regs.rip == x && s'.restored == s.restored + [x]
    && s'.proc == ProcOf(SingleStep(cpu, s'.mem, s.proc.core.(regs := s.proc.core.regs.(rip := x))))
  }

  lemma RestoreHandles(cpu: Cpu, s: Session, x: int, r: Round)
    requires s.proc.Alive? && Listed(s.table, s.proc.core.regs.rip) && Mapped(s.mem, x)
    requires var a := s.proc.core.regs.rip;
      r == Again(Restore(cpu, Trapped(s), s.table[FindAddress(s.table, a)].origdata, x).0)
    ensures var a := s.proc.core.regs.rip;
      r.Again? && HandledAt(cpu, s, a, x, r.s) && (HandledAt(cpu, s, a, a, r.s) <==> x == a)
  {
    RestoreIs(cpu, Trapped(s), s.table[FindAddress(s.table, s.proc.core.regs.rip)].origdata, x);
  }

  /** Where no word is mapped at rip - i, nothing is written and no step made: the debuggee is left one byte past
      its int3. */
  lemma DisabledUnmapped(cpu: Cpu, s: Session, i: nat)
    requires AtDisabled(s) && !Mapped(s.mem, s.proc.core.regs.rip + 1 - i)
    ensures var r := StepRound(cpu, s, i); r.Again? && r.s.mem == s.mem && r.s.proc == Trapped(s).proc
  {
    DisabledTurn(cpu, s, i, s.proc.core.regs.rip + 1 - i);
  }

  /** In the second round one instruction is executed. */
  lemma DisabledSecondRound(p: Program, s: Session, n: nat)
    requires Assumed(p) && Shows(p, s, n) && s.proc.Alive?
    requires PlantedAt(p, s.mem, s.table, n) && !StopPoint(p, s.mem, s.table, n)
    ensures Shows(p, StepRound(p.cpu, s, 1).s, Advance(p, n))
  {
    var s1 := TrappedAt(p, s, n);
    StepRoundIs(p.cpu, s, s1, 1);
    RestoreFollows(p, s1, n);
    assert StepRound(p.cpu, s, 1).s ==
      Restore(p.cpu, s1, s.table[FindAddress(s.table, s1.regs.rip - 1)].origdata, s1.regs.rip - 1).0;
  }

  /** Handled at address x, the breakpoint leads to position n' of the run. */
  ghost predicate LeadsFrom(p: Program, s: Session, x: int, n': nat)
    requires AtDisabled(s) && Mapped(s.mem, x)
  {
    var a := s.proc.core.regs.rip;
    var m := Poke(s.mem, x, s.table[FindAddress(s.table, a)].origdata);
    && Sound(p, m, s.table)
    && ProcOf(SingleStep(p.cpu, m, s.proc.core.(regs := s.proc.core.regs.(rip := x)))) == RunAt(p, n')
  }

  lemma HandledShows(p: Program, s: Session, x: int, s': Session, n': nat)
    requires AtDisabled(s) && HandledAt(p.cpu, s, s.proc.core.regs.rip, x, s')
    ensures Shows(p, s', n') <==> LeadsFrom(p, s, x, n')
  {
  }

  /** A round that meets a disabled breakpoint is one instruction of the run if and only if it is the second, or
      the instruction at rip - i, once the saved word has gone there, happens to lead to the same place. */
  lemma DisabledRoundIff(p: Program, s: Session, i: nat, x: int, n: nat)
    requires Assumed(p) && Shows(p, s, n) && AtDisabled(s) && x == s.proc.core.regs.rip + 1 - i && Mapped(s.mem, x)
    ensures Shows(p, StepRound(p.cpu, s, i).s, Advance(p, n)) <==> i == 1 || LeadsFrom(p, s, x, Advance(p, n))
  {
    if i == 1 { DisabledSecondRound(p, s, n); }
    DisabledRound(p.cpu, s, i, x);
    HandledShows(p, s, x, StepRound(p.cpu, s, i).s, Advance(p, n));
  }

  /** The byte at rip - i becomes the original byte of the breakpoint's address. */
  lemma DisabledPatched(p: Program, s: Session, i: nat, x: int)
    requires Sound(p, s.mem, s.table) && AtDisabled(s) && x == s.proc.core.regs.rip + 1 - i && Mapped(s.mem, x)
    ensures var a, s' := s.proc.core.regs.rip, StepRound(p.cpu, s, i).s;
      && At(s'.mem, x) == At(p.orig, a)
      && (Patched(p.orig, s'.mem, s.table) ==> At(p.orig, x) == At(p.orig, a))
  {
    FirstSavedOriginal(p, s.mem, s.table, s.proc.core.regs.rip);
    WordOff(p.cpu, p.orig, s, i, x);
  }

  lemma WordOff(cpu: Cpu, orig: Memory, s: Session, i: nat, x: int)
    requires AtDisabled(s) && x == s.proc.core.regs.rip + 1 - i && Mapped(s.mem, x) && s.mem.Keys == orig.Keys
    requires var a := s.proc.core.regs.rip; s.table[FindAddress(s.table, a)].origdata[0] == At(orig, a) != INT3
    ensures var a, s' := s.proc.core.regs.rip, StepRound(cpu, s, i).s;
      && At(s'.mem, x) == At(orig, a)
      && (Patched(orig, s'.mem, s.table) ==> At(orig, x) == At(orig, a))
  {
    var a := s.proc.core.regs.rip;
    DisabledRound(cpu, s, i, x);
    ByteOff(orig, s.mem, s.table, s.table[FindAddress(s.table, a)].origdata, a, x, StepRound(cpu, s, i).s.mem);
  }

  lemma ByteOff(orig: Memory, m: Memory, t: seq<Entry>, w: Word, a: int, x: int, m': Memory)
    requires Mapped(m, x) && m.Keys == orig.Keys && m' == Poke(m, x, w) && w[0] == At(orig, a) != INT3
    ensures At(m', x) == At(orig, a) && (Patched(orig, m', t) ==> At(orig, x) == At(orig, a))
  {
  }

  /** In the first round the instruction at the breakpoint is skipped: the int3 stays, the byte after it is
      overwritten with the original of its own, and the debuggee is stepped from there. The code is still patched
      correctly only if the program has the same byte twice. */
  lemma DisabledFirstRound(p: Program, s: Session)
    requires Sound(p, s.mem, s.table) && AtDisabled(s) && Mapped(s.mem, s.proc.core.regs.rip + 1)
    ensures var a, s' := s.proc.core.regs.rip, StepRound(p.cpu, s, 0).s;
      && At(s'.mem, a) == INT3 && At(s'.mem, a + 1) == At(p.orig, a) && s'.regs.rip == a + 1
      && s'.proc == ProcOf(SingleStep(p.cpu, s'.mem, s.proc.core.(regs := s.proc.core.regs.(rip := a + 1))))
      && (Patched(p.orig, s'.mem, s.table) ==> At(p.orig, a) == At(p.orig, a + 1))
  {
    DisabledRound(p.cpu, s, 0, s.proc.core.regs.rip + 1);
    DisabledPatched(p, s, 0, s.proc.core.regs.rip + 1);
  }
}
