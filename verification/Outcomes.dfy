/** What the return code of ContinueExecution says, for every session, program and sequence of stops. */
module Outcomes {
  import opened Machine
  import opened Sessions

  /** The address of the last breakpoint that was handled. */
  function LastHit(s: Session): int
    requires s.restored != []
  {
    s.restored[|s.restored| - 1]
  }

  ghost predicate Explained(s: Session, systrace: bool, s': Session, st: Status) {
    && s.restored <= s'.restored && s'.table == s.table
    // stopped at a system call, or at what is taken for one: tracing is on and no breakpoint matches
    && (s'.sysStopped <==> st.Ok? && |s'.restored| == |s.restored| + Disabled(s, s'))
    && (s'.sysStopped ==>
          systrace && s'.proc.Alive? && s'.regs == s'.proc.core.regs && !Listed(s.table, s'.regs.rip - 1))
    // otherwise 0 means that the last hit was of an enabled breakpoint, and all before it of disabled ones
    && (st.Ok? && !s'.sysStopped ==>
          && |s'.restored| == |s.restored| + Disabled(s, s') + 1
          && Listed(s.table, LastHit(s')) && s.table[FindAddress(s.table, LastHit(s'))].enabled)
    // an exit is noticed whatever the return code; EXIT_STATUS and -1 come after hits of disabled breakpoints only
    && (s'.running ==> s.running) && (s.proc.Alive? && s'.proc.Exited? ==> !s'.running)
    && (st.Exit? || st.Error? ==> s'.proc.Exited? && |s'.restored| == |s.restored| + Disabled(s, s'))
    && (st.Exit? ==> s.proc.Alive?)
    // -1: ptrace has failed because the process was gone before, or went with the restoring step of the last hit
    && (st.Error? ==> s.proc.Exited? || s.restored != s'.restored)
    && (st.Blocked? ==> s'.proc.Alive?)
  }

  /** How many of the hits handled between two sessions were of disabled breakpoints. */
  ghost function Disabled(s: Session, s': Session): nat
    requires s.restored <= s'.restored
  {
    CountDisabled(s.table, s'.restored[|s.restored|..])
  }

  ghost function CountDisabled(t: seq<Entry>, hits: seq<int>): nat {
    if hits == [] then 0
    else
      var i := FindAddress(t, hits[0]);
      (if i < |t| && !t[i].enabled then 1 else 0) + CountDisabled(t, hits[1..])
  }

  lemma NoHit(s: Session, s': Session)
    requires s'.restored == s.restored
    ensures Disabled(s, s') == 0
  {
  }

  lemma EnabledHit(s: Session, s': Session, a: int)
    requires Listed(s.table, a) && s.table[FindAddress(s.table, a)].enabled && s'.restored == s.restored + [a]
    ensures Disabled(s, s') == 0 && LastHit(s') == a
  {
    assert s'.restored[|s.restored|..] == [a];
    assert CountDisabled(s.table, [a]) == CountDisabled(s.table, [a][1..]);
  }

  /** The log grows by the address of a disabled breakpoint, or not at all. */
  ghost predicate DisabledHitOrNone(s: Session, s': Session) {
    && s'.table == s.table
    && (s'.restored == s.restored ||
        (exists a | Listed(s.table, a) && !s.table[FindAddress(s.table, a)].enabled :: s'.restored == s.restored + [a]))
    && s.proc.Alive? && (s'.running ==> s.running) && (s'.proc.Exited? ==> s'.restored != s.restored && !s'.running)
  }

  ghost predicate TurnFits(s: Session, systrace: bool, turn: Turn) {
    match turn
    case Return(s', st) => Explained(s, systrace, s', st)
    case Recurse(s', left) => DisabledHitOrNone(s, s')
  }

  lemma QuietExplained(cpu: Cpu, s: Session, s1: Session, systrace: bool, stop: Stop, left: nat)
    requires s.proc.Alive? && s1 == s.(proc := s1.proc, sysStopped := false)
    requires (stop.AtExit? <==> s1.proc.Exited?)
    requires stop.NotYet? || stop.AtExit? || !Listed(s.table, s1.proc.core.regs.rip - 1)
    ensures TurnFits(s, systrace, AfterWait(cpu, s1, systrace, stop, left))
  {
  }

  lemma HitExplained(cpu: Cpu, s: Session, s1: Session, systrace: bool, stop: Stop, left: nat)
    requires s.proc.Alive? && s1 == s.(proc := s1.proc, sysStopped := false)
    requires s1.proc.Alive? && (stop.AtTrap? || stop.AtSyscall?)
    requires Listed(s.table, s1.proc.core.regs.rip - 1)
    ensures TurnFits(s, systrace, AfterWait(cpu, s1, systrace, stop, left))
  {
    var turn, a := AfterWait(cpu, s1, systrace, stop, left), s1.proc.core.regs.rip - 1;
    assert turn.s.restored == s.restored + [a] && turn.s.table == s.table && !turn.s.sysStopped;
    if turn.Return? { EnabledHit(s, turn.s, a); }
  }

  lemma TurnExplained(cpu: Cpu, s: Session, systrace: bool, fuel: nat)
    ensures TurnFits(s, systrace, ContinueTurn(cpu, s, systrace, fuel))
  {
    if s.proc.Exited? {
      NoHit(s, s.(sysStopped := false));
    } else {
      var r := Resume(cpu, s.mem, s.proc.core, systrace, fuel);
      var s1 := s.(sysStopped := false, proc := r.1);
      if (r.0.AtTrap? || r.0.AtSyscall?) && Listed(s.table, r.1.core.regs.rip - 1) {
        HitExplained(cpu, s, s1, systrace, r.0, r.2);
      } else {
        QuietExplained(cpu, s, s1, systrace, r.0, r.2);
      }
    }
  }

  /** Every return of ContinueExecution is explained by the stops before it. */
  lemma {:induction false} ContinueExplained(cpu: Cpu, s: Session, systrace: bool, fuel: nat)
    ensures var (s', st) := Continue(cpu, s, systrace, fuel); Explained(s, systrace, s', st)
    decreases fuel
  {
    TurnExplained(cpu, s, systrace, fuel);
    var turn := ContinueTurn(cpu, s, systrace, fuel);
    if turn.Recurse? {
      ContinueExplained(cpu, turn.s, systrace, turn.left);
      var (s', st) := Continue(cpu, turn.s, systrace, turn.left);
      ExplainedLater(s, systrace, turn.s, s', st);
    }
  }

  lemma ExplainedLater(s: Session, systrace: bool, s1: Session, s': Session, st: Status)
    requires DisabledHitOrNone(s, s1) && Explained(s1, systrace, s', st)
    ensures Explained(s, systrace, s', st)
  {
    if s1.restored != s.restored {
      var a :| Listed(s.table, a) && !s.table[FindAddress(s.table, a)].enabled && s1.restored == s.restored + [a];
      assert s'.restored[|s.restored|..] == [a] + s'.restored[|s1.restored|..];
    }
  }
}
