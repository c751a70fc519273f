/** The flags of a session over whole histories: whether the process runs, and whether the debugger has crashed. */
module Flags {
  import opened Words
  import opened Machine
  import opened Sessions
  import opened Numbering

  // ---------- the running flag ----------

  /** The flag is set exactly while there is a process. */
  ghost predicate Truthful(s: Session) {
    s.running <==> s.proc.Alive?
  }

  lemma RestoreTruthful(cpu: Cpu, s: Session, w: Word, a: int)
    requires Truthful(s)
    ensures Truthful(Restore(cpu, s, w, a).0)
  {
  }

  lemma TurnTruthful(cpu: Cpu, s: Session, systrace: bool, fuel: nat)
    requires Truthful(s)
    ensures Truthful(ContinueTurn(cpu, s, systrace, fuel).s)
  {
  }

  /** A hit leaves the flag set, and every exit clears it, whichever step brings it about. */
  lemma {:induction false} ContinueTruthful(cpu: Cpu, s: Session, systrace: bool, fuel: nat)
    requires Truthful(s)
    ensures Truthful(Continue(cpu, s, systrace, fuel).0)
    decreases fuel
  {
    TurnTruthful(cpu, s, systrace, fuel);
    var turn := ContinueTurn(cpu, s, systrace, fuel);
    if turn.Recurse? { ContinueTruthful(cpu, turn.s, systrace, turn.left); }
  }

  lemma AutoRoundTruthful(cpu: Cpu, s: Session)
    requires Truthful(s)
    ensures Truthful(AutoRound(cpu, s).s)
  {
  }

  lemma StepRoundTruthful(cpu: Cpu, s: Session, i: nat)
    requires Truthful(s)
    ensures Truthful(StepRound(cpu, s, i).s)
  {
  }

  lemma StepAutoTruthful(cpu: Cpu, s: Session, uninitialised: int, fuel: nat)
    requires Truthful(s)
    ensures Truthful(StepAuto(cpu, s, uninitialised, fuel).0)
  {
    var round, kept := (s0: Session) => AutoRound(cpu, s0), (s0: Session) => Truthful(s0);
    forall s0 | kept(s0) ensures kept(round(s0).s) { AutoRoundTruthful(cpu, s0); }
    AutoLoopKeeps(round, kept, s, uninitialised, fuel);
  }

  lemma StepXTruthful(cpu: Cpu, s: Session, count: int)
    requires Truthful(s)
    ensures Truthful(StepX(cpu, s, count).0)
  {
    var round, fine := (s0: Session, i: nat) => StepRound(cpu, s0, i), (s0: Session, i: nat) => true;
    var kept := (s0: Session) => Truthful(s0);
    AlwaysFine(round, fine, s, 0, count);
    forall s0, i: nat | kept(s0) ensures kept(round(s0, i).s) { StepRoundTruthful(cpu, s0, i); }
    StepLoopKeeps(round, fine, kept, s, 0, count);
  }

  lemma PerformTruthful(cpu: Cpu, systrace: bool, s: Session, c: Command)
    requires Truthful(s)
    ensures Truthful(Perform(cpu, systrace, s, c))
  {
    match c
    case DoPlace(a) =>
    case DoDisable(number) =>
    case DoRemove(number) =>
    case DoContinue(fuel) => ContinueTruthful(cpu, s, systrace, fuel);
    case DoStepAuto(uninitialised, fuel) => StepAutoTruthful(cpu, s, uninitialised, fuel);
    case DoStepX(count) => StepXTruthful(cpu, s, count);
  }

  /** On every processor and through every history, the flag tells whether there is a process. */
  lemma {:induction false} AlwaysTruthful(cpu: Cpu, systrace: bool, s: Session, cs: seq<Command>)
    requires Truthful(s)
    ensures Truthful(PerformAll(cpu, systrace, s, cs))
    decreases |cs|
  {
    if cs != [] {
      PerformTruthful(cpu, systrace, s, cs[0]);
      AlwaysTruthful(cpu, systrace, Perform(cpu, systrace, s, cs[0]), cs[1..]);
    }
  }

  /** A session begins with a live process, the registers it has, no breakpoint, no system call and nothing logged. */
  lemma StartsAs(p: Program)
    ensures var s := Attach(p);
      && s.mem == p.orig && s.proc == Alive(p.start) && s.regs == p.start.regs && s.table == []
      && s.running && !s.sysStopped && s.restored == [] && !s.crashed
  {
  }

  lemma TruthfulFromStart(p: Program, systrace: bool, cs: seq<Command>)
    ensures Truthful(PerformAll(p.cpu, systrace, Attach(p), cs))
  {
    AlwaysTruthful(p.cpu, systrace, Attach(p), cs);
  }

  // ---------- crashes ----------

  lemma {:induction false} ContinueKeepsCrashed(cpu: Cpu, s: Session, systrace: bool, fuel: nat)
    ensures Continue(cpu, s, systrace, fuel).0.crashed == s.crashed
    decreases fuel
  {
    var turn := ContinueTurn(cpu, s, systrace, fuel);
    assert turn.s.crashed == s.crashed;
    if turn.Recurse? { ContinueKeepsCrashed(cpu, turn.s, systrace, turn.left); }
  }

  lemma AutoRoundKeepsCrashed(cpu: Cpu, s: Session)
    ensures AutoRound(cpu, s).s.crashed == s.crashed
  {
  }

  lemma StepRoundKeepsCrashed(cpu: Cpu, s: Session, i: nat)
    ensures StepRound(cpu, s, i).s.crashed == s.crashed
  {
  }

  lemma StepsKeepCrashed(cpu: Cpu, s: Session, uninitialised: int, fuel: nat, count: int)
    ensures StepAuto(cpu, s, uninitialised, fuel).0.crashed == s.crashed
    ensures StepX(cpu, s, count).0.crashed == s.crashed
  {
    var auto, step := (s0: Session) => AutoRound(cpu, s0), (s0: Session, i: nat) => StepRound(cpu, s0, i);
    var kept, fine := (s0: Session) => s0.crashed == s.crashed, (s0: Session, i: nat) => true;
    forall s0 | kept(s0) ensures kept(auto(s0).s) { AutoRoundKeepsCrashed(cpu, s0); }
    AutoLoopKeeps(auto, kept, s, uninitialised, fuel);
    AlwaysFine(step, fine, s, 0, count);
    forall s0, i: nat | kept(s0) ensures kept(step(s0, i).s) { StepRoundKeepsCrashed(cpu, s0, i); }
    StepLoopKeeps(step, fine, kept, s, 0, count);
  }

  /** A number is to be disabled that no entry within reach has. */
  ghost predicate Unknown(s: Session, c: Command) {
    c.DoDisable? && (c.number > |s.table| || forall i | 0 <= i < |s.table| :: s.table[i].number != c.number)
  }

  lemma PerformCrashesIff(cpu: Cpu, systrace: bool, s: Session, c: Command)
    ensures Perform(cpu, systrace, s, c).crashed <==> s.crashed || Unknown(s, c)
  {
    if s.crashed { return; }
    match c
    case DoPlace(a) =>
    case DoDisable(number) => DisableCrashesIff(s, number);
    case DoRemove(number) =>
    case DoContinue(fuel) => ContinueKeepsCrashed(cpu, s, systrace, fuel);
    case DoStepAuto(uninitialised, fuel) => StepsKeepCrashed(cpu, s, uninitialised, fuel, 0);
    case DoStepX(count) => StepsKeepCrashed(cpu, s, 0, 0, count);
  }

  ghost predicate EverUnknown(cpu: Cpu, systrace: bool, s: Session, cs: seq<Command>)
    decreases |cs|
  {
    cs != [] && (Unknown(s, cs[0]) || EverUnknown(cpu, systrace, Perform(cpu, systrace, s, cs[0]), cs[1..]))
  }

  /** A history crashes the debugger if and only if it disables an unknown number. */
  lemma {:induction false} CrashesIff(cpu: Cpu, systrace: bool, s: Session, cs: seq<Command>)
    requires !s.crashed
    ensures PerformAll(cpu, systrace, s, cs).crashed <==> EverUnknown(cpu, systrace, s, cs)
    decreases |cs|
  {
    if cs != [] {
      PerformCrashesIff(cpu, systrace, s, cs[0]);
      var s' := Perform(cpu, systrace, s, cs[0]);
      if s'.crashed { CrashedForGood(cpu, systrace, s', cs[1..]); } else { CrashesIff(cpu, systrace, s', cs[1..]); }
    }
  }
}
