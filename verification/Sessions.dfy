/** What each debugger operation does to a debugging session, as functions on its state. */
module Sessions {
  import opened Words
  import opened Machine

  datatype Entry = Entry(address: int, origdata: Word, number: int, enabled: bool)

  /** restored is the log of addresses that RestoreBreakpoint writes, one line a call; crashed: the debugger has
      followed a null pointer and is gone. */
  datatype Session = Session(
    mem: Memory,
    proc: Proc,
    regs: Regs,
    table: seq<Entry>,
    running: bool,
    sysStopped: bool,
    restored: seq<int>,
    crashed: bool)

  /** The return codes 0, EXIT_STATUS and -1; Blocked when the debuggee is still running after the time watched. */
  datatype Status = Ok | Exit | Error | Blocked

  function Attach(p: Program): Session {
    Session(p.orig, Alive(p.start), p.start.regs, [], true, false, [], false)
  }

  // ---------- lookups ----------

  /** The first entry for an address at or after index i, or the size of the table. */
  function FindAddressFrom(t: seq<Entry>, a: int, i: nat): (r: nat)
    requires i <= |t|
    ensures i <= r <= |t|
    ensures forall j | i <= j < r :: t[j].address != a
    ensures r < |t| ==> t[r].address == a
    decreases |t| - i
  {
    if i == |t| || t[i].address == a then i else FindAddressFrom(t, a, i + 1)
  }

  /** The first entry for an address, or the size of the table. */
  function FindAddress(t: seq<Entry>, a: int): (r: nat)
    ensures r <= |t|
  {
    FindAddressFrom(t, a, 0)
  }

  /** The first entry with a number at or after index i, or the size of the table. */
  function FindNumberFrom(t: seq<Entry>, number: int, i: nat): (r: nat)
    requires i <= |t|
    ensures i <= r <= |t|
    ensures forall j | i <= j < r :: t[j].number != number
    ensures r < |t| ==> t[r].number == number
    decreases |t| - i
  {
    if i == |t| || t[i].number == number then i else FindNumberFrom(t, number, i + 1)
  }

  /** The first entry with a number, or the size of the table. */
  function FindNumber(t: seq<Entry>, number: int): (r: nat)
    ensures r <= |t|
  {
    FindNumberFrom(t, number, 0)
  }

  predicate Listed(t: seq<Entry>, a: int) {
    FindAddress(t, a) < |t|
  }

  // ---------- ptrace ----------

  /** PTRACE_PEEKTEXT: on failure the result is -1, all ones in a uint64_t. */
  function PeekText(proc: Proc, m: Memory, a: int): Word {
    if proc.Alive? && Mapped(m, a) then Peek(m, a) else ALL_ONES
  }

  // ---------- the table ----------

  function Append(t: seq<Entry>, address: int, origdata: Word): seq<Entry> {
    t + [Entry(address, origdata, |t| + 1, true)]
  }

  function Without(t: seq<Entry>, i: nat): (t': seq<Entry>)
    requires i < |t|
    ensures |t'| == |t| - 1
    ensures forall j | 0 <= j < |t'| :: t'[j] == if j < i then t[j] else t[j + 1]
  {
    t[..i] + t[i + 1..]
  }

  // ---------- breakpoints ----------

  /** PlaceBreakpoint: a failed peek goes unnoticed (the word is unsigned), the failed poke does not. */
  function Place(s: Session, a: int): (Session, Status) {
    var origdata := PeekText(s.proc, s.mem, a);
    if s.proc.Exited? || !Mapped(s.mem, a) then (s, Error)
    else (s.(mem := Poke(s.mem, a, Plant(origdata)), table := Append(s.table, a, origdata)), Ok)
  }

  /** A placement that succeeds changes one byte of memory and adds one entry. */
  lemma PlaceIs(s: Session, a: int)
    requires Place(s, a).1.Ok?
    ensures s.proc.Alive? && Mapped(s.mem, a)
    ensures Place(s, a).0 == s.(mem := s.mem[a := INT3], table := Append(s.table, a, Peek(s.mem, a)))
  {
    PokePlant(s.mem, a);
  }

  /** RemoveElement: the memory and the table it leaves behind. A failed peek looks planted. */
  function RemoveFrom(proc: Proc, m: Memory, t: seq<Entry>, number: int): (r: (Memory, seq<Entry>, Status))
    ensures |r.1| <= |t|
  {
    var i := FindNumber(t, number);
    if number > |t| || number <= 0 || i == |t| then (m, t, Ok)
    else
      var e := t[i];
      if !LooksPlanted(PeekText(proc, m, e.address)) then (m, Without(t, i), Ok)
      else if proc.Exited? || !Mapped(m, e.address) then (m, t, Error)
      else (Poke(m, e.address, e.origdata), Without(t, i), Ok)
  }

  function Remove(s: Session, number: int): (r: (Session, Status))
    ensures |r.0.table| <= |s.table|
  {
    var (mem, table, status) := RemoveFrom(s.proc, s.mem, s.table, number);
    (s.(mem := mem, table := table), status)
  }

  /** GetElementByBreakpointNumber: gives up on numbers above the size, even when an entry has one. */
  function FindGuarded(t: seq<Entry>, number: int): (i: nat)
    ensures i <= |t|
    ensures i < |t| ==> t[i].number == number
  {
    if number > |t| then |t| else FindNumber(t, number)
  }

  /** DisableBreakpoint: the pointer is used even when it is null. */
  function Disable(s: Session, number: int): Session {
    var i := FindGuarded(s.table, number);
    if i == |s.table| then s.(crashed := true)
    else s.(table := s.table[i := s.table[i].(enabled := false)])
  }

  /** RemoveAllBreakpoints: an index counts up while the list shrinks. */
  function RemoveAllFrom(s: Session, i: nat): (Session, Status)
    decreases |s.table| - i
  {
    if i >= |s.table| then (s, Ok)
    else
      var (s', st) := Remove(s, i + 1);
      if st.Error? then (s', Error) else RemoveAllFrom(s', i + 1)
  }

  /** What a single step and the wait after it leave behind; m_regs is only refreshed by a later GETREGS. */
  function AfterStep(s: Session, e: Event): Session {
    match e
    case Gone => s.(proc := Exited, running := false)
    case Ran(c) => s.(proc := Alive(c))
    case Trap(c) => s.(proc := Alive(c))
  }

  /** RestoreBreakpoint: write the whole saved word back, rewind rip, step once. */
  function Restore(cpu: Cpu, s: Session, origdata: Word, address: int): (Session, Status) {
    var s := s.(restored := s.restored + [address]);
    if s.proc.Exited? || !Mapped(s.mem, address) then (s, Error)
    else
      var mem := Poke(s.mem, address, origdata);
      var core := s.proc.core.(regs := s.proc.core.regs.(rip := address));
      var e := SingleStep(cpu, mem, core);
      (AfterStep(s.(mem := mem, regs := core.regs), e), if e.Gone? then Exit else Ok)
  }

  lemma RestoreIs(cpu: Cpu, s: Session, origdata: Word, address: int)
    requires s.proc.Alive? && Mapped(s.mem, address)
    ensures var s' := Restore(cpu, s, origdata, address).0; var regs := s.proc.core.regs.(rip := address);
      && s'.mem == Poke(s.mem, address, origdata) && s'.table == s.table && s'.regs == regs
      && s'.restored == s.restored + [address] && s'.sysStopped == s.sysStopped
      && s'.proc == ProcOf(SingleStep(cpu, s'.mem, s.proc.core.(regs := regs)))
  {
  }

  // ---------- running ----------

  /** Where one stop of ContinueExecution leads: it returns, or calls itself with the fuel that is left. */
  datatype Turn = Return(s: Session, status: Status) | Recurse(s: Session, left: nat)

  /** ContinueExecution up to its recursive calls. Its tests of RestoreBreakpoint's result against "< -1" never hold. */
  function ContinueTurn(cpu: Cpu, s: Session, systrace: bool, fuel: nat): (turn: Turn)
    ensures turn.Recurse? ==> turn.left < fuel
  {
    var s := s.(sysStopped := false);
    if s.proc.Exited? then Turn.Return(s, Error)
    else
      var (stop, proc, left) := Resume(cpu, s.mem, s.proc.core, systrace, fuel);
      AfterWait(cpu, s.(proc := proc), systrace, stop, left)
  }

  /** ContinueExecution from its call of WaitForProcess on. */
  function AfterWait(cpu: Cpu, s: Session, systrace: bool, stop: Stop, left: nat): (turn: Turn)
    requires stop.AtTrap? || stop.AtSyscall? ==> s.proc.Alive?
    ensures turn.Recurse? ==> turn.left == left && (stop.AtTrap? || stop.AtSyscall?)
  {
    if stop.NotYet? then Turn.Return(s, Blocked)
    else if stop.AtExit? then Turn.Return(s.(running := false), Exit)
    else
      var s := s.(regs := s.proc.core.regs);
      var i := FindAddress(s.table, s.regs.rip - 1);
      if i == |s.table| then
        if systrace then Turn.Return(s.(sysStopped := true), Ok) else Recurse(s, left)
      else
        var restored := Restore(cpu, s, s.table[i].origdata, s.regs.rip - 1).0;
        if s.table[i].enabled then Turn.Return(restored, Ok) else Recurse(restored, left)
  }

  /** ContinueExecution; every recursive call's result is passed on. */
  function Continue(cpu: Cpu, s: Session, systrace: bool, fuel: nat): (Session, Status)
    decreases fuel
  {
    match ContinueTurn(cpu, s, systrace, fuel)
    case Return(s', status) => (s', status)
    case Recurse(s', left) => Continue(cpu, s', systrace, left)
  }

  /** A round of a stepping loop: it ends in continue, or returns. */
  datatype Round = Again(s: Session) | Done(s: Session, status: Status)

  /** Round i of the loop of StepX. A disabled breakpoint is restored at rip - i, not at rip - 1. */
  function StepRound(cpu: Cpu, s: Session, i: nat): Round {
    if s.proc.Exited? then Done(s, Error)
    else
      var e := SingleStep(cpu, s.mem, s.proc.core);
      var s := AfterStep(s, e);
      if e.Gone? then Done(s, Exit)
      else
        var s := s.(regs := e.core.regs);
        var j := FindAddress(s.table, s.regs.rip - 1);
        if j == |s.table| then Again(s)
        else if s.table[j].enabled then Done(Restore(cpu, s, s.table[j].origdata, s.regs.rip - 1).0, Ok)
        else Again(Restore(cpu, s, s.table[j].origdata, s.regs.rip - i).0)
  }

  /** The loop of StepX from round i on, given what a round does. */
  function StepLoop(round: (Session, nat) -> Round, s: Session, i: nat, count: int): (Session, Status)
    decreases count - i
  {
    if i >= count then (s, Ok)
    else
      match round(s, i)
      case Done(s', status) => (s', status)
      case Again(s') => StepLoop(round, s', i + 1, count)
  }

  /** StepX. */
  function StepX(cpu: Cpu, s: Session, count: int): (Session, Status) {
    StepLoop((s0: Session, i: nat) => StepRound(cpu, s0, i), s, 0, count)
  }

  /** One round of the loop of StepAuto. */
  function AutoRound(cpu: Cpu, s: Session): Round {
    if s.proc.Exited? then Done(s, Error)
    else
      var e := SingleStep(cpu, s.mem, s.proc.core);
      var s := AfterStep(s, e);
      if e.Gone? then Done(s, Exit)
      else
        var s := s.(regs := e.core.regs);
        var j := FindAddress(s.table, s.regs.rip - 1);
        if j == |s.table| then Again(s)
        else
          var restored := Restore(cpu, s, s.table[j].origdata, s.regs.rip - 1).0;
          if s.table[j].enabled then Done(restored, Ok) else Again(restored)
  }

  /** The loop of StepAuto, watched for at most fuel rounds, given what a round does. The loop condition reads an
      outer ret that is never assigned: uninitialised stands for whatever it holds. */
  function AutoLoop(round: Session -> Round, s: Session, uninitialised: int, fuel: nat): (Session, Status)
    decreases fuel
  {
    if fuel == 0 then (s, Blocked)
    else
      match round(s)
      case Done(s', status) => (s', status)
      case Again(s') => if uninitialised == 1 then (s', Ok) else AutoLoop(round, s', uninitialised, fuel - 1)
  }

  /** StepAuto. */
  function StepAuto(cpu: Cpu, s: Session, uninitialised: int, fuel: nat): (Session, Status) {
    AutoLoop((s0: Session) => AutoRound(cpu, s0), s, uninitialised, fuel)
  }

  // ---------- one stop ----------

  /** A stop at which GETREGS has been done: s1 is the session then. */
  ghost predicate StoppedAs(cpu: Cpu, s: Session, systrace: bool, fuel: nat, s1: Session, left: nat) {
    && s.proc.Alive?
    && var r := Resume(cpu, s.mem, s.proc.core, systrace, fuel);
      (r.0.AtTrap? || r.0.AtSyscall?) && left == r.2
      && s1 == s.(sysStopped := false, proc := r.1, regs := r.1.core.regs)
  }

  lemma HitTurn(cpu: Cpu, s: Session, systrace: bool, fuel: nat, s1: Session, left: nat, i: nat)
    requires StoppedAs(cpu, s, systrace, fuel, s1, left)
    requires i == FindAddress(s1.table, s1.regs.rip - 1) < |s1.table|
    ensures var s2 := Restore(cpu, s1, s1.table[i].origdata, s1.regs.rip - 1).0;
      Continue(cpu, s, systrace, fuel) == if s1.table[i].enabled then (s2, Ok) else Continue(cpu, s2, systrace, left)
  {
  }

  lemma MissTurn(cpu: Cpu, s: Session, systrace: bool, fuel: nat, s1: Session, left: nat)
    requires StoppedAs(cpu, s, systrace, fuel, s1, left) && !Listed(s1.table, s1.regs.rip - 1)
    ensures Continue(cpu, s, systrace, fuel) ==
      if systrace then (s1.(sysStopped := true), Ok) else Continue(cpu, s1, systrace, left)
  {
  }

  /** A run that does not stop, fails or ends the process. */
  ghost predicate TurnEnds(cpu: Cpu, s: Session, systrace: bool, fuel: nat, s1: Session, st: Status) {
    if s.proc.Exited? then s1 == s.(sysStopped := false) && st.Error?
    else
      var r := Resume(cpu, s.mem, s.proc.core, systrace, fuel);
      && s1 == s.(sysStopped := false, proc := r.1, running := s1.running)
      && (r.0.NotYet? || r.0.AtExit?)
      && if r.0.NotYet? then st.Blocked? && s1.running == s.running else st.Exit? && !s1.running
  }

  lemma TurnEndsIs(cpu: Cpu, s: Session, systrace: bool, fuel: nat, s1: Session, st: Status)
    requires TurnEnds(cpu, s, systrace, fuel, s1, st)
    ensures Continue(cpu, s, systrace, fuel) == (s1, st)
  {
  }

  /** A single step that did not end the process; s1 is the session after GETREGS. */
  ghost predicate SteppedAs(cpu: Cpu, s: Session, s1: Session) {
    && s.proc.Alive?
    && var e := SingleStep(cpu, s.mem, s.proc.core);
      !e.Gone? && s1 == s.(proc := ProcOf(e), regs := e.core.regs)
  }

  /** A single step that fails, or ends the process. */
  ghost predicate RoundEnds(cpu: Cpu, s: Session, s1: Session, st: Status) {
    if s.proc.Exited? then s1 == s && st.Error?
    else SingleStep(cpu, s.mem, s.proc.core).Gone? && s1 == s.(proc := Exited, running := false) && st.Exit?
  }

  lemma RoundEndsIs(cpu: Cpu, s: Session, s1: Session, st: Status, round: nat)
    requires RoundEnds(cpu, s, s1, st)
    ensures AutoRound(cpu, s) == Done(s1, st) && StepRound(cpu, s, round) == Done(s1, st)
  {
  }

  lemma AutoRoundIs(cpu: Cpu, s: Session, s1: Session)
    requires SteppedAs(cpu, s, s1)
    ensures var i := FindAddress(s1.table, s1.regs.rip - 1);
      AutoRound(cpu, s) ==
        if i == |s1.table| then Again(s1)
        else
          var s2 := Restore(cpu, s1, s1.table[i].origdata, s1.regs.rip - 1).0;
          if s1.table[i].enabled then Done(s2, Ok) else Again(s2)
  {
  }

  lemma StepRoundIs(cpu: Cpu, s: Session, s1: Session, round: nat)
    requires SteppedAs(cpu, s, s1)
    ensures var i := FindAddress(s1.table, s1.regs.rip - 1);
      StepRound(cpu, s, round) ==
        if i == |s1.table| then Again(s1)
        else if s1.table[i].enabled then Done(Restore(cpu, s1, s1.table[i].origdata, s1.regs.rip - 1).0, Ok)
        else Again(Restore(cpu, s1, s1.table[i].origdata, s1.regs.rip - round).0)
  {
  }

  // ---------- rounds ----------

  /** `fine` holds of every round that the loop of StepX makes from round i on. */
  ghost predicate StepRounds(round: (Session, nat) -> Round, fine: (Session, nat) -> bool, s: Session, i: nat,
                             count: int)
    decreases count - i
  {
    i < count ==>
      && fine(s, i)
      && var r := round(s, i);
        r.Again? ==> StepRounds(round, fine, r.s, i + 1, count)
  }

  /** `fine` holds of every round that the loop of StepAuto makes. */
  ghost predicate AutoRounds(round: Session -> Round, fine: Session -> bool, s: Session, uninitialised: int, fuel: nat)
    decreases fuel
  {
    fuel > 0 ==>
      && fine(s)
      && var r := round(s);
        r.Again? && uninitialised != 1 ==> AutoRounds(round, fine, r.s, uninitialised, fuel - 1)
  }

  lemma StepAutoOver(cpu: Cpu, s: Session, uninitialised: int, fuel: nat, s': Session, st: Status)
    requires fuel > 0 && AutoRound(cpu, s) == Done(s', st)
    ensures StepAuto(cpu, s, uninitialised, fuel) == (s', st)
  {
  }

  lemma StepAutoAgain(cpu: Cpu, s: Session, uninitialised: int, fuel: nat, s': Session)
    requires fuel > 0 && AutoRound(cpu, s) == Again(s')
    ensures uninitialised == 1 ==> StepAuto(cpu, s, uninitialised, fuel) == (s', Ok)
    ensures uninitialised != 1 ==>
      StepAuto(cpu, s, uninitialised, fuel) == StepAuto(cpu, s', uninitialised, fuel - 1)
  {
  }

  /** What fine rounds keep, the loop of StepX keeps. */
  lemma {:induction false} StepLoopKeeps(round: (Session, nat) -> Round, fine: (Session, nat) -> bool,
                                         kept: Session -> bool,
                                         s: Session, i: nat, count: int)
    requires kept(s) && StepRounds(round, fine, s, i, count)
    requires forall s0, i0: nat | kept(s0) && fine(s0, i0) :: kept(round(s0, i0).s)
    ensures kept(StepLoop(round, s, i, count).0)
    decreases count - i
  {
    if i < count {
      var r := round(s, i);
      assert kept(r.s);
      if r.Again? { StepLoopKeeps(round, fine, kept, r.s, i + 1, count); }
    }
  }

  /** What rounds keep, the loop of StepAuto keeps. */
  lemma {:induction false} AutoLoopKeeps(round: Session -> Round, kept: Session -> bool, s: Session,
                                         uninitialised: int, fuel: nat)
    requires kept(s) && forall s0 | kept(s0) :: kept(round(s0).s)
    ensures kept(AutoLoop(round, s, uninitialised, fuel).0)
    decreases fuel
  {
    if fuel > 0 {
      var r := round(s);
      assert kept(r.s);
      if r.Again? { AutoLoopKeeps(round, kept, r.s, uninitialised, fuel - 1); }
    }
  }

  lemma {:induction false} AlwaysFine(round: (Session, nat) -> Round, fine: (Session, nat) -> bool, s: Session,
                                      i: nat, count: int)
    requires forall s0, i0: nat :: fine(s0, i0)
    ensures StepRounds(round, fine, s, i, count)
    decreases count - i
  {
    if i < count {
      var r := round(s, i);
      if r.Again? { AlwaysFine(round, fine, r.s, i + 1, count); }
    }
  }

  // ---------- sessions ----------

  datatype Command =
    | DoPlace(address: int)
    | DoDisable(number: int)
    | DoRemove(number: int)
    | DoContinue(fuel: nat)
    | DoStepAuto(uninitialised: int, fuel: nat)
    | DoStepX(count: int)

  /** Once the debugger has crashed, nothing happens any more. */
  function Perform(cpu: Cpu, systrace: bool, s: Session, c: Command): Session {
    if s.crashed then s
    else
      match c
      case DoPlace(address) => Place(s, address).0
      case DoDisable(number) => Disable(s, number)
      case DoRemove(number) => Remove(s, number).0
      case DoContinue(fuel) => Continue(cpu, s, systrace, fuel).0
      case DoStepAuto(uninitialised, fuel) => StepAuto(cpu, s, uninitialised, fuel).0
      case DoStepX(count) => StepX(cpu, s, count).0
  }

  /** The session after a list of commands. */
  function PerformAll(cpu: Cpu, systrace: bool, s: Session, cs: seq<Command>): Session
    decreases |cs|
  {
    if cs == [] then s
    else PerformAll(cpu, systrace, Perform(cpu, systrace, s, cs[0]), cs[1..])
  }
}
