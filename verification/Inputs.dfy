/** Inputs on which the code does not do what its commands are for. */
module Inputs {
  import opened Words
  import opened Machine
  import opened Sessions
  import opened Commands

  /** A processor whose instructions are one byte long, and which keeps at every address how often it was executed. */
  function Counter(): Cpu {
    Cpu((m: Memory, a: int) => 1,
        (m: Memory, r: Regs, d: Data) => Goto(r.(rip := r.rip + 1), Counted(d, r.rip)),
        (g: map<string, bv64>, d: Data) => KernelEffect.Return(g, d))
  }

  function Counted(d: Data, a: int): Data {
    d[a := (if a in d then d[a] else 0) + 1]
  }

  /** One whose instruction at address `end` ends the process. */
  function Ending(end: int): Cpu {
    Cpu((m: Memory, a: int) => 1,
        (m: Memory, r: Regs, d: Data) => if r.rip == end then Quit else Goto(r.(rip := r.rip + 1), Counted(d, r.rip)),
        (g: map<string, bv64>, d: Data) => KernelEffect.Return(g, d))
  }

  function Nop(a: int): bv8 {
    0x90
  }

  function Nops(): Memory {
    map a | 0 <= a < 16 :: Nop(a)
  }

  function CoreAt(rip: int, d: Data): Core {
    Core(Regs(rip, map[]), false, d)
  }

  predicate StandsAt(s: Session, rip: int, d: Data) {
    s.proc == Alive(CoreAt(rip, d))
  }

  function Counting(): Program {
    Program(Counter(), Nops(), CoreAt(0, map[]))
  }

  function JustOnce(a: int): bv8 {
    1
  }

  /** The first n instructions executed once each. */
  function Once(n: nat): Data {
    map a | 0 <= a < n :: JustOnce(a)
  }

  /** By itself, the program executes each instruction once. */
  lemma {:induction false} CountingRun(n: nat)
    ensures RunAt(Counting(), n) == Alive(CoreAt(n, Once(n)))
  {
    if n > 0 {
      CountingRun(n - 1);
      OneTick(Nops(), n - 1, Once(n - 1));
      assert Counted(Once(n - 1), n - 1) == Once(n);
    }
  }

  lemma OneTick(m: Memory, rip: int, d: Data)
    requires At(m, rip) != INT3
    ensures MicroStep(Counter(), m, CoreAt(rip, d)) == SingleStep(Counter(), m, CoreAt(rip, d))
    ensures MicroStep(Counter(), m, CoreAt(rip, d)) == Ran(CoreAt(rip + 1, Counted(d, rip)))
  {
  }

  lemma OffTheRun(s: Session, a: int)
    requires s.proc.Alive? && 0 <= a < s.proc.core.regs.rip
    requires var d := s.proc.core.data; a in d ==> d[a] != 1
    ensures forall n: nat :: s.proc != RunAt(Counting(), n)
  {
    forall n: nat ensures s.proc != RunAt(Counting(), n) {
      CountingRun(n);
      assert 0 <= a < n ==> a in Once(n);
    }
  }

  /** A hit: the saved word goes back, and the instruction is executed. */
  lemma CountedHit(s: Session, a: int, d: Data, w: Word)
    requires StandsAt(s, a + 1, d) && Mapped(s.mem, a) && w[0] != INT3
    ensures var s' := Restore(Counter(), s, w, a).0;
      && s'.mem == Poke(s.mem, a, w) && s'.table == s.table
      && StandsAt(s', a + 1, Counted(d, a)) && s'.crashed == s.crashed
  {
    RestoreIs(Counter(), s, w, a);
    OneTick(Poke(s.mem, a, w), a, d);
  }

  lemma CountedContinue(s: Session, a: int, d: Data, fuel: nat)
    requires StandsAt(s, a, d) && At(s.mem, a) == INT3 && Mapped(s.mem, a) && fuel >= 1
    requires var i := FindAddress(s.table, a); i < |s.table| && s.table[i].enabled && s.table[i].origdata[0] != INT3
    ensures var s' := Continue(Counter(), s, false, fuel).0;
      && s'.mem == Poke(s.mem, a, s.table[FindAddress(s.table, a)].origdata) && s'.table == s.table
      && StandsAt(s', a + 1, Counted(d, a)) && s'.crashed == s.crashed
  {
    var s1 := s.(sysStopped := false, proc := Alive(CoreAt(a + 1, d)), regs := Regs(a + 1, map[]));
    var i := FindAddress(s.table, a);
    assert Resume(Counter(), s.mem, s.proc.core, false, fuel) == (AtTrap, s1.proc, fuel - 1);
    CountedHit(s1, a, d, s.table[i].origdata);
    HitTurn(Counter(), s, false, fuel, s1, fuel - 1, i);
  }

  // detection by rip - 1

  lemma CountedRound(s: Session, rip: int, d: Data)
    requires StandsAt(s, rip, d) && At(s.mem, rip) != INT3 && !Listed(s.table, rip)
    ensures var r := AutoRound(Counter(), s);
      r.Again? && StandsAt(r.s, rip + 1, Counted(d, rip)) && r.s.mem == s.mem && r.s.table == s.table
  {
    OneTick(s.mem, rip, d);
    AutoRoundIs(Counter(), s, s.(proc := Alive(CoreAt(rip + 1, Counted(d, rip))), regs := Regs(rip + 1, map[])));
  }

  lemma CountedTwice(s: Session, rip: int, d: Data)
    requires StandsAt(s, rip, d) && At(s.mem, rip) != INT3 && Mapped(s.mem, rip)
    requires var i := FindAddress(s.table, rip); i < |s.table| && s.table[i].enabled && s.table[i].origdata[0] != INT3
    ensures var r := AutoRound(Counter(), s); r.Done? && StandsAt(r.s, rip + 1, Counted(Counted(d, rip), rip))
  {
    OneTick(s.mem, rip, d);
    var s1 := s.(proc := Alive(CoreAt(rip + 1, Counted(d, rip))), regs := Regs(rip + 1, map[]));
    AutoRoundIs(Counter(), s, s1);
    CountedHit(s1, rip, Counted(d, rip), s.table[FindAddress(s.table, rip)].origdata);
  }

  lemma ThreeRounds(round: Session -> Round, s: Session, uninitialised: int, fuel: nat)
    requires round(s).Again? && round(round(s).s).Again? && round(round(round(s).s).s).Done?
    requires uninitialised != 1 && fuel >= 3
    ensures AutoLoop(round, s, uninitialised, fuel).0 == round(round(round(s).s).s).s
  {
    var s1 := round(s).s;
    var s2 := round(s1).s;
    assert AutoLoop(round, s, uninitialised, fuel) == AutoLoop(round, s1, uninitialised, fuel - 1);
    assert AutoLoop(round, s1, uninitialised, fuel - 1) == AutoLoop(round, s2, uninitialised, fuel - 2);
  }

  /** As the debugger finds a program of nops. */
  predicate Begun(s: Session) {
    s.mem == Nops() && StandsAt(s, 0, map[]) && s.table == [] && !s.crashed
  }

  lemma AttachBegins(cpu: Cpu)
    ensures Begun(Attach(Program(cpu, Nops(), CoreAt(0, map[]))))
    ensures WellFormed(Counter()) && forall end :: WellFormed(Ending(end))
    ensures forall a | a in Nops() :: Placeable(Counting(), a)
  {
  }

  /** Breakpoints 1 and 2 are placed at 0 and 3. Hit, breakpoint 1 brings back the word that it saved before 2 was
      placed. */
  function FirstOfTwoHit(s: Session, fuel: nat): Session {
    PerformAll(Counter(), false, s, [DoPlace(0), DoPlace(3), DoContinue(fuel)])
  }

  /** What placing two breakpoints leaves behind. */
  ghost predicate BothPlaced(s: Session, a: int, b: int) {
    && Mapped(Nops(), a) && Mapped(Nops()[a := INT3], b)
    && s.mem == Nops()[a := INT3][b := INT3] && StandsAt(s, 0, map[]) && !s.crashed
    && s.table == [Entry(a, Peek(Nops(), a), 1, true), Entry(b, Peek(Nops()[a := INT3], b), 2, true)]
  }

  lemma PlaceOne(s: Session, a: int)
    requires s.proc.Alive? && Mapped(s.mem, a) && !s.crashed
    ensures Perform(Counter(), false, s, DoPlace(a)) ==
      s.(mem := s.mem[a := INT3], table := Append(s.table, a, Peek(s.mem, a)))
  {
    PlaceIs(s, a);
  }

  lemma PlaceNext(s: Session, a: int, b: int)
    requires Mapped(Nops(), a) && s.mem == Nops()[a := INT3] && Mapped(s.mem, b)
    requires s.table == [Entry(a, Peek(Nops(), a), 1, true)] && StandsAt(s, 0, map[]) && !s.crashed
    ensures BothPlaced(Perform(Counter(), false, s, DoPlace(b)), a, b)
  {
    PlaceOne(s, b);
  }

  lemma PlaceBoth(s: Session, a: int, b: int)
    requires Begun(s) && Mapped(s.mem, a) && Mapped(s.mem, b)
    ensures BothPlaced(Perform(Counter(), false, Perform(Counter(), false, s, DoPlace(a)), DoPlace(b)), a, b)
  {
    PlaceOne(s, a);
    var s1 := Perform(Counter(), false, s, DoPlace(a));
    PlaceNext(s1, a, b);
  }

  lemma NopsBack(m: Memory, w: Word)
    requires m == Nops()[0 := INT3][3 := INT3] && w == Peek(Nops(), 0)
    ensures Poke(m, 0, w) == Nops()
  {
  }

  lemma FirstHit(s: Session, fuel: nat)
    requires fuel >= 1 && BothPlaced(s, 0, 3)
    ensures var s' := Perform(Counter(), false, s, DoContinue(fuel));
      s'.mem == Nops() && s'.table == s.table && StandsAt(s', 1, Counted(map[], 0)) && !s'.crashed
  {
    assert FindAddress(s.table, 0) == 0;
    CountedContinue(s, 0, map[], fuel);
    NopsBack(s.mem, s.table[0].origdata);
  }

  lemma FirstOfTwoHitIs(s: Session, fuel: nat)
    requires Begun(s) && fuel >= 1
    ensures var s' := FirstOfTwoHit(s, fuel);
      && s'.mem == Nops() && StandsAt(s', 1, Counted(map[], 0)) && !s'.crashed
      && |s'.table| == 2 && s'.table[0].address == 0
      && s'.table[1].address == 3 && s'.table[1].enabled && s'.table[1].origdata[0] != INT3
  {
    PlaceBoth(s, 0, 3);
    FirstHit(Perform(Counter(), false, Perform(Counter(), false, s, DoPlace(0)), DoPlace(3)), fuel);
    ThreeCommands(Counter(), s, DoPlace(0), DoPlace(3), DoContinue(fuel));
  }

  lemma ThreeCommands(cpu: Cpu, s: Session, c0: Command, c1: Command, c2: Command)
    ensures PerformAll(cpu, false, s, [c0, c1, c2]) ==
      Perform(cpu, false, Perform(cpu, false, Perform(cpu, false, s, c0), c1), c2)
  {
    assert [c0, c1, c2][1..] == [c1, c2];
    TwoCommands(cpu, Perform(cpu, false, s, c0), c1, c2);
  }

  lemma TwoCommands(cpu: Cpu, s: Session, c0: Command, c1: Command)
    ensures PerformAll(cpu, false, s, [c0, c1]) == Perform(cpu, false, Perform(cpu, false, s, c0), c1)
  {
    var s1 := Perform(cpu, false, s, c0);
    assert [c0, c1][1..] == [c1] && [c1][1..] == [];
    assert PerformAll(cpu, false, s1, [c1]) == PerformAll(cpu, false, Perform(cpu, false, s1, c1), []);
  }

  lemma StepsOver(s: Session, uninitialised: int, rounds: nat)
    requires s.mem == Nops() && StandsAt(s, 1, Once(1)) && uninitialised != 1 && rounds >= 3
    requires |s.table| == 2 && s.table[0].address == 0
    requires s.table[1].address == 3 && s.table[1].enabled && s.table[1].origdata[0] != INT3
    ensures var s' := StepAuto(Counter(), s, uninitialised, rounds).0;
      StandsAt(s', 4, Counted(Counted(Counted(Counted(Once(1), 1), 2), 3), 3))
  {
    var d := Once(1);
    CountedRound(s, 1, d);
    var s1 := AutoRound(Counter(), s).s;
    CountedRound(s1, 2, Counted(d, 1));
    var s2 := AutoRound(Counter(), s1).s;
    assert s2.table[1].address == 3 && s2.table[0].address != 3;
    assert FindAddressFrom(s2.table, 3, 1) == 1;
    CountedTwice(s2, 3, Counted(Counted(d, 1), 2));
    ThreeRounds((s0: Session) => AutoRound(Counter(), s0), s, uninitialised, rounds);
  }

  /** Then breakpoint 2 is listed but not planted. StepAuto takes the instruction there for a hit and executes it a
      second time, which the program by itself never does. */
  lemma ExecutedTwice(s: Session, fuel: nat, uninitialised: int, rounds: nat)
    requires Begun(s) && fuel >= 1 && uninitialised != 1 && rounds >= 3
    ensures var s' := Perform(Counter(), false, FirstOfTwoHit(s, fuel), DoStepAuto(uninitialised, rounds));
      && s'.proc.Alive? && s'.proc.core.regs.rip == 4 && 3 in s'.proc.core.data && s'.proc.core.data[3] == 2
      && forall n: nat :: s'.proc != RunAt(Counting(), n)
  {
    FirstOfTwoHitIs(s, fuel);
    assert Counted(map[], 0) == Once(1);
    StepsOver(FirstOfTwoHit(s, fuel), uninitialised, rounds);
    OffTheRun(Perform(Counter(), false, FirstOfTwoHit(s, fuel), DoStepAuto(uninitialised, rounds)), 3);
  }

  // a neighbour taken out

  /** Where no int3 is ahead, nothing stops the program, and nothing behind is executed any more. */
  lemma {:induction false} CountsOn(m: Memory, rip: int, d: Data, fuel: nat)
    requires forall x | x >= rip :: At(m, x) != INT3
    ensures var r := Resume(Counter(), m, CoreAt(rip, d), false, fuel);
      r.0.NotYet? && r.1.Alive? && r.1.core.regs.rip == rip + fuel && (rip > 2 ==> (2 in r.1.core.data <==> 2 in d))
    decreases fuel
  {
    if fuel > 0 {
      OneTick(m, rip, d);
      CountsOn(m, rip + 1, Counted(d, rip), fuel - 1);
    }
  }

  /** After the hit of breakpoint 1, breakpoint 2 is still listed and enabled, and never hit: execution goes on for
      as long as it is watched, and nothing is restored. */
  lemma NeighbourLost(s: Session, fuel: nat, more: nat)
    requires Begun(s) && fuel >= 1
    ensures var s' := FirstOfTwoHit(s, fuel); Listed(s'.table, 3) && At(s'.mem, 3) != INT3
    ensures var s' := FirstOfTwoHit(s, fuel); var (s'', st) := Continue(Counter(), s', false, more);
      st == Blocked && s''.restored == s'.restored
  {
    FirstOfTwoHitIs(s, fuel);
    var s' := FirstOfTwoHit(s, fuel);
    assert s'.table[1].address == 3;
    RunsFreely(s', 1, Counted(map[], 0), more);
  }

  lemma RunsFreely(s: Session, rip: int, d: Data, fuel: nat)
    requires StandsAt(s, rip, d) && forall x | x >= rip :: At(s.mem, x) != INT3
    ensures var (s', st) := Continue(Counter(), s, false, fuel); st == Blocked && s'.restored == s.restored
  {
    CountsOn(s.mem, rip, d, fuel);
    var r := Resume(Counter(), s.mem, CoreAt(rip, d), false, fuel);
    TurnEndsIs(Counter(), s, false, fuel, s.(sysStopped := false, proc := r.1), Blocked);
  }

  // a disabled breakpoint stepped

  lemma StepSkips(s: Session)
    requires StandsAt(s, 0, map[]) && s.mem == Nops()[0 := INT3]
    requires |s.table| == 1 && s.table[0].address == 0 && !s.table[0].enabled && s.table[0].origdata == Peek(Nops(), 0)
    ensures StandsAt(StepX(Counter(), s, 1).0, 2, Counted(map[], 1))
  {
    var s1 := s.(proc := Alive(CoreAt(1, map[])), regs := Regs(1, map[]));
    var w := s.table[0].origdata;
    assert FindAddress(s1.table, 0) == 0;
    StepRoundIs(Counter(), s, s1, 0);
    RestoreIs(Counter(), s1, w, 1);
    OneTick(Poke(s.mem, 1, w), 1, map[]);
    OneStep((s0: Session, i: nat) => StepRound(Counter(), s0, i), s);
  }

  lemma OneStep(round: (Session, nat) -> Round, s: Session)
    requires round(s, 0).Again?
    ensures StepLoop(round, s, 0, 1).0 == round(s, 0).s
  {
    assert StepLoop(round, round(s, 0).s, 1, 1) == (round(s, 0).s, Ok);
  }

  lemma PlacedAndDisabled(s: Session)
    requires Begun(s)
    ensures var s' := Perform(Counter(), false, Perform(Counter(), false, s, DoPlace(0)), DoDisable(1));
      && StandsAt(s', 0, map[]) && s'.mem == Nops()[0 := INT3] && !s'.crashed
      && |s'.table| == 1 && s'.table[0] == Entry(0, Peek(Nops(), 0), 1, false)
  {
    PlaceOne(s, 0);
    DisableDoes(Perform(Counter(), false, s, DoPlace(0)), 1, 0);
  }

  /** The instruction at 0 was never executed, and the one at 1 was. */
  ghost predicate Skipped(s: Session) {
    && s.proc.Alive? && s.proc.core.regs.rip == 2 && 0 !in s.proc.core.data && 1 in s.proc.core.data
    && forall n: nat :: s.proc != RunAt(Counting(), n)
  }

  lemma StepOffTheRun(s: Session)
    requires StandsAt(s, 0, map[]) && s.mem == Nops()[0 := INT3] && !s.crashed
    requires |s.table| == 1 && s.table[0] == Entry(0, Peek(Nops(), 0), 1, false)
    ensures Skipped(Perform(Counter(), false, s, DoStepX(1)))
  {
    StepSkips(s);
    OffTheRun(Perform(Counter(), false, s, DoStepX(1)), 0);
  }

  /** StepX at a breakpoint that has been disabled executes the instruction after it instead: the debuggee is off the
      run for good, although all bytes of the program are alike. */
  lemma SkippedByStepX(s: Session)
    requires Begun(s)
    ensures Skipped(PerformAll(Counter(), false, s, [DoPlace(0), DoDisable(1), DoStepX(1)]))
  {
    PlacedAndDisabled(s);
    StepOffTheRun(Perform(Counter(), false, Perform(Counter(), false, s, DoPlace(0)), DoDisable(1)));
    ThreeCommands(Counter(), s, DoPlace(0), DoDisable(1), DoStepX(1));
  }

  // a deletion that was captured

  /** Breakpoint 1 is placed at address 2, and breakpoint 2 at address 0, so that it saves the int3 of breakpoint
      1. Then breakpoint 1 is deleted, and breakpoint 2 is hit. */
  function Stray(s: Session, fuel: nat): Session {
    PerformAll(Counter(), false, s, [DoPlace(2), DoPlace(0), DoRemove(1), DoContinue(fuel)])
  }

  lemma DeleteFirst(s: Session)
    requires BothPlaced(s, 2, 0)
    ensures var s' := Perform(Counter(), false, s, DoRemove(1));
      && s'.mem == Nops()[0 := INT3] && StandsAt(s', 0, map[]) && !s'.crashed
      && s'.table == [Entry(0, Peek(Nops()[2 := INT3], 0), 2, true)]
  {
    var w := Peek(Nops(), 2);
    RemoveDoes(s, 1, 0);
    TwoBack(s.mem, w);
  }

  lemma TwoBack(m: Memory, w: Word)
    requires m == Nops()[2 := INT3][0 := INT3] && w == Peek(Nops(), 2)
    ensures Poke(m, 2, w) == Nops()[0 := INT3] && At(m, 2) & 0xcc == 0xcc
  {
  }

  lemma StrayHit(s: Session, fuel: nat)
    requires fuel >= 1 && s.mem == Nops()[0 := INT3] && StandsAt(s, 0, map[]) && !s.crashed
    requires s.table == [Entry(0, Peek(Nops()[2 := INT3], 0), 2, true)]
    ensures var s' := Perform(Counter(), false, s, DoContinue(fuel));
      s'.mem == Nops()[2 := INT3] && s'.table == s.table && StandsAt(s', 1, Counted(map[], 0)) && !s'.crashed
  {
    assert FindAddress(s.table, 0) == 0;
    CountedContinue(s, 0, map[], fuel);
    assert Poke(Nops()[0 := INT3], 0, s.table[0].origdata) == Nops()[2 := INT3];
  }

  lemma StrayIs(s: Session, fuel: nat)
    requires Begun(s) && fuel >= 1
    ensures var s' := Stray(s, fuel);
      && s'.mem == Nops()[2 := INT3] && |s'.table| == 1 && s'.table[0].address == 0
      && StandsAt(s', 1, Counted(map[], 0)) && !s'.crashed
  {
    PlaceBoth(s, 2, 0);
    var s1 := Perform(Counter(), false, s, DoPlace(2));
    var s2 := Perform(Counter(), false, s1, DoPlace(0));
    DeleteFirst(s2);
    StrayHit(Perform(Counter(), false, s2, DoRemove(1)), fuel);
    assert [DoPlace(2), DoPlace(0), DoRemove(1), DoContinue(fuel)][1..] == [DoPlace(0), DoRemove(1), DoContinue(fuel)];
    ThreeCommands(Counter(), s1, DoPlace(0), DoRemove(1), DoContinue(fuel));
  }

  /** The stray int3 is taken for a stop of no consequence: it is run past. */
  lemma TrapAtTwo(s: Session, more: nat) returns (s': Session)
    requires At(s.mem, 1) != INT3 && At(s.mem, 2) == INT3 && !Listed(s.table, 2)
    requires StandsAt(s, 1, Once(1)) && more >= 2
    ensures Continue(Counter(), s, false, more) == Continue(Counter(), s', false, more - 2)
    ensures s'.mem == s.mem && StandsAt(s', 3, Counted(Once(1), 1))
  {
    var d := Counted(Once(1), 1);
    OneTick(s.mem, 1, Once(1));
    s' := s.(sysStopped := false, proc := Alive(CoreAt(3, d)), regs := Regs(3, map[]));
    assert Resume(Counter(), s.mem, CoreAt(2, d), false, more - 1) == (AtTrap, s'.proc, more - 2);
    assert Resume(Counter(), s.mem, s.proc.core, false, more) == (AtTrap, s'.proc, more - 2);
    MissTurn(Counter(), s, false, more, s', more - 2);
  }

  /** The instruction at 2 was never executed, although the debuggee is past it. */
  ghost predicate Missed(s: Session, rip: int) {
    && s.proc.Alive? && s.proc.core.regs.rip == rip && 2 !in s.proc.core.data
    && forall n: nat :: s.proc != RunAt(Counting(), n)
  }

  lemma RunsFromThree(s: Session, d: Data, fuel: nat)
    requires StandsAt(s, 3, d) && 2 !in d && forall x | x >= 3 :: At(s.mem, x) != INT3
    ensures Missed(Continue(Counter(), s, false, fuel).0, 3 + fuel)
  {
    CountsOn(s.mem, 3, d, fuel);
    var r := Resume(Counter(), s.mem, CoreAt(3, d), false, fuel);
    TurnEndsIs(Counter(), s, false, fuel, s.(sysStopped := false, proc := r.1), Blocked);
    OffTheRun(s.(sysStopped := false, proc := r.1), 2);
  }

  lemma StrayTrap(s: Session, more: nat)
    requires s.mem == Nops()[2 := INT3] && |s.table| == 1 && s.table[0].address == 0
    requires StandsAt(s, 1, Once(1)) && more >= 2
    ensures Missed(Continue(Counter(), s, false, more).0, more + 1)
  {
    var s1 := TrapAtTwo(s, more);
    RunsFromThree(s1, Counted(Once(1), 1), more - 2);
  }

  lemma StrayFollows(s: Session, more: nat)
    requires s.mem == Nops()[2 := INT3] && |s.table| == 1 && s.table[0].address == 0 && !s.crashed && more >= 2
    requires StandsAt(s, 1, Counted(map[], 0))
    ensures At(s.mem, 2) == INT3 && !Listed(s.table, 2) && s.proc == RunAt(Counting(), 1)
    ensures Missed(Perform(Counter(), false, s, DoContinue(more)), more + 1)
  {
    CountingRun(1);
    assert Counted(map[], 0) == Once(1);
    StrayTrap(s, more);
  }

  /** A hit of breakpoint 2 brings int3 back at address 2, where nothing is listed. Continued, the debuggee traps
      on it, never executes the instruction there, and is never again where the program by itself would be. */
  lemma StrayInt3(s: Session, fuel: nat, more: nat)
    requires Begun(s) && fuel >= 1 && more >= 2
    ensures var s' := Stray(s, fuel); At(s'.mem, 2) == INT3 && !Listed(s'.table, 2) && s'.proc == RunAt(Counting(), 1)
    ensures Missed(Perform(Counter(), false, Stray(s, fuel), DoContinue(more)), more + 1)
  {
    StrayIs(s, fuel);
    StrayFollows(Stray(s, fuel), more);
  }

  // how an exit is reported

  lemma QuitsOnHit(s: Session, fuel: nat)
    requires StandsAt(s, 0, map[]) && s.mem == Nops()[0 := INT3] && fuel >= 1
    requires |s.table| == 1 && s.table[0].address == 0 && s.table[0].origdata == Peek(Nops(), 0)
    ensures var (s', st) := Continue(Ending(0), s, false, fuel);
      s'.proc.Exited? && st == if s.table[0].enabled then Ok else Error
  {
    var s1 := s.(sysStopped := false, proc := Alive(CoreAt(1, map[])), regs := Regs(1, map[]));
    assert Resume(Ending(0), s.mem, s.proc.core, false, fuel) == (AtTrap, s1.proc, fuel - 1);
    HitTurn(Ending(0), s, false, fuel, s1, fuel - 1, 0);
    RestoreIs(Ending(0), s1, s.table[0].origdata, 0);
  }

  lemma QuitsByItself(s: Session, fuel: nat)
    requires StandsAt(s, 0, map[]) && At(s.mem, 0) != INT3 && fuel >= 1
    ensures var (s', st) := Continue(Ending(0), s, false, fuel); s'.proc.Exited? && st == Exit
  {
    TurnEndsIs(Ending(0), s, false, fuel, s.(sysStopped := false, proc := Exited, running := false), Exit);
  }

  /** What is returned when the one instruction is continued from. */
  ghost predicate QuitsWith(s: Session, fuel: nat, st: Status) {
    var r := Continue(Ending(0), s, false, fuel); r.0.proc.Exited? && r.1 == st
  }

  /** One instruction that ends the process is reported by EXIT_STATUS without a breakpoint, by 0 at an enabled
      breakpoint and by -1 at a disabled one. */
  lemma ExitThreeWays(s: Session, fuel: nat)
    requires Begun(s) && fuel >= 1
    ensures QuitsWith(s, fuel, Exit)
    ensures QuitsWith(PerformAll(Ending(0), false, s, [DoPlace(0)]), fuel, Ok)
    ensures QuitsWith(PerformAll(Ending(0), false, s, [DoPlace(0), DoDisable(1)]), fuel, Error)
  {
    QuitsByItself(s, fuel);
    PlaceIs(s, 0);
    var placed := Place(s, 0).0;
    assert FindNumber(placed.table, 1) == 0;
    QuitsOnHit(placed, fuel);
    QuitsOnHit(Disable(placed, 1), fuel);
    assert [DoPlace(0)][1..] == [] && [DoPlace(0), DoDisable(1)][1..] == [DoDisable(1)] && [DoDisable(1)][1..] == [];
  }

  /** Breakpoints at 0 and at 3, where the process ends, the first of them disabled. */
  function BothAtEnd(s: Session): Session {
    PerformAll(Ending(3), false, s, [DoPlace(0), DoPlace(3), DoDisable(1)])
  }

  lemma BothAtEndIs(s: Session)
    requires Begun(s)
    ensures var s' := BothAtEnd(s);
      && s'.mem == Nops()[0 := INT3][3 := INT3] && StandsAt(s', 0, map[]) && |s'.table| == 2
      && s'.table[0] == Entry(0, Peek(Nops(), 0), 1, false) && s'.table[1].address == 3 && s'.table[1].enabled
  {
    PlaceBoth(s, 0, 3);
    var s2 := Perform(Counter(), false, Perform(Counter(), false, s, DoPlace(0)), DoPlace(3));
    assert s2.table[0].number == 1;
    assert FindNumber(s2.table, 1) == 0;
    ThreeCommands(Ending(3), s, DoPlace(0), DoPlace(3), DoDisable(1));
  }

  lemma EndingTick(m: Memory, rip: int, d: Data)
    requires At(m, rip) != INT3 && rip != 3
    ensures SingleStep(Ending(3), m, CoreAt(rip, d)) == Ran(CoreAt(rip + 1, Counted(d, rip)))
  {
  }

  lemma AtZeroAgain(s: Session, w: Word)
    requires Mapped(s.mem, 0) && StandsAt(s, 1, map[]) && w[0] != INT3
    ensures var s' := Restore(Ending(3), s, w, 0).0; s'.mem == Poke(s.mem, 0, w) && StandsAt(s', 1, Counted(map[], 0))
  {
    RestoreIs(Ending(3), s, w, 0);
    EndingTick(Poke(s.mem, 0, w), 0, map[]);
  }

  lemma TrapAtZero(s: Session, fuel: nat, s1: Session)
    requires At(s.mem, 0) == INT3 && StandsAt(s, 0, map[]) && fuel >= 1
    requires s1 == s.(sysStopped := false, proc := Alive(CoreAt(1, map[])), regs := Regs(1, map[]))
    ensures StoppedAs(Ending(3), s, false, fuel, s1, fuel - 1)
  {
    assert Resume(Ending(3), s.mem, s.proc.core, false, fuel) == (AtTrap, s1.proc, fuel - 1);
  }

  lemma HitAtZero(s: Session, fuel: nat) returns (s': Session)
    requires At(s.mem, 0) == INT3 && Mapped(s.mem, 0) && StandsAt(s, 0, map[]) && fuel >= 1
    requires |s.table| > 0 && s.table[0] == Entry(0, Peek(Nops(), 0), 1, false)
    ensures Continue(Ending(3), s, false, fuel) == Continue(Ending(3), s', false, fuel - 1)
    ensures s'.mem == Poke(s.mem, 0, s.table[0].origdata) && StandsAt(s', 1, Counted(map[], 0))
  {
    var w := s.table[0].origdata;
    var s1 := s.(sysStopped := false, proc := Alive(CoreAt(1, map[])), regs := Regs(1, map[]));
    TrapAtZero(s, fuel, s1);
    assert FindAddress(s1.table, 0) == 0;
    s' := Restore(Ending(3), s1, w, 0).0;
    HitTurn(Ending(3), s, false, fuel, s1, fuel - 1, 0);
    AtZeroAgain(s1, w);
  }

  lemma HitThenQuit(s: Session, fuel: nat)
    requires At(s.mem, 0) == INT3 && Mapped(s.mem, 0) && Poke(s.mem, 0, Peek(Nops(), 0)) == Nops()
    requires |s.table| == 2 && s.table[0] == Entry(0, Peek(Nops(), 0), 1, false)
    requires StandsAt(s, 0, map[]) && fuel >= 4
    ensures Continue(Ending(3), s, false, fuel).1 == Exit
  {
    var s' := HitAtZero(s, fuel);
    QuitsAtThree(s', fuel - 1);
  }

  lemma QuitsAtThree(s: Session, fuel: nat)
    requires s.mem == Nops() && StandsAt(s, 1, Counted(map[], 0)) && fuel >= 3
    ensures Continue(Ending(3), s, false, fuel).1 == Exit
  {
    var d := Counted(map[], 0);
    var r := (AtExit, Exited, fuel - 3);
    assert Resume(Ending(3), s.mem, CoreAt(3, Counted(Counted(d, 1), 2)), false, fuel - 2) == r;
    assert Resume(Ending(3), s.mem, CoreAt(2, Counted(d, 1)), false, fuel - 1) == r;
    assert Resume(Ending(3), s.mem, s.proc.core, false, fuel) == r;
    TurnEndsIs(Ending(3), s, false, fuel, s.(sysStopped := false, proc := Exited, running := false), Exit);
  }

  /** An enabled breakpoint is planted at the instruction that ends the process, and its address is not executed
      before; yet the exit is reported by EXIT_STATUS, because the hit of the disabled one takes the int3 out. */
  lemma ExitUnnoticed(s: Session, fuel: nat)
    requires Begun(s) && fuel >= 4
    ensures var s' := BothAtEnd(s);
      && At(s'.mem, 3) == INT3 && Listed(s'.table, 3) && s'.table[FindAddress(s'.table, 3)].enabled
      && Continue(Ending(3), s', false, fuel).1 == Exit
  {
    BothAtEndIs(s);
    var s' := BothAtEnd(s);
    assert s'.table[1].address == 3 && s'.table[0].address != 3;
    assert FindAddressFrom(s'.table, 3, 1) == 1;
    NopsBack(s'.mem, s'.table[0].origdata);
    HitThenQuit(s', fuel);
  }
}
