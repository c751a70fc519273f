/** Single-stepping commands: hits are recognised by rip - 1 after every step. As long as that tells hits from other
    steps, each round of their loops is one instruction of the undebugged run. */
module Stepping {
  import opened Machine
  import opened Sessions
  import opened Overlap
  import opened Ahead
  import opened Separation
  import opened Stopping

  /** In position n the program stands one byte past a listed address. */
  ghost predicate PastListed(p: Program, t: seq<Entry>, n: nat) {
    var proc := RunAt(p, n);
    proc.Alive? && Listed(t, proc.core.regs.rip - 1)
  }

  /** A single step in patched memory: it traps on a planted breakpoint, and otherwise is one instruction of the run. */
  lemma StepOutcome(p: Program, s: Session, n: nat)
    requires Assumed(p) && Shows(p, s, n) && s.proc.Alive?
    ensures var e := SingleStep(p.cpu, s.mem, s.proc.core);
      if PlantedAt(p, s.mem, s.table, n)
      then e == Trap(s.proc.core.(regs := s.proc.core.regs.(rip := s.proc.core.regs.rip + 1)))
      else ProcOf(e) == RunAt(p, Advance(p, n))
  {
    if !PlantedAt(p, s.mem, s.table, n) {
      StepFollows(p, s.mem, s.table, n);
      AdvanceIsSingleStep(p, n);
    }
  }

  /** A step that does not end the process is taken for a hit exactly when a planted breakpoint was executed, or
      the next instruction happens to start one byte past a listed address. */
  lemma DetectionExact(p: Program, s: Session, n: nat)
    requires Assumed(p) && Shows(p, s, n) && s.proc.Alive?
    ensures var e := SingleStep(p.cpu, s.mem, s.proc.core);
      !e.Gone? ==>
        (Listed(s.table, e.core.regs.rip - 1) <==>
           PlantedAt(p, s.mem, s.table, n) || PastListed(p, s.table, Advance(p, n)))
  {
    StepOutcome(p, s, n);
  }

  /** Only a trap is taken for a hit. */
  ghost predicate TellsHits(cpu: Cpu, s: Session) {
    s.proc.Alive? ==>
      var e := SingleStep(cpu, s.mem, s.proc.core);
      e.Ran? ==> !Listed(s.table, e.core.regs.rip - 1)
  }

  /** Read on the undebugged run: a breakpoint is executed, or the next instruction is not one byte past a listed
      address. */
  lemma TellsHitsIff(p: Program, s: Session, n: nat)
    requires Assumed(p) && Shows(p, s, n) && s.proc.Alive?
    ensures TellsHits(p.cpu, s) <==> PlantedAt(p, s.mem, s.table, n) || !PastListed(p, s.table, Advance(p, n))
  {
    StepOutcome(p, s, n);
  }

  /** The session when the trap of a planted breakpoint has been waited for. */
  lemma TrappedAt(p: Program, s: Session, n: nat) returns (s1: Session)
    requires Assumed(p) && Shows(p, s, n) && s.proc.Alive? && PlantedAt(p, s.mem, s.table, n)
    ensures var c := RunAt(p, n).core; var regs := c.regs.(rip := c.regs.rip + 1);
      SteppedAs(p.cpu, s, s1) && s1 == s.(proc := Alive(c.(regs := regs)), regs := regs)
  {
    StepOutcome(p, s, n);
    var e := SingleStep(p.cpu, s.mem, s.proc.core);
    s1 := s.(proc := Alive(e.core), regs := e.core.regs);
  }

  /** What a round of StepAuto comes to in position n: one instruction, ending the command exactly at a stop point
      or when the instruction ends the process. */
  ghost predicate RoundResult(p: Program, s: Session, n: nat, r: Round) {
    && Shows(p, r.s, Advance(p, n)) && r.s.table == s.table
    && (r.Done? <==> StopPoint(p, s.mem, s.table, n) ||
                      (!PlantedAt(p, s.mem, s.table, n) && RunAt(p, Advance(p, n)).Exited?))
    && (r.Done? ==> r.status == if StopPoint(p, s.mem, s.table, n) then Ok else Exit)
    && (StopPoint(p, s.mem, s.table, n) ==> PastEnabled(p, r.s, Advance(p, n)))
  }

  lemma RoundHits(p: Program, s: Session, n: nat)
    requires Assumed(p) && Shows(p, s, n) && s.proc.Alive? && PlantedAt(p, s.mem, s.table, n)
    ensures RoundResult(p, s, n, AutoRound(p.cpu, s))
    ensures var a := RunAt(p, n).core.regs.rip;
      Mapped(s.mem, a) && AutoRound(p.cpu, s).s.mem == Poke(s.mem, a, s.table[FindAddress(s.table, a)].origdata)
  {
    var s1 := TrappedAt(p, s, n);
    AutoRoundIs(p.cpu, s, s1);
    RestoreFollows(p, s1, n);
  }

  lemma RoundPasses(p: Program, s: Session, n: nat)
    requires Assumed(p) && Shows(p, s, n) && s.proc.Alive?
    requires !PlantedAt(p, s.mem, s.table, n) && !PastListed(p, s.table, Advance(p, n))
    ensures RoundResult(p, s, n, AutoRound(p.cpu, s))
    ensures AutoRound(p.cpu, s).s.mem == s.mem
  {
    StepOutcome(p, s, n);
    var e := SingleStep(p.cpu, s.mem, s.proc.core);
    if !e.Gone? { AutoRoundIs(p.cpu, s, s.(proc := ProcOf(e), regs := e.core.regs)); }
  }

  /** Where hits are told, one round of StepAuto is one instruction, whether it was stepped natively or trapped and was
      restored. */
  lemma RoundIsOneInstruction(p: Program, s: Session, n: nat)
    requires Assumed(p) && Shows(p, s, n) && s.proc.Alive? && TellsHits(p.cpu, s)
    ensures RoundResult(p, s, n, AutoRound(p.cpu, s))
  {
    TellsHitsIff(p, s, n);
    if PlantedAt(p, s.mem, s.table, n) { RoundHits(p, s, n); } else { RoundPasses(p, s, n); }
  }

  /** Where they are not, the debuggee is taken back one byte, to the listed address, and executes what is there: if the
      instruction just executed is one byte long, that one a second time. */
  lemma RoundMisled(p: Program, s: Session, n: nat)
    requires Assumed(p) && Shows(p, s, n) && s.proc.Alive? && !TellsHits(p.cpu, s)
    ensures RunAt(p, Advance(p, n)).Alive?
    ensures var a := RunAt(p, Advance(p, n)).core.regs.rip - 1; Listed(s.table, a) && Mapped(s.mem, a)
    ensures var c := RunAt(p, Advance(p, n)).core; var a := c.regs.rip - 1; var r := AutoRound(p.cpu, s);
      && r.s.mem == Poke(s.mem, a, s.table[FindAddress(s.table, a)].origdata) && At(r.s.mem, a) == At(p.orig, a)
      && r.s.proc == ProcOf(SingleStep(p.cpu, r.s.mem, c.(regs := c.regs.(rip := a))))
      && r.s.regs.rip == a && r.s.restored == s.restored + [a] && Sound(p, r.s.mem, r.s.table)
      && r.Done? == s.table[FindAddress(s.table, a)].enabled && (r.Done? ==> r.status.Ok?)
  {
    TellsHitsIff(p, s, n);
    StepOutcome(p, s, n);
    var e := SingleStep(p.cpu, s.mem, s.proc.core);
    var s1 := s.(proc := ProcOf(e), regs := e.core.regs);
    var i := FindAddress(s.table, s1.regs.rip - 1);
    AutoRoundIs(p.cpu, s, s1);
    PokeSaved(p, s.mem, s.table, i);
    RestoreIs(p.cpu, s1, s.table[i].origdata, s1.regs.rip - 1);
  }

  /** The instruction before position n', one byte long and at a listed address, leads to position n' once more
      when it is executed again. */
  ghost predicate Repeats(p: Program, s: Session, n': nat)
    requires PastListed(p, s.table, n')
  {
    var c := RunAt(p, n').core;
    var a := c.regs.rip - 1;
    && Mapped(s.mem, a)
    && var m := Poke(s.mem, a, s.table[FindAddress(s.table, a)].origdata);
      ProcOf(SingleStep(p.cpu, m, c.(regs := c.regs.(rip := a)))) == Alive(c)
  }

  /** So a round is one instruction if and only if hits are told, or being misled has no effect. */
  lemma RoundExactIff(p: Program, s: Session, n: nat)
    requires Assumed(p) && Shows(p, s, n) && s.proc.Alive?
    ensures !TellsHits(p.cpu, s) ==> PastListed(p, s.table, Advance(p, n))
    ensures Shows(p, AutoRound(p.cpu, s).s, Advance(p, n)) <==> TellsHits(p.cpu, s) || Repeats(p, s, Advance(p, n))
  {
    TellsHitsIff(p, s, n);
    if TellsHits(p.cpu, s) { RoundIsOneInstruction(p, s, n); } else { RoundMisled(p, s, n); }
  }

  // ---------- any layout ----------

  /** Every round that StepAuto makes tells hits. */
  ghost predicate AutoTells(cpu: Cpu, s: Session, uninitialised: int, fuel: nat) {
    AutoRounds((s0: Session) => AutoRound(cpu, s0), (s0: Session) => TellsHits(cpu, s0), s, uninitialised, fuel)
  }

  /** Every round that StepX makes tells hits and handles disabled breakpoints in place. */
  ghost predicate StepTells(cpu: Cpu, s: Session, count: int) {
    StepRounds((s0: Session, i: nat) => StepRound(cpu, s0, i),
               (s0: Session, i: nat) => TellsHits(cpu, s0) && InPlace(cpu, s0, i), s, 0, count)
  }

  /** From sessions that show position n of the run, a round leads to sessions that show the next instruction. */
  ghost predicate KeptByRound(p: Program, r: Round, shows: (Session, nat) -> bool, past: (Session, nat) -> bool,
                              s: Session, n: nat) {
    shows(s, n) ==>
      if s.proc.Exited? then r == Done(s, Error)
      else
        && shows(r.s, Advance(p, n))
        && (r.Done? ==> if r.status.Ok? then past(r.s, Advance(p, n)) else r.status.Exit? && r.s.proc.Exited?)
  }

  /** StepAuto has made the given number of rounds: one, if the outer ret happens to hold EXIT_STATUS. */
  ghost predicate RoundsTo(past: bool, uninitialised: int, fuel: nat, rounds: nat, s': Session, st: Status) {
    && rounds <= fuel && (st.Blocked? ==> rounds == fuel) && (uninitialised == 1 ==> rounds <= 1)
    && (st.Exit? || st.Error? ==> s'.proc.Exited?)
    && (st.Ok? ==> past || (uninitialised == 1 && rounds == 1))
  }

  /** Induction over the loop of StepAuto. */
  lemma {:induction false} AutoInduction(p: Program, round: Session -> Round, fine: Session -> bool,
                                         shows: (Session, nat) -> bool, past: (Session, nat) -> bool, s: Session,
                                         uninitialised: int, fuel: nat, n: nat) returns (rounds: nat)
    requires shows(s, n) && AutoRounds(round, fine, s, uninitialised, fuel)
    requires forall s0, n0 | fine(s0) :: KeptByRound(p, round(s0), shows, past, s0, n0)
    ensures var (s', st) := AutoLoop(round, s, uninitialised, fuel); var n' := AdvanceBy(p, n, rounds);
      shows(s', n') && RoundsTo(past(s', n'), uninitialised, fuel, rounds, s', st)
    decreases fuel
  {
    rounds := 0;
    if fuel > 0 {
      assert KeptByRound(p, round(s), shows, past, s, n);
      if s.proc.Alive? {
        var r := round(s);
        if r.Again? && uninitialised != 1 {
          rounds := AutoInduction(p, round, fine, shows, past, r.s, uninitialised, fuel - 1, Advance(p, n));
        } else {
          assert AdvanceBy(p, Advance(p, n), 0) == Advance(p, n);
        }
        assert AdvanceBy(p, n, rounds + 1) == AdvanceBy(p, Advance(p, n), rounds);
        rounds := rounds + 1;
      }
    }
  }

  /** As long as hits are told, StepAuto executes as many instructions as it makes rounds, and ends with 0 only one
      instruction past an enabled breakpoint. */
  lemma StepAutoFollows(p: Program, s: Session, uninitialised: int, fuel: nat, n: nat) returns (rounds: nat)
    requires Assumed(p) && Shows(p, s, n) && AutoTells(p.cpu, s, uninitialised, fuel)
    ensures var (s', st) := StepAuto(p.cpu, s, uninitialised, fuel); var n' := AdvanceBy(p, n, rounds);
      Shows(p, s', n') && RoundsTo(PastEnabled(p, s', n'), uninitialised, fuel, rounds, s', st)
  {
    var round := (s0: Session) => AutoRound(p.cpu, s0);
    var fine := (s0: Session) => TellsHits(p.cpu, s0);
    var shows := (s0: Session, n0: nat) => Shows(p, s0, n0);
    var past := (s0: Session, n0: nat) => PastEnabled(p, s0, n0);
    forall s0, n0 | fine(s0) ensures KeptByRound(p, round(s0), shows, past, s0, n0) {
      if shows(s0, n0) && s0.proc.Alive? { RoundIsOneInstruction(p, s0, n0); }
    }
    rounds := AutoInduction(p, round, fine, shows, past, s, uninitialised, fuel, n);
  }

  /** No instruction of the run starts one byte past a listed address. */
  ghost predicate Exact(p: Program, t: seq<Entry>) {
    forall n: nat, a | Fetches(p, n, a) :: !Listed(t, a - 1)
  }

  lemma NeverPastListed(p: Program, t: seq<Entry>, n: nat)
    requires Exact(p, t)
    ensures !PastListed(p, t, Advance(p, n))
  {
    var n' := Advance(p, n);
    var proc := RunAt(p, n');
    if proc.Alive? {
      AdvanceOutsideKernel(p, n);
      assert Fetches(p, n', proc.core.regs.rip);
    }
  }

  /** A condition on the table alone: then StepAuto tells hits in all its rounds. */
  lemma {:induction false} ExactTells(p: Program, s: Session, uninitialised: int, fuel: nat, n: nat)
    requires Assumed(p) && Shows(p, s, n) && Exact(p, s.table)
    ensures AutoTells(p.cpu, s, uninitialised, fuel)
    decreases fuel
  {
    if fuel > 0 && s.proc.Alive? {
      NeverPastListed(p, s.table, n);
      TellsHitsIff(p, s, n);
      RoundIsOneInstruction(p, s, n);
      ExactTells(p, AutoRound(p.cpu, s).s, uninitialised, fuel - 1, Advance(p, n));
    }
  }

  /** Induction over the loop of StepX. */
  lemma {:induction false} StepInduction(p: Program, round: (Session, nat) -> Round, fine: (Session, nat) -> bool,
                                         shows: (Session, nat) -> bool, past: (Session, nat) -> bool,
                                         s: Session, i: nat, count: int, n: nat) returns (steps: nat)
    requires shows(s, n) && StepRounds(round, fine, s, i, count)
    requires forall s0, i0, n0 | fine(s0, i0) :: KeptByRound(p, round(s0, i0), shows, past, s0, n0)
    ensures var (s', st) := StepLoop(round, s, i, count); var n' := AdvanceBy(p, n, steps);
      && shows(s', n') && steps <= (if i < count then count - i else 0)
      && (i + steps < count ==> if st.Ok? then past(s', n') else s'.proc.Exited?)
    decreases count - i
  {
    steps := 0;
    if i < count {
      assert KeptByRound(p, round(s, i), shows, past, s, n);
      if s.proc.Alive? {
        var r := round(s, i);
        if r.Again? {
          steps := StepInduction(p, round, fine, shows, past, r.s, i + 1, count, Advance(p, n));
        } else {
          assert AdvanceBy(p, Advance(p, n), 0) == Advance(p, n);
        }
        assert AdvanceBy(p, n, steps + 1) == AdvanceBy(p, Advance(p, n), steps);
        steps := steps + 1;
      }
    }
  }

  /** As long as hits are told and disabled breakpoints are handled in place, StepX executes one instruction a
      step; fewer than count only one instruction past an enabled breakpoint, or when the process is gone. */
  lemma StepXFollows(p: Program, s: Session, count: int, n: nat) returns (steps: nat)
    requires Assumed(p) && Shows(p, s, n) && StepTells(p.cpu, s, count)
    ensures var (s', st) := StepX(p.cpu, s, count); var n' := AdvanceBy(p, n, steps);
      && Shows(p, s', n') && steps <= (if count > 0 then count else 0)
      && (steps < count ==> if st.Ok? then PastEnabled(p, s', n') else s'.proc.Exited?)
  {
    var round := (s0: Session, i: nat) => StepRound(p.cpu, s0, i);
    var fine := (s0: Session, i: nat) => TellsHits(p.cpu, s0) && InPlace(p.cpu, s0, i);
    var shows := (s0: Session, n0: nat) => Shows(p, s0, n0);
    var past := (s0: Session, n0: nat) => PastEnabled(p, s0, n0);
    forall s0, i0, n0 | fine(s0, i0) ensures KeptByRound(p, round(s0, i0), shows, past, s0, n0) {
      InPlaceRound(p.cpu, s0, i0);
      if shows(s0, n0) && s0.proc.Alive? { RoundIsOneInstruction(p, s0, n0); }
    }
    steps := StepInduction(p, round, fine, shows, past, s, 0, count, n);
  }

  // ---------- where the stepping commands stop ----------

  /** From session s, which shows position n, to one that shows position j, in which memory is what the run tells. */
  ghost predicate Stepped(p: Program, s: Session, n: nat, s0: Session, j: nat) {
    n <= j && Shows(p, s0, j) && s0.table == s.table && s0.mem == MemAt(p, s.mem, s.table, n, j)
  }

  /** At position j hits are told: a breakpoint is executed that is still planted, or the next instruction is not
      one byte past a listed address. */
  ghost predicate Tells(p: Program, s: Session, n: nat, j: nat) {
    StillPlanted(p, s, n, j) || !PastListed(p, s.table, Advance(p, j))
  }

  /** What a round does at position j: it stops, ends, or goes on one instruction later. */
  ghost predicate RoundStepped(p: Program, s: Session, n: nat, j: nat, r: Round) {
    && Stepped(p, s, n, r.s, Advance(p, j))
    && if StopAhead(p, s, n, j) then r.Done? && r.status.Ok?
       else if r.Done? then r.status.Exit? && r.s.proc.Exited? && !StillPlanted(p, s, n, j)
       else r.s.proc.Exited? ==> StillPlanted(p, s, n, j)
  }

  lemma RoundKeepsStepped(p: Program, s: Session, n: nat, s0: Session, j: nat)
    requires Assumed(p) && Stepped(p, s, n, s0, j) && s0.proc.Alive? && Tells(p, s, n, j)
    ensures RoundStepped(p, s, n, j, AutoRound(p.cpu, s0))
  {
    MemAtAdvance(p, s.mem, s.table, n, j);
    if StillPlanted(p, s, n, j) { RoundHits(p, s0, j); } else { RoundPasses(p, s0, j); }
  }

  /** Counting from i up to count, `fine` holds of the number and the position of each instruction from position n on,
      up to and including the first at a stop point. */
  ghost predicate UpToStop(p: Program, stop: nat -> bool, fine: (nat, nat) -> bool, n: nat, i: nat, count: int)
    decreases count - i
  {
    i < count ==> fine(i, n) && (stop(n) || UpToStop(p, stop, fine, Advance(p, n), i + 1, count))
  }

  /** What round r comes to in a session that shows position n. */
  ghost predicate KeptByStep(p: Program, r: Round, shows: (Session, nat) -> bool, stop: nat -> bool,
                             planted: nat -> bool, s: Session, n: nat) {
    shows(s, n) ==>
      if s.proc.Exited? then r == Done(s, Error)
      else
        && shows(r.s, Advance(p, n))
        && if stop(n) then r.Done? && r.status.Ok?
           else if r.Done? then r.status.Exit? && r.s.proc.Exited? && !planted(n)
           else r.s.proc.Exited? ==> planted(n)
  }

  /** Of the instructions from position n on, the first `rounds` are executed, and only the last of them at a stop
      point. If the process ends, that is told by EXIT_STATUS unless the last one was at a breakpoint, and by -1 if it
      was. */
  ghost predicate StopsAfter(p: Program, stop: nat -> bool, planted: nat -> bool, n: nat, rounds: nat, s': Session,
                             st: Status) {
    && (forall u | 0 <= u < rounds - 1 :: !stop(AdvanceBy(p, n, u)))
    && match st
      case Ok => rounds > 0 && stop(AdvanceBy(p, n, rounds - 1))
      case Blocked => rounds > 0 ==> !stop(AdvanceBy(p, n, rounds - 1))
      case Exit =>
        s'.proc.Exited? && rounds > 0 && !stop(AdvanceBy(p, n, rounds - 1)) && !planted(AdvanceBy(p, n, rounds - 1))
      case Error =>
        s'.proc.Exited?
        && (rounds > 0 ==> !stop(AdvanceBy(p, n, rounds - 1)) && planted(AdvanceBy(p, n, rounds - 1)))
  }

  lemma StopsOneLater(p: Program, stop: nat -> bool, planted: nat -> bool, n: nat, rounds: nat, s': Session, st: Status)
    requires StopsAfter(p, stop, planted, Advance(p, n), rounds, s', st) && !stop(n)
    requires st.Exit? || st.Ok? ==> rounds > 0
    requires st.Error? && rounds == 0 ==> planted(n)
    ensures StopsAfter(p, stop, planted, n, rounds + 1, s', st)
  {
    assert AdvanceBy(p, n, 0) == n;
    forall u: nat ensures AdvanceBy(p, n, u + 1) == AdvanceBy(p, Advance(p, n), u) {
    }
    forall u | 0 <= u < rounds ensures !stop(AdvanceBy(p, n, u)) {
      if u > 0 { assert !stop(AdvanceBy(p, Advance(p, n), u - 1)); }
    }
  }

  /** Induction over the loop of StepAuto, up to the first stop point. */
  lemma {:induction false} AutoStopInduction(p: Program, round: Session -> Round, fine: (nat, nat) -> bool,
                                             shows: (Session, nat) -> bool, stop: nat -> bool,
                                             planted: nat -> bool, s: Session,
                                             uninitialised: int, i: nat, fuel: nat, n: nat) returns (rounds: nat)
    requires shows(s, n) && uninitialised != 1 && UpToStop(p, stop, fine, n, i, i + fuel)
    requires forall s0, i0, n0 | fine(i0, n0) :: KeptByStep(p, round(s0), shows, stop, planted, s0, n0)
    ensures var (s', st) := AutoLoop(round, s, uninitialised, fuel);
      && shows(s', AdvanceBy(p, n, rounds)) && rounds <= fuel && (st.Blocked? ==> rounds == fuel)
      && StopsAfter(p, stop, planted, n, rounds, s', st) && (st.Error? && rounds == 0 ==> s.proc.Exited?)
    decreases fuel
  {
    rounds := 0;
    assert AdvanceBy(p, n, 0) == n;
    if fuel > 0 {
      assert fine(i, n) && KeptByStep(p, round(s), shows, stop, planted, s, n);
      if s.proc.Alive? {
        var r := round(s);
        assert AdvanceBy(p, n, 1) == AdvanceBy(p, Advance(p, n), 0) == Advance(p, n);
        if r.Again? {
          rounds := AutoStopInduction(p, round, fine, shows, stop, planted, r.s, uninitialised,
                                      i + 1, fuel - 1, Advance(p, n));
          var (s', st) := AutoLoop(round, r.s, uninitialised, fuel - 1);
          StopsOneLater(p, stop, planted, n, rounds, s', st);
          assert AdvanceBy(p, n, rounds + 1) == AdvanceBy(p, Advance(p, n), rounds);
        }
        rounds := rounds + 1;
      }
    }
  }

  /** In any layout, as long as hits are told, StepAuto executes instructions up to and including the first
      breakpoint of the undebugged run that is still planted there and enabled. */
  lemma StepAutoStops(p: Program, s: Session, uninitialised: int, fuel: nat, n: nat) returns (rounds: nat)
    requires Assumed(p) && Shows(p, s, n) && uninitialised != 1
    requires UpToStop(p, (j: nat) => StopAhead(p, s, n, j), (i: nat, j: nat) => Tells(p, s, n, j), n, 0, fuel)
    ensures var (s', st) := StepAuto(p.cpu, s, uninitialised, fuel);
      && Stepped(p, s, n, s', AdvanceBy(p, n, rounds)) && rounds <= fuel && (st.Blocked? ==> rounds == fuel)
      && StopsAfter(p, (j: nat) => StopAhead(p, s, n, j), (j: nat) => StillPlanted(p, s, n, j), n, rounds, s', st)
      && (st.Error? && rounds == 0 ==> s.proc.Exited?)
  {
    var round := (s0: Session) => AutoRound(p.cpu, s0);
    var fine := (i: nat, j: nat) => Tells(p, s, n, j);
    var shows := (s0: Session, n0: nat) => Stepped(p, s, n, s0, n0);
    var stop := (j: nat) => StopAhead(p, s, n, j);
    var planted := (j: nat) => StillPlanted(p, s, n, j);
    forall s0, i0, n0 | fine(i0, n0) ensures KeptByStep(p, round(s0), shows, stop, planted, s0, n0) {
      if shows(s0, n0) && s0.proc.Alive? { RoundKeepsStepped(p, s, n, s0, n0); }
    }
    rounds := AutoStopInduction(p, round, fine, shows, stop, planted, s, uninitialised, 0, fuel, n);
  }

  /** Induction over the loop of StepX, up to the first stop point. */
  lemma {:induction false} StepStopInduction(p: Program, round: (Session, nat) -> Round, fine: (nat, nat) -> bool,
                                             shows: (Session, nat) -> bool, stop: nat -> bool,
                                             planted: nat -> bool, s: Session,
                                             i: nat, count: int, n: nat) returns (steps: nat)
    requires shows(s, n) && UpToStop(p, stop, fine, n, i, count)
    requires forall s0, i0, n0 | fine(i0, n0) :: KeptByStep(p, round(s0, i0), shows, stop, planted, s0, n0)
    ensures var (s', st) := StepLoop(round, s, i, count);
      && shows(s', AdvanceBy(p, n, steps)) && StepsTo(p, stop, planted, n, count - i, steps, s', st)
      && (st.Error? && steps == 0 ==> s.proc.Exited?)
    decreases count - i
  {
    steps := 0;
    assert AdvanceBy(p, n, 0) == n;
    if i < count {
      assert fine(i, n) && KeptByStep(p, round(s, i), shows, stop, planted, s, n);
      if s.proc.Alive? {
        var r := round(s, i);
        assert AdvanceBy(p, n, 1) == AdvanceBy(p, Advance(p, n), 0) == Advance(p, n);
        if r.Again? {
          steps := StepStopInduction(p, round, fine, shows, stop, planted, r.s, i + 1, count, Advance(p, n));
          var (s', st) := StepLoop(round, r.s, i + 1, count);
          StepsOneMore(p, stop, planted, n, count - (i + 1), steps, s', st);
          assert AdvanceBy(p, n, steps + 1) == AdvanceBy(p, Advance(p, n), steps);
        }
        steps := steps + 1;
      }
    }
  }

  /** Of count steps from position n on, the given number are made: all, unless one executes a stop point or the
      process ends. With k instructions before the first stop point that is min(count, k + 1). */
  ghost predicate StepsTo(p: Program, stop: nat -> bool, planted: nat -> bool, n: nat, count: int, steps: nat,
                          s': Session, st: Status) {
    && steps <= (if count > 0 then count else 0)
    && if st.Ok? && (steps == 0 || !stop(AdvanceBy(p, n, steps - 1)))
       then steps >= count && forall u | 0 <= u < steps :: !stop(AdvanceBy(p, n, u))
       else !st.Blocked? && StopsAfter(p, stop, planted, n, steps, s', st)
  }

  lemma StepsOneMore(p: Program, stop: nat -> bool, planted: nat -> bool, n: nat, count: int, steps: nat, s': Session,
                     st: Status)
    requires StepsTo(p, stop, planted, Advance(p, n), count, steps, s', st) && !stop(n) && count >= 0
    requires st.Error? && steps == 0 ==> planted(n)
    ensures StepsTo(p, stop, planted, n, count + 1, steps + 1, s', st)
  {
    assert AdvanceBy(p, n, 0) == n;
    forall u: nat ensures AdvanceBy(p, n, u + 1) == AdvanceBy(p, Advance(p, n), u) {
    }
    if st.Ok? && (steps == 0 || !stop(AdvanceBy(p, Advance(p, n), steps - 1))) {
      forall u | 0 <= u < steps + 1 ensures !stop(AdvanceBy(p, n, u)) {
        if u > 0 { assert !stop(AdvanceBy(p, Advance(p, n), u - 1)); }
      }
    } else {
      StopsOneLater(p, stop, planted, n, steps, s', st);
    }
  }

  /** What step i of StepX must be like besides: a disabled breakpoint is met only by the second. */
  ghost predicate TellsStep(p: Program, s: Session, n: nat, i: nat, j: nat) {
    Tells(p, s, n, j) && (StillPlanted(p, s, n, j) && !StopAhead(p, s, n, j) ==> i == 1)
  }

  lemma TellsStepInPlace(p: Program, s: Session, n: nat, s0: Session, i: nat, j: nat)
    requires Assumed(p) && Stepped(p, s, n, s0, j) && s0.proc.Alive? && TellsStep(p, s, n, i, j)
    ensures StepRound(p.cpu, s0, i) == AutoRound(p.cpu, s0)
  {
    DetectionExact(p, s0, j);
    StepOutcome(p, s0, j);
    InPlaceRound(p.cpu, s0, i);
  }

  /** StepX(count) executes min(count, k + 1) instructions, k being how many come before the first stop point. */
  lemma StepXStops(p: Program, s: Session, count: int, n: nat) returns (steps: nat)
    requires Assumed(p) && Shows(p, s, n)
    requires UpToStop(p, (j: nat) => StopAhead(p, s, n, j), (i: nat, j: nat) => TellsStep(p, s, n, i, j), n, 0, count)
    ensures var (s', st) := StepX(p.cpu, s, count);
      && Stepped(p, s, n, s', AdvanceBy(p, n, steps))
      && StepsTo(p, (j: nat) => StopAhead(p, s, n, j), (j: nat) => StillPlanted(p, s, n, j), n, count, steps, s', st)
      && (st.Error? && steps == 0 ==> s.proc.Exited?)
  {
    var round := (s0: Session, i: nat) => StepRound(p.cpu, s0, i);
    var fine := (i: nat, j: nat) => TellsStep(p, s, n, i, j);
    var shows := (s0: Session, n0: nat) => Stepped(p, s, n, s0, n0);
    var stop := (j: nat) => StopAhead(p, s, n, j);
    var planted := (j: nat) => StillPlanted(p, s, n, j);
    forall s0, i0, n0 | fine(i0, n0) ensures KeptByStep(p, round(s0, i0), shows, stop, planted, s0, n0) {
      if shows(s0, n0) && s0.proc.Alive? {
        TellsStepInPlace(p, s, n, s0, i0, n0);
        RoundKeepsStepped(p, s, n, s0, n0);
      }
    }
    steps := StepStopInduction(p, round, fine, shows, stop, planted, s, 0, count, n);
  }

  // ---------- where memory as it is shows the first stop point ----------

  lemma {:induction false} NoStopAmong(p: Program, stop: nat -> bool, n: nat, r: nat)
    requires forall k | stop(k) :: RunAt(p, k).Alive? && !RunAt(p, k).core.inKernel
    requires forall u | 0 <= u < r :: !stop(AdvanceBy(p, n, u))
    ensures forall k | n <= k < AdvanceBy(p, n, r) :: !stop(k)
    decreases r
  {
    if r > 0 {
      assert AdvanceBy(p, n, 0) == n;
      forall u: nat ensures AdvanceBy(p, n, u + 1) == AdvanceBy(p, Advance(p, n), u) {
      }
      forall u | 0 <= u < r - 1 ensures !stop(AdvanceBy(p, Advance(p, n), u)) { assert !stop(AdvanceBy(p, n, u + 1)); }
      NoStopAmong(p, stop, Advance(p, n), r - 1);
    }
  }

  lemma {:induction false} AdvanceByGrows(p: Program, n: nat, u: nat, r: nat)
    requires u < r
    ensures n <= AdvanceBy(p, n, u) < AdvanceBy(p, n, r)
    decreases u
  {
    if u > 0 { AdvanceByGrows(p, Advance(p, n), u - 1, r - 1); }
  }

  /** The instructions that are a stop are then the same, up to the first. */
  lemma PlainSteps(p: Program, s: Session, n: nat, r: nat)
    requires Sound(p, s.mem, s.table) && Plain(p, s, n)
    requires forall u | 0 <= u < r :: !StopAhead(p, s, n, AdvanceBy(p, n, u))
    ensures forall u | 0 <= u < r :: !StopsNow(p, s, AdvanceBy(p, n, u))
    ensures StopAhead(p, s, n, AdvanceBy(p, n, r)) <==> StopsNow(p, s, AdvanceBy(p, n, r))
  {
    var stop := (k: nat) => StopAhead(p, s, n, k);
    NoStopAmong(p, stop, n, r);
    forall k | n <= k < AdvanceBy(p, n, r) ensures !StopAhead(p, s, n, k) { assert !stop(k); }
    PlainNoneBefore(p, s, n, AdvanceBy(p, n, r));
    PlainSame(p, s, n, AdvanceBy(p, n, r));
    forall u | 0 <= u < r ensures !StopsNow(p, s, AdvanceBy(p, n, u)) { AdvanceByGrows(p, n, u, r); }
  }

  /** So what StepAutoStops says holds of the stop points of memory as it is. */
  lemma StopsAfterPlainly(p: Program, s: Session, n: nat, rounds: nat, s': Session, st: Status)
    requires Sound(p, s.mem, s.table) && Plain(p, s, n)
    requires StopsAfter(p, (j: nat) => StopAhead(p, s, n, j), (j: nat) => StillPlanted(p, s, n, j), n, rounds, s', st)
    ensures StopsAfter(p, (j: nat) => StopsNow(p, s, j), (j: nat) => StillPlanted(p, s, n, j), n, rounds, s', st)
  {
    if rounds > 0 { PlainSteps(p, s, n, rounds - 1); }
  }

  /** And what StepXStops says. */
  lemma StepsToPlainly(p: Program, s: Session, n: nat, count: int, steps: nat, s': Session, st: Status)
    requires Sound(p, s.mem, s.table) && Plain(p, s, n)
    requires StepsTo(p, (j: nat) => StopAhead(p, s, n, j), (j: nat) => StillPlanted(p, s, n, j),
                     n, count, steps, s', st)
    ensures StepsTo(p, (j: nat) => StopsNow(p, s, j), (j: nat) => StillPlanted(p, s, n, j), n, count, steps, s', st)
  {
    if steps > 0 {
      PlainSteps(p, s, n, steps - 1);
      assert st.Ok? && !StopAhead(p, s, n, AdvanceBy(p, n, steps - 1)) ==>
        forall u | 0 <= u < steps :: !StopsNow(p, s, AdvanceBy(p, n, u));
    }
  }
}
