/** Any layout, with or without tracing: the undebugged run alone tells which breakpoints are still planted when
    the program gets to them, and so where ContinueExecution stops and how an exit is reported. */
module Ahead {
  import opened Words
  import opened Machine
  import opened Sessions
  import opened Overlap

  /** The program is about to execute an instruction whose breakpoint is planted. */
  ghost predicate PlantedAt(p: Program, m: Memory, t: seq<Entry>, n: nat) {
    var proc := RunAt(p, n);
    proc.Alive? && !proc.core.inKernel && At(m, proc.core.regs.rip) == INT3 && Listed(t, proc.core.regs.rip)
  }

  /** The program is about to execute an instruction whose breakpoint is planted and enabled. */
  ghost predicate StopPoint(p: Program, m: Memory, t: seq<Entry>, n: nat) {
    PlantedAt(p, m, t, n) && t[FindAddress(t, RunAt(p, n).core.regs.rip)].enabled
  }

  // ---------- memory along the run ----------

  /** Memory once the program has passed position n: a hit there has its saved word written back. */
  ghost function AfterFetch(p: Program, m: Memory, t: seq<Entry>, n: nat): Memory {
    if PlantedAt(p, m, t, n) && Mapped(m, RunAt(p, n).core.regs.rip) then
      var a := RunAt(p, n).core.regs.rip;
      Poke(m, a, t[FindAddress(t, a)].origdata)
    else m
  }

  /** Memory when the program gets from position n to position k and every hit on the way is handled. */
  ghost function MemAt(p: Program, m: Memory, t: seq<Entry>, n: nat, k: nat): Memory
    decreases k - n
  {
    if n >= k then m else MemAt(p, AfterFetch(p, m, t, n), t, n + 1, k)
  }

  lemma {:induction false} MemAtJoins(p: Program, m: Memory, t: seq<Entry>, n: nat, l: nat, k: nat)
    requires n <= l <= k
    ensures MemAt(p, MemAt(p, m, t, n, l), t, l, k) == MemAt(p, m, t, n, k)
    decreases l - n
  {
    if n < l { MemAtJoins(p, AfterFetch(p, m, t, n), t, n + 1, l, k); }
  }

  lemma {:induction false} MemAtUnplanted(p: Program, m: Memory, t: seq<Entry>, n: nat, k: nat)
    requires forall j | n <= j < k :: !PlantedAt(p, m, t, j)
    ensures MemAt(p, m, t, n, k) == m
    decreases k - n
  {
    if n < k { MemAtUnplanted(p, m, t, n + 1, k); }
  }

  lemma MemAtNext(p: Program, m: Memory, t: seq<Entry>, n: nat, k: nat)
    requires n <= k
    ensures MemAt(p, m, t, n, k + 1) == AfterFetch(p, MemAt(p, m, t, n, k), t, k)
  {
    MemAtJoins(p, m, t, n, k, k + 1);
    assert MemAt(p, MemAt(p, m, t, n, k), t, k, k + 1) == AfterFetch(p, MemAt(p, m, t, n, k), t, k);
  }

  /** One whole instruction further. */
  lemma MemAtAdvance(p: Program, m: Memory, t: seq<Entry>, n: nat, k: nat)
    requires n <= k
    ensures MemAt(p, m, t, n, Advance(p, k)) == AfterFetch(p, MemAt(p, m, t, n, k), t, k)
  {
    MemAtNext(p, m, t, n, k);
    if Advance(p, k) == k + 2 { MemAtNext(p, m, t, n, k + 1); }
  }

  /** The run keeps the invariant. */
  lemma {:induction false} MemAtSound(p: Program, m: Memory, t: seq<Entry>, n: nat, k: nat)
    requires Sound(p, m, t)
    ensures Sound(p, MemAt(p, m, t, n, k), t)
    decreases k - n
  {
    if n < k {
      FetchSound(p, m, t, n);
      MemAtSound(p, AfterFetch(p, m, t, n), t, n + 1, k);
    }
  }

  lemma FetchSound(p: Program, m: Memory, t: seq<Entry>, n: nat)
    requires Sound(p, m, t)
    ensures Sound(p, AfterFetch(p, m, t, n), t)
  {
    if PlantedAt(p, m, t, n) && Mapped(m, RunAt(p, n).core.regs.rip) {
      PokeSaved(p, m, t, FindAddress(t, RunAt(p, n).core.regs.rip));
    }
  }

  /** The breakpoint at position k is still planted when the program gets there from position n. */
  ghost predicate StillPlanted(p: Program, s: Session, n: nat, k: nat) {
    PlantedAt(p, MemAt(p, s.mem, s.table, n, k), s.table, k)
  }

  /** And it is enabled. */
  ghost predicate StopAhead(p: Program, s: Session, n: nat, k: nat) {
    StopPoint(p, MemAt(p, s.mem, s.table, n, k), s.table, k)
  }

  // ---------- what stops ContinueExecution ----------

  /** An int3 of the program's own. */
  ghost predicate OwnInt3(p: Program, k: nat) {
    var proc := RunAt(p, k);
    proc.Alive? && !proc.core.inKernel && At(p.orig, proc.core.regs.rip) == INT3
  }

  /** What is reported as a system call when tracing is on: an int3 of the program's own, or the entry to a system
      call or the return from it, unless the restoring step of a disabled breakpoint runs over it. */
  ghost predicate TracedStop(p: Program, s: Session, n: nat, k: nat) {
    && !StillPlanted(p, s, n, k)
    && (OwnInt3(p, k) || (Border(p, k) && !(RunAt(p, k).core.inKernel && k > n && StillPlanted(p, s, n, k - 1))))
  }

  ghost predicate StopsHere(p: Program, s: Session, systrace: bool, n: nat, k: nat) {
    StopAhead(p, s, n, k) || (systrace && TracedStop(p, s, n, k))
  }

  /** Where the debuggee is left after a stop at position k. */
  ghost function AfterStop(p: Program, s: Session, n: nat, k: nat): nat {
    if StillPlanted(p, s, n, k) then Advance(p, k) else k + 1
  }

  /** What ContinueExecution from position n does, m being where it is decided. */
  ghost predicate DecidedAt(p: Program, s: Session, systrace: bool, fuel: nat, n: nat, m: nat, s': Session,
                            st: Status) {
    && n <= m && s'.table == s.table
    && (forall j | n <= j < m :: !StopsHere(p, s, systrace, n, j))
    && match st
      case Ok =>
        var n' := AfterStop(p, s, n, m);
        && StopsHere(p, s, systrace, n, m) && (s'.sysStopped <==> !StopAhead(p, s, n, m))
        && s'.proc == RunAt(p, n') && s'.mem == MemAt(p, s.mem, s.table, n, n')
      case Blocked =>
        n + fuel <= m && s'.proc == RunAt(p, m) && s'.proc.Alive? && s'.mem == MemAt(p, s.mem, s.table, n, m)
      case _ => s'.proc == RunAt(p, m) == Exited && s'.mem == MemAt(p, s.mem, s.table, n, m)
  }

  // ---------- one leg ----------

  lemma QuietUnplanted(p: Program, m: Memory, t: seq<Entry>, traced: bool, j: nat)
    requires Quiet(p, m, traced, j)
    ensures !PlantedAt(p, m, t, j)
  {
    var proc := RunAt(p, j);
    if proc.Alive? && !proc.core.inKernel { assert Fetches(p, j, proc.core.regs.rip); }
  }

  /** On the way to where a leg ends, memory is what it was. */
  lemma LegMemory(p: Program, s: Session, systrace: bool, fuel: nat, n: nat, leg: Leg, k: nat)
    requires IsLeg(p, s, systrace, fuel, n, leg) && n <= k <= leg.k
    ensures MemAt(p, s.mem, s.table, n, k) == s.mem
  {
    forall j | n <= j < k ensures !PlantedAt(p, s.mem, s.table, j) { QuietUnplanted(p, s.mem, s.table, systrace, j); }
    MemAtUnplanted(p, s.mem, s.table, n, k);
  }

  /** Only a hit is planted where its leg ends. */
  lemma LegPlanted(p: Program, s: Session, systrace: bool, fuel: nat, n: nat, leg: Leg)
    requires IsLeg(p, s, systrace, fuel, n, leg) && leg.why != Timeout
    ensures StillPlanted(p, s, n, leg.k) <==> leg.why == Hit
    ensures StillPlanted(p, s, n, leg.k) <==> PlantedAt(p, s.mem, s.table, leg.k)
  {
    LegMemory(p, s, systrace, fuel, n, leg, leg.k);
    if leg.why == Ends || leg.why == SystemCall { QuietUnplanted(p, s.mem, s.table, false, leg.k); }
  }

  /** A leg leaves memory as the run tells. */
  lemma LegMemAt(p: Program, s: Session, systrace: bool, fuel: nat, n: nat, leg: Leg)
    requires IsLeg(p, s, systrace, fuel, n, leg)
    ensures leg.turn.s.mem == MemAt(p, s.mem, s.table, n, leg.Reached(p))
  {
    LegMemory(p, s, systrace, fuel, n, leg, leg.k);
    if leg.why != Timeout {
      LegPlanted(p, s, systrace, fuel, n, leg);
      if leg.why == Hit {
        MemAtAdvance(p, s.mem, s.table, n, leg.k);
      } else {
        MemAtNext(p, s.mem, s.table, n, leg.k);
      }
    }
  }

  lemma QuietNoStop(p: Program, s: Session, systrace: bool, fuel: nat, n: nat, leg: Leg, j: nat)
    requires Patched(p.orig, s.mem, s.table) && IsLeg(p, s, systrace, fuel, n, leg) && n <= j < leg.k
    ensures !StopsHere(p, s, systrace, n, j)
  {
    LegMemory(p, s, systrace, fuel, n, leg, j);
    assert Quiet(p, s.mem, systrace, j);
    QuietUnplanted(p, s.mem, s.table, systrace, j);
    UnhinderedNotOwn(p, s.mem, s.table, j);
  }

  lemma UnhinderedNotOwn(p: Program, m: Memory, t: seq<Entry>, j: nat)
    requires Patched(p.orig, m, t) && Unhindered(p, m, j)
    ensures !OwnInt3(p, j)
  {
    var proc := RunAt(p, j);
    if proc.Alive? && !proc.core.inKernel { assert Fetches(p, j, proc.core.regs.rip); }
  }

  /** Where a leg that goes on or ends the process has ended, there was no stop either. */
  lemma LastNoStop(p: Program, s: Session, systrace: bool, fuel: nat, n: nat, leg: Leg)
    requires Patched(p.orig, s.mem, s.table) && IsLeg(p, s, systrace, fuel, n, leg)
    requires leg.turn.Recurse? || leg.why == Ends
    ensures !StopsHere(p, s, systrace, n, leg.k)
  {
    LegPlanted(p, s, systrace, fuel, n, leg);
    LegMemory(p, s, systrace, fuel, n, leg, leg.k);
    if leg.why == Ends { UnhinderedNotOwn(p, s.mem, s.table, leg.k); }
  }

  /** The restoring step runs over a whole system call. */
  lemma OverNoStop(p: Program, s: Session, systrace: bool, n: nat, k: nat)
    requires n <= k && StillPlanted(p, s, n, k) && Advance(p, k) == k + 2
    ensures !StopsHere(p, s, systrace, n, k + 1)
  {
  }

  /** A leg that goes on, ends the process or runs out of time passes no stop. */
  lemma LegNoStop(p: Program, s: Session, systrace: bool, fuel: nat, n: nat, leg: Leg)
    requires Patched(p.orig, s.mem, s.table) && IsLeg(p, s, systrace, fuel, n, leg)
    requires leg.turn.Recurse? || leg.why == Timeout || leg.why == Ends
    ensures forall j | n <= j < leg.Reached(p) :: !StopsHere(p, s, systrace, n, j)
  {
    forall j | n <= j < leg.Reached(p) ensures !StopsHere(p, s, systrace, n, j) {
      if j < leg.k {
        QuietNoStop(p, s, systrace, fuel, n, leg, j);
      } else if j == leg.k {
        LastNoStop(p, s, systrace, fuel, n, leg);
      } else {
        LegPlanted(p, s, systrace, fuel, n, leg);
        OverNoStop(p, s, systrace, n, leg.k);
      }
    }
  }

  lemma LegDecides(p: Program, s: Session, systrace: bool, fuel: nat, n: nat, leg: Leg)
    requires Patched(p.orig, s.mem, s.table) && IsLeg(p, s, systrace, fuel, n, leg) && leg.turn.Return?
    ensures var m := if leg.why == Timeout || leg.why == Ends then leg.Reached(p) else leg.k;
      DecidedAt(p, s, systrace, fuel, n, m, leg.turn.s, leg.turn.status)
  {
    LegMemAt(p, s, systrace, fuel, n, leg);
    if leg.why == Timeout || leg.why == Ends {
      LegNoStop(p, s, systrace, fuel, n, leg);
    } else {
      forall j | n <= j < leg.k ensures !StopsHere(p, s, systrace, n, j) {
        QuietNoStop(p, s, systrace, fuel, n, leg, j);
      }
      LegPlanted(p, s, systrace, fuel, n, leg);
      StopAtLeg(p, s, systrace, fuel, n, leg);
    }
  }

  lemma StopAtLeg(p: Program, s: Session, systrace: bool, fuel: nat, n: nat, leg: Leg)
    requires IsLeg(p, s, systrace, fuel, n, leg) && leg.turn.Return? && leg.turn.status.Ok?
    ensures StopsHere(p, s, systrace, n, leg.k) && (StopAhead(p, s, n, leg.k) <==> leg.why == Hit)
  {
    LegPlanted(p, s, systrace, fuel, n, leg);
    LegMemory(p, s, systrace, fuel, n, leg, leg.k);
    if leg.why == SystemCall && leg.k > n && RunAt(p, leg.k).core.inKernel {
      // tracing would have stopped at the entry
      assert Quiet(p, s.mem, systrace, leg.k - 1);
      LegMemory(p, s, systrace, fuel, n, leg, leg.k - 1);
      QuietUnplanted(p, s.mem, s.table, systrace, leg.k - 1);
    }
  }

  // ---------- all legs ----------

  lemma StillPlantedLater(p: Program, s: Session, n: nat, l: nat, s1: Session, k: nat)
    requires n <= l <= k && s1.mem == MemAt(p, s.mem, s.table, n, l) && s1.table == s.table
    ensures MemAt(p, s1.mem, s.table, l, k) == MemAt(p, s.mem, s.table, n, k)
    ensures StillPlanted(p, s1, l, k) <==> StillPlanted(p, s, n, k)
    ensures StopAhead(p, s1, l, k) <==> StopAhead(p, s, n, k)
  {
    MemAtJoins(p, s.mem, s.table, n, l, k);
  }

  /** From a later session outside the kernel the stops are the same. */
  lemma StopsHereLater(p: Program, s: Session, systrace: bool, n: nat, l: nat, s1: Session, k: nat)
    requires n <= l <= k && s1.mem == MemAt(p, s.mem, s.table, n, l) && s1.table == s.table
    requires RunAt(p, l).Alive? ==> !RunAt(p, l).core.inKernel
    ensures StopsHere(p, s1, systrace, l, k) <==> StopsHere(p, s, systrace, n, k)
  {
    StillPlantedLater(p, s, n, l, s1, k);
    if k > l { StillPlantedLater(p, s, n, l, s1, k - 1); }
  }

  lemma DecidedLater(p: Program, s: Session, systrace: bool, fuel: nat, n: nat, l: nat, s1: Session, left: nat,
                     m: nat, s': Session, st: Status)
    requires n <= l && s1.mem == MemAt(p, s.mem, s.table, n, l) && s1.table == s.table && n + fuel <= l + left
    requires RunAt(p, l).Alive? ==> !RunAt(p, l).core.inKernel
    requires forall j | n <= j < l :: !StopsHere(p, s, systrace, n, j)
    requires DecidedAt(p, s1, systrace, left, l, m, s', st)
    ensures DecidedAt(p, s, systrace, fuel, n, m, s', st)
  {
    forall j | l <= j <= m ensures StopsHere(p, s1, systrace, l, j) <==> StopsHere(p, s, systrace, n, j) {
      StopsHereLater(p, s, systrace, n, l, s1, j);
    }
    StillPlantedLater(p, s, n, l, s1, m);
    StillPlantedLater(p, s, n, l, s1, AfterStop(p, s, n, m));
  }

  /** A leg that goes on leaves the debuggee outside the kernel. */
  lemma RecurseOutsideKernel(p: Program, s: Session, systrace: bool, fuel: nat, n: nat, leg: Leg)
    requires IsLeg(p, s, systrace, fuel, n, leg) && leg.turn.Recurse? && RunAt(p, leg.Reached(p)).Alive?
    ensures !RunAt(p, leg.Reached(p)).core.inKernel
  {
    if leg.why == Hit { AdvanceOutsideKernel(p, leg.k); }
  }

  /** ContinueExecution is decided by the first stop on the undebugged run: an enabled breakpoint that is still
      planted there and, with tracing on, the border of a system call or an int3 of the program's own. It returns 0
      right after that, and anything else only if there was none. Memory is what the run tells. */
  lemma {:induction false} ContinueDecided(p: Program, s: Session, systrace: bool, fuel: nat, n: nat) returns (m: nat)
    requires Assumed(p) && Shows(p, s, n)
    ensures var (s', st) := Continue(p.cpu, s, systrace, fuel); DecidedAt(p, s, systrace, fuel, n, m, s', st)
    decreases fuel
  {
    m := n;
    if s.proc.Alive? {
      var leg := FirstLeg(p, s, systrace, fuel, n);
      if leg.turn.Return? {
        m := if leg.why == Timeout || leg.why == Ends then leg.Reached(p) else leg.k;
        LegDecides(p, s, systrace, fuel, n, leg);
      } else {
        var l := leg.Reached(p);
        m := ContinueDecided(p, leg.turn.s, systrace, leg.turn.left, l);
        var (s', st) := Continue(p.cpu, leg.turn.s, systrace, leg.turn.left);
        LegGoesOn(p, s, systrace, fuel, n, leg);
        DecidedLater(p, s, systrace, fuel, n, l, leg.turn.s, leg.turn.left, m, s', st);
      }
    }
  }

  lemma LegGoesOn(p: Program, s: Session, systrace: bool, fuel: nat, n: nat, leg: Leg)
    requires Patched(p.orig, s.mem, s.table) && IsLeg(p, s, systrace, fuel, n, leg) && leg.turn.Recurse?
    ensures var l := leg.Reached(p);
      && leg.turn.s.mem == MemAt(p, s.mem, s.table, n, l) && (RunAt(p, l).Alive? ==> !RunAt(p, l).core.inKernel)
      && forall j | n <= j < l :: !StopsHere(p, s, systrace, n, j)
  {
    LegMemAt(p, s, systrace, fuel, n, leg);
    if RunAt(p, leg.Reached(p)).Alive? { RecurseOutsideKernel(p, s, systrace, fuel, n, leg); }
    LegNoStop(p, s, systrace, fuel, n, leg);
  }

  lemma StopsWhereAlive(p: Program, s: Session, systrace: bool, n: nat, k: nat)
    requires StopsHere(p, s, systrace, n, k)
    ensures RunAt(p, k).Alive?
  {
  }

  /** The other direction: when the first stop lies within the time watched, that is where the debuggee stops. */
  lemma FirstStopStops(p: Program, s: Session, systrace: bool, fuel: nat, n: nat, m: nat)
    requires Assumed(p) && Shows(p, s, n)
    requires n <= m < n + fuel && StopsHere(p, s, systrace, n, m)
    requires forall j | n <= j < m :: !StopsHere(p, s, systrace, n, j)
    ensures var (s', st) := Continue(p.cpu, s, systrace, fuel);
      st == Ok && s'.proc == RunAt(p, AfterStop(p, s, n, m)) && (s'.sysStopped <==> !StopAhead(p, s, n, m))
  {
    var m' := ContinueDecided(p, s, systrace, fuel, n);
    var (s', st) := Continue(p.cpu, s, systrace, fuel);
    DecidedByFirst(p, s, systrace, fuel, n, m, m', s', st);
  }

  lemma DecidedByFirst(p: Program, s: Session, systrace: bool, fuel: nat, n: nat, m: nat, m': nat, s': Session,
                       st: Status)
    requires n <= m < n + fuel && StopsHere(p, s, systrace, n, m) && DecidedAt(p, s, systrace, fuel, n, m', s', st)
    requires forall j | n <= j < m :: !StopsHere(p, s, systrace, n, j)
    ensures m' == m && st == Ok
  {
    StopsWhereAlive(p, s, systrace, n, m);
    if m' <= m && RunAt(p, m').Exited? { ExitedStays(p, m', m); }
  }

  // ---------- how an exit is reported ----------

  /** From position n on, the instruction at position k is the one that ends the process. */
  ghost predicate LastInstruction(p: Program, n: nat, k: nat) {
    && n <= k && RunAt(p, k).Alive? && (k == n || !RunAt(p, k).core.inKernel)
    && RunAt(p, Advance(p, k)).Exited?
  }

  /** What is returned when the instruction at position k ends the process: EXIT_STATUS if it ran by itself; but if
      it was the single step of RestoreBreakpoint, whose result is dropped, 0 when its breakpoint was enabled and -1
      when not. */
  ghost function ExitCode(p: Program, s: Session, n: nat, k: nat): Status
    requires RunAt(p, k).Alive?
  {
    if !StillPlanted(p, s, n, k) then Exit
    else if s.table[FindAddress(s.table, RunAt(p, k).core.regs.rip)].enabled then Ok
    else Error
  }

  lemma EndsByItself(p: Program, s: Session, systrace: bool, fuel: nat, n: nat, leg: Leg) returns (k: nat)
    requires IsLeg(p, s, systrace, fuel, n, leg) && leg.why == Ends
    ensures LastInstruction(p, n, k) && !StillPlanted(p, s, n, k)
  {
    k := if RunAt(p, leg.k).core.inKernel && leg.k > n then leg.k - 1 else leg.k;
    if k < leg.k {
      assert RunAt(p, leg.k) == ProcOf(MicroStep(p.cpu, p.orig, RunAt(p, k).core));
      assert Quiet(p, s.mem, systrace, k);
    }
    LegMemory(p, s, systrace, fuel, n, leg, k);
    QuietUnplanted(p, s.mem, s.table, false, k);
  }

  /** When ContinueExecution leaves the process exited, the instruction that ended it decides what it returns. */
  lemma {:induction false} ContinueExits(p: Program, s: Session, systrace: bool, fuel: nat, n: nat) returns (k: nat)
    requires Assumed(p) && Shows(p, s, n) && s.proc.Alive?
    requires Continue(p.cpu, s, systrace, fuel).0.proc.Exited?
    ensures LastInstruction(p, n, k) && Continue(p.cpu, s, systrace, fuel).1 == ExitCode(p, s, n, k)
    decreases fuel
  {
    var leg := FirstLeg(p, s, systrace, fuel, n);
    if leg.why == Ends {
      k := EndsByItself(p, s, systrace, fuel, n, leg);
    } else if leg.turn.s.proc.Exited? {
      k := leg.k;
      LegPlanted(p, s, systrace, fuel, n, leg);
    } else {
      k := ContinueExits(p, leg.turn.s, systrace, leg.turn.left, leg.Reached(p));
      LegMemAt(p, s, systrace, fuel, n, leg);
      RecurseOutsideKernel(p, s, systrace, fuel, n, leg);
      ExitLater(p, s, n, leg.Reached(p), leg.turn.s, k);
    }
  }

  lemma ExitLater(p: Program, s: Session, n: nat, l: nat, s1: Session, k: nat)
    requires n <= l && s1.mem == MemAt(p, s.mem, s.table, n, l) && s1.table == s.table
    requires RunAt(p, l).Alive? && !RunAt(p, l).core.inKernel && LastInstruction(p, l, k)
    ensures LastInstruction(p, n, k) && ExitCode(p, s1, l, k) == ExitCode(p, s, n, k)
  {
    StillPlantedLater(p, s, n, l, s1, k);
  }

  lemma OneLastInstruction(p: Program, n: nat, k: nat, k': nat)
    requires LastInstruction(p, n, k) && LastInstruction(p, n, k')
    ensures k == k'
  {
    if k < k' && Advance(p, k) <= k' { ExitedStays(p, Advance(p, k), k'); }
    if k' < k && Advance(p, k') <= k { ExitedStays(p, Advance(p, k'), k); }
  }

  /** The process was gone before, or ended with an instruction that decides the return code. */
  ghost predicate Reported(p: Program, s: Session, n: nat, st: Status) {
    if s.proc.Exited? then st == Error
    else forall k | LastInstruction(p, n, k) :: st == ExitCode(p, s, n, k)
  }

  /** Every exit is reported as its last instruction says. */
  lemma ExitReported(p: Program, s: Session, systrace: bool, fuel: nat, n: nat)
    requires Assumed(p) && Shows(p, s, n) && Continue(p.cpu, s, systrace, fuel).0.proc.Exited?
    ensures Reported(p, s, n, Continue(p.cpu, s, systrace, fuel).1)
  {
    if s.proc.Alive? {
      var k := ContinueExits(p, s, systrace, fuel, n);
      forall k' | LastInstruction(p, n, k') ensures k' == k { OneLastInstruction(p, n, k, k'); }
    }
  }
}
