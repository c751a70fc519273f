/** The debugger's commands, step by step on its own state and the debuggee's. */
module Debugger {
  import opened Words
  import opened Machine
  import opened Sessions
  import opened Breakpoints

  class Main {
    const tracee: Tracee
    const systrace: bool
    /** m_regs */
    var regs: Regs
    var running: bool
    var sysStopped: bool
    /** What RestoreBreakpoint has logged. */
    var restored: seq<int>
    /** A null pointer has been followed. */
    var crashed: bool

    constructor (p: Program, systrace: bool)
      ensures fresh(tracee) && this.systrace == systrace && tracee.cpu == p.cpu
      ensures forall li: BreakpointList | allocated(li) && li.table == [] :: View(li) == Attach(p)
    {
      this.systrace := systrace;
      tracee := new Tracee(p);
      regs, running, sysStopped, restored, crashed := p.start.regs, true, false, [], false;
    }

    /** The state of the session. */
    ghost function View(li: BreakpointList): Session
      reads this, tracee, li
    {
      Session(tracee.mem, tracee.proc, regs, li.table, running, sysStopped, restored, crashed)
    }

    /** Exit when the debuggee has exited, Ok when it has stopped, Blocked when it still runs. */
    method WaitForProcess() returns (st: Status)
      modifies `running
      ensures st == match tracee.stop case AtExit => Exit case NotYet => Blocked case _ => Ok
      ensures running == if tracee.stop.AtExit? then false else old(running)
    {
      match tracee.stop
      case AtExit =>
        running := false;
        st := Exit;
      case NotYet => st := Blocked;
      case _ => st := Ok;
    }

    method PlaceBreakpoint(li: BreakpointList, address: int) returns (st: Status)
      requires li.Valid()
      modifies tracee`mem, li
      ensures li.Valid() && (View(li), st) == Place(old(View(li)), address)
    {
      var origdata := tracee.PeekText(address);
      var ok := tracee.PokeText(address, Plant(origdata));
      if !ok {
        return Error;
      }
      li.AppendElement(address, origdata);
      return Ok;
    }

    method DisableBreakpoint(li: BreakpointList, number: int)
      requires li.Valid()
      modifies this`crashed, li`table, li.elements
      ensures li.Valid() && View(li) == Disable(old(View(li)), number)
    {
      var b := li.GetElementByBreakpointNumber(number);
      if b == null {
        // reported, and followed all the same
        crashed := true;
        return;
      }
      ghost var i := FindGuarded(li.table, number);
      b.DisableBreakpoint();
      li.table := li.table[i := li.table[i].(enabled := false)];
    }

    method RemoveBreakpoint(li: BreakpointList, number: int) returns (st: Status)
      requires li.Valid()
      modifies tracee`mem, li
      ensures li.Valid() && (View(li), st) == Remove(old(View(li)), number)
    {
      st := li.RemoveElement(tracee, number);
    }

    method RemoveAllBreakpoints(li: BreakpointList) returns (st: Status)
      requires li.Valid()
      modifies tracee`mem, li
      ensures li.Valid() && (View(li), st) == RemoveAllFrom(old(View(li)), 0)
    {
      var i := 0;
      while i < |li.elements|
        invariant li.Valid()
        invariant RemoveAllFrom(old(View(li)), 0) == RemoveAllFrom(View(li), i)
        decreases |li.elements| - i
      {
        ghost var s := View(li);
        var ret := li.RemoveElement(tracee, i + 1);
        assert (View(li), ret) == Remove(s, i + 1);
        if ret.Error? {
          return Error;
        }
        i := i + 1;
      }
      return Ok;
    }

    /** The first half of RestoreBreakpoint: write the word back and rewind rip. */
    method Rewind(origdata: Word, address: int) returns (ok: bool)
      modifies `regs, `restored, tracee`mem, tracee`proc
      ensures restored == old(restored) + [address]
      ensures ok == (old(tracee.proc).Alive? && Mapped(old(tracee.mem), address))
      ensures !ok ==> tracee.mem == old(tracee.mem) && tracee.proc == old(tracee.proc) && regs == old(regs)
      ensures ok ==>
        && tracee.mem == Poke(old(tracee.mem), address, origdata)
        && regs == old(tracee.proc).core.regs.(rip := address)
        && tracee.proc == Alive(old(tracee.proc).core.(regs := regs))
    {
      restored := restored + [address];
      ok := tracee.PokeText(address, origdata);
      if !ok {
        return;
      }
      ok, regs := tracee.GetRegs(regs);
      if !ok {
        return;
      }
      regs := regs.(rip := address);
      ok := tracee.SetRegs(regs);
    }

    /** PTRACE_SINGLESTEP and the wait after it. */
    method StepAndWait() returns (st: Status)
      modifies `running, tracee`proc, tracee`stop
      ensures old(tracee.proc).Exited? ==> st == Error && tracee.proc.Exited? && running == old(running)
      ensures old(tracee.proc).Alive? ==>
        var e := SingleStep(tracee.cpu, tracee.mem, old(tracee.proc).core);
        && tracee.proc == ProcOf(e) && st == (if e.Gone? then Exit else Ok)
        && running == (if e.Gone? then false else old(running))
    {
      var ok := tracee.Step();
      if !ok {
        return Error;
      }
      st := WaitForProcess();
    }

    method RestoreBreakpoint(b: Breakpoint, address: int, ghost li: BreakpointList, ghost s: Session)
      returns (st: Status)
      requires li.Valid() && s == View(li)
      modifies this`regs, this`running, this`restored, tracee
      ensures li.Valid()
      ensures (View(li), st) == Restore(tracee.cpu, s, b.origdata, address)
    {
      var ok := Rewind(b.origdata, address);
      if !ok {
        return Error;
      }
      st := StepAndWait();
    }

    /** Resume the debuggee and wait for it. */
    method RunAndWait(fuel: nat) returns (st: Status, left: nat)
      modifies this`running, this`sysStopped, tracee`proc, tracee`stop
      ensures !sysStopped
      ensures old(tracee.proc).Exited? ==> st == Error && tracee.proc.Exited? && running == old(running)
      ensures old(tracee.proc).Alive? ==>
        var r := Resume(tracee.cpu, tracee.mem, old(tracee.proc).core, systrace, fuel);
        && tracee.proc == r.1 && left == r.2
        && st == (if r.0.NotYet? then Blocked else if r.0.AtExit? then Exit else Ok)
        && running == (if r.0.AtExit? then false else old(running))
    {
      if sysStopped { sysStopped := false; }
      var ok;
      ok, left := tracee.Run(systrace, fuel);
      if !ok {
        return Error, left;
      }
      st := WaitForProcess();
    }

    /** GETREGS, and the lookup of the breakpoint before rip. */
    method LookUp(li: BreakpointList) returns (b: Breakpoint?)
      requires li.Valid() && tracee.proc.Alive?
      modifies this`regs
      ensures regs == tracee.proc.core.regs && Looked(li, b)
    {
      var ok;
      ok, regs := tracee.GetRegs(regs);
      b := li.GetElementByAddress(regs.rip - 1);
    }

    /** What ContinueExecution begins with: resume, wait, and look up the breakpoint before rip. */
    method RunToStop(li: BreakpointList, fuel: nat, ghost s: Session) returns (st: Status, left: nat, b: Breakpoint?)
      requires li.Valid() && s == View(li)
      modifies this`regs, this`running, this`sysStopped, tracee`proc, tracee`stop
      ensures li.Valid()
      ensures !st.Ok? ==> TurnEnds(tracee.cpu, s, systrace, fuel, View(li), st)
      ensures st.Ok? ==> left < fuel && StoppedAs(tracee.cpu, s, systrace, fuel, View(li), left)
      ensures st.Ok? ==> Looked(li, b)
    {
      b := null;
      st, left := RunAndWait(fuel);
      if st.Ok? {
        b := LookUp(li);
      }
    }

    /** b is the breakpoint that rip - 1 is looked up as. */
    ghost predicate Looked(li: BreakpointList, b: Breakpoint?)
      reads this`regs, li, b
    {
      var i := FindAddress(li.table, regs.rip - 1);
      if i == |li.table| then b == null else b != null && b.View() == li.table[i]
    }

    method ContinueExecution(li: BreakpointList, fuel: nat) returns (st: Status)
      requires li.Valid()
      modifies this, tracee
      ensures li.Valid()
      ensures (View(li), st) == Continue(tracee.cpu, old(View(li)), systrace, fuel)
      decreases fuel
    {
      ghost var s := View(li);
      var ret, left, b := RunToStop(li, fuel, s);
      if !ret.Ok? {
        TurnEndsIs(tracee.cpu, s, systrace, fuel, View(li), ret);
        return ret;
      }
      ghost var s1 := View(li);
      if b == null {
        MissTurn(tracee.cpu, s, systrace, fuel, s1, left);
        if systrace {
          sysStopped := true;
          return Ok;
        }
      } else {
        HitTurn(tracee.cpu, s, systrace, fuel, s1, left, FindAddress(s1.table, s1.regs.rip - 1));
        ret := RestoreBreakpoint(b, regs.rip - 1, li, s1);
        if b.enabled {
          return Ok;
        }
      }
      st := ContinueExecution(li, left);
    }

    /** What a round of either stepping loop begins with. */
    method StepOnce(li: BreakpointList, ghost s: Session) returns (st: Status, b: Breakpoint?)
      requires li.Valid() && s == View(li)
      modifies this`regs, this`running, tracee`proc, tracee`stop
      ensures li.Valid()
      ensures !st.Ok? ==> RoundEnds(tracee.cpu, s, View(li), st)
      ensures st.Ok? ==> SteppedAs(tracee.cpu, s, View(li)) && Looked(li, b)
    {
      b := null;
      st := StepAndWait();
      if st.Ok? {
        b := LookUp(li);
      }
    }

    /** One round of the loop of StepX; over when it returns. */
    method StepXRound(li: BreakpointList, i: nat) returns (over: bool, st: Status)
      requires li.Valid()
      modifies this, tracee
      ensures li.Valid()
      ensures StepRound(tracee.cpu, old(View(li)), i) == if over then Done(View(li), st) else Again(View(li))
    {
      ghost var s := View(li);
      var ret, b := StepOnce(li, s);
      if !ret.Ok? {
        RoundEndsIs(tracee.cpu, s, View(li), ret, i);
        return true, ret;
      }
      ghost var s1 := View(li);
      StepRoundIs(tracee.cpu, s, s1, i);
      if b == null {
        return false, Ok;
      }
      over := b.enabled;
      ret := RestoreBreakpoint(b, regs.rip - if over then 1 else i, li, s1);
      return over, Ok;
    }

    method StepX(li: BreakpointList, count: int) returns (st: Status)
      requires li.Valid()
      modifies this, tracee
      ensures li.Valid()
      ensures (View(li), st) == Sessions.StepX(tracee.cpu, old(View(li)), count)
    {
      ghost var cpu := tracee.cpu;
      ghost var round := (s: Session, i: nat) => StepRound(cpu, s, i);
      var i := 0;
      while i < count
        invariant 0 <= i && li.Valid()
        invariant StepLoop(round, old(View(li)), 0, count) == StepLoop(round, View(li), i, count)
        decreases count - i
      {
        var over, ret := StepXRound(li, i);
        if over {
          return ret;
        }
        i := i + 1;
      }
      return Ok;
    }

    /** One round of the loop of StepAuto; over when it returns. */
    method StepAutoRound(li: BreakpointList) returns (over: bool, st: Status)
      requires li.Valid()
      modifies this, tracee
      ensures li.Valid()
      ensures AutoRound(tracee.cpu, old(View(li))) == if over then Done(View(li), st) else Again(View(li))
    {
      ghost var s := View(li);
      var ret, b := StepOnce(li, s);
      if !ret.Ok? {
        RoundEndsIs(tracee.cpu, s, View(li), ret, 0);
        return true, ret;
      }
      ghost var s1 := View(li);
      AutoRoundIs(tracee.cpu, s, s1);
      if b == null {
        return false, Ok;
      }
      over := b.enabled;
      ret := RestoreBreakpoint(b, regs.rip - 1, li, s1);
      return over, Ok;
    }

    /** Watched for at most fuel rounds; ret is the variable that the loop condition reads and nothing assigns. */
    method StepAuto(li: BreakpointList, ret: int, fuel: nat) returns (st: Status)
      requires li.Valid()
      modifies this, tracee
      ensures li.Valid()
      ensures (View(li), st) == Sessions.StepAuto(tracee.cpu, old(View(li)), ret, fuel)
    {
      ghost var cpu, s := tracee.cpu, View(li);
      ghost var result := Sessions.StepAuto(cpu, s, ret, fuel);
      var left := fuel;
      while left > 0
        invariant li.Valid() && s == View(li)
        invariant result == Sessions.StepAuto(cpu, s, ret, left)
      {
        ghost var before := s;
        var over, status := StepAutoRound(li);
        s := View(li);
        if over {
          StepAutoOver(cpu, before, ret, left, s, status);
          return status;
        }
        StepAutoAgain(cpu, before, ret, left, s);
        if ret == 1 {
          return Ok;
        }
        left := left - 1;
      }
      return Blocked;
    }
  }
}
