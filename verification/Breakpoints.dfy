/** The debuggee process behind ptrace, and the list of breakpoints set in it. */
module Breakpoints {
  import opened Words
  import opened Machine
  import opened Sessions

  /** A traced process. Its fields stand for the kernel's; the debugger reaches them through the requests below only. */
  class Tracee {
    const cpu: Cpu
    var mem: Memory
    var proc: Proc
    /** What the next waitpid reports. */
    var stop: Stop

    constructor (p: Program)
      ensures cpu == p.cpu && mem == p.orig && proc == Alive(p.start)
    {
      cpu, mem, proc, stop := p.cpu, p.orig, Alive(p.start), AtTrap;
    }

    /** PTRACE_PEEKTEXT */
    method PeekText(a: int) returns (w: Word)
      ensures w == Sessions.PeekText(proc, mem, a)
    {
      if proc.Alive? && Mapped(mem, a) {
        w := Peek(mem, a);
      } else {
        w := ALL_ONES;
      }
    }

    /** PTRACE_POKETEXT */
    method PokeText(a: int, w: Word) returns (ok: bool)
      modifies `mem
      ensures ok == (proc.Alive? && Mapped(old(mem), a))
      ensures mem == if ok then Poke(old(mem), a, w) else old(mem)
    {
      ok := proc.Alive? && Mapped(mem, a);
      if ok { mem := Poke(mem, a, w); }
    }

    /** PTRACE_GETREGS */
    method GetRegs(before: Regs) returns (ok: bool, regs: Regs)
      ensures ok == proc.Alive?
      ensures regs == if ok then proc.core.regs else before
    {
      ok, regs := proc.Alive?, if proc.Alive? then proc.core.regs else before;
    }

    /** PTRACE_SETREGS */
    method SetRegs(regs: Regs) returns (ok: bool)
      modifies `proc
      ensures ok == old(proc).Alive?
      ensures proc == if ok then Alive(old(proc).core.(regs := regs)) else old(proc)
    {
      ok := proc.Alive?;
      if ok { proc := Alive(proc.core.(regs := regs)); }
    }

    /** PTRACE_SINGLESTEP */
    method Step() returns (ok: bool)
      modifies `proc, `stop
      ensures ok == old(proc).Alive?
      ensures ok ==> var e := SingleStep(cpu, mem, old(proc).core);
        proc == ProcOf(e) && stop == if e.Gone? then AtExit else AtTrap
      ensures !ok ==> proc == old(proc)
    {
      ok := proc.Alive?;
      if ok {
        var e := SingleStep(cpu, mem, proc.core);
        proc := ProcOf(e);
        stop := if e.Gone? then AtExit else AtTrap;
      }
    }

    /** PTRACE_CONT and, when traced, PTRACE_SYSCALL. */
    method Run(traced: bool, fuel: nat) returns (ok: bool, left: nat)
      modifies `proc, `stop
      ensures ok == old(proc).Alive?
      ensures ok ==> (stop, proc, left) == Resume(cpu, mem, old(proc).core, traced, fuel)
      ensures !ok ==> proc == old(proc)
    {
      ok, left := proc.Alive?, 0;
      if ok {
        var (s, p, l) := Resume(cpu, mem, proc.core, traced, fuel);
        stop, proc, left := s, p, l;
      }
    }
  }

  class Breakpoint {
    const address: int
    const origdata: Word
    const number: int
    var enabled: bool

    constructor (address: int, origdata: Word, number: int, enabled: bool)
      ensures View() == Entry(address, origdata, number, enabled)
    {
      this.address, this.origdata, this.number, this.enabled := address, origdata, number, enabled;
    }

    ghost function View(): Entry
      reads this
    {
      Entry(address, origdata, number, enabled)
    }

    method DisableBreakpoint()
      modifies this
      ensures View() == old(View()).(enabled := false)
    {
      enabled := false;
    }

    method EnableBreakpoint()
      modifies this
      ensures View() == old(View()).(enabled := true)
    {
      enabled := true;
    }
  }

  class BreakpointList {
    /** B_List */
    var elements: seq<Breakpoint>
    /** The entries that the elements stand for. */
    ghost var table: seq<Entry>

    constructor ()
      ensures Valid() && table == []
    {
      elements, table := [], [];
    }

    ghost predicate Valid()
      reads this, elements
    {
      && |table| == |elements|
      && (forall i | 0 <= i < |elements| :: elements[i].View() == table[i])
      && forall i, j | 0 <= i < j < |elements| :: elements[i] != elements[j]
    }

    method AppendElement(address: int, origdata: Word)
      requires Valid()
      modifies this
      ensures Valid() && table == Append(old(table), address, origdata)
      ensures forall b | b in elements :: b in old(elements) || fresh(b)
    {
      var b := new Breakpoint(address, origdata, |elements| + 1, true);
      b.EnableBreakpoint();
      elements := elements + [b];
      table := Append(table, address, origdata);
    }

    /** The first element with a number, or |elements|. */
    method IndexOfNumber(number: int) returns (i: nat)
      requires Valid()
      ensures i == FindNumber(table, number)
    {
      i := 0;
      while i < |elements| && elements[i].number != number
        invariant i <= |elements|
        invariant FindNumber(table, number) == FindNumberFrom(table, number, i)
      {
        assert elements[i].View() == table[i];
        i := i + 1;
      }
      assert i < |elements| ==> elements[i].View() == table[i];
    }

    method RemoveElement(tracee: Tracee, number: int) returns (st: Status)
      requires Valid()
      modifies this, tracee`mem
      ensures Valid() && forall b | b in elements :: b in old(elements)
      ensures (tracee.mem, table, st) == RemoveFrom(tracee.proc, old(tracee.mem), old(table), number)
    {
      if number > |elements| || number <= 0 {
        return Ok;
      }
      var i := IndexOfNumber(number);
      if i < |elements| {
        var b := elements[i];
        assert b.View() == table[i];
        var data := tracee.PeekText(b.address);
        if LooksPlanted(data) {
          var ok := tracee.PokeText(b.address, b.origdata);
          if !ok {
            return Error;
          }
        }
        Erase(i);
      }
      return Ok;
    }

    method Erase(i: nat)
      requires Valid() && i < |elements|
      modifies this
      ensures Valid() && table == Without(old(table), i) && elements == old(elements)[..i] + old(elements)[i + 1..]
    {
      elements := elements[..i] + elements[i + 1..];
      table := Without(table, i);
      forall j | 0 <= j < |elements| ensures elements[j] == old(elements)[if j < i then j else j + 1] {
      }
    }

    method GetElementByBreakpointNumber(number: int) returns (b: Breakpoint?)
      requires Valid()
      ensures var i := FindGuarded(table, number);
        if i == |table| then b == null else b == elements[i]
    {
      b := null;
      if number > |elements| {
        return;
      }
      var i := IndexOfNumber(number);
      if i < |elements| { b := elements[i]; }
    }

    method GetElementByAddress(address: int) returns (b: Breakpoint?)
      requires Valid()
      ensures var i := FindAddress(table, address);
        if i == |table| then b == null else b == elements[i] && b.View() == table[i]
    {
      b := null;
      for i := 0 to |elements|
        invariant FindAddress(table, address) == FindAddressFrom(table, address, i)
      {
        assert elements[i].View() == table[i];
        if elements[i].address == address {
          return elements[i];
        }
      }
    }
  }
}
