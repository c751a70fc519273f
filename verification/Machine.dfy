/** The debuggee as ptrace shows it: patched code memory, a processor, and the same processor running unpatched code. */
module Machine {
  import opened Words

  /** Mapped code bytes. User-space addresses stay far below 2^64, so address arithmetic does not wrap. */
  type Memory = map<int, bv8>

  predicate Mapped(m: Memory, a: int) {
    forall x | a <= x < a + 8 :: x in m
  }

  /** The word at an address. */
  function Peek(m: Memory, a: int): (w: Word)
    requires Mapped(m, a)
    ensures forall x | a <= x < a + 8 :: w[x - a] == m[x]
  {
    seq(8, k requires 0 <= k < 8 => m[a + k])
  }

  /** Memory after a word has been written. */
  function Poke(m: Memory, a: int, w: Word): (m': Memory)
    requires Mapped(m, a)
    ensures m'.Keys == m.Keys
    ensures forall x | x in m :: m'[x] == if a <= x < a + 8 then w[x - a] else m[x]
  {
    map x | x in m :: if a <= x < a + 8 then w[x - a] else m[x]
  }

  /** Reading a word, replacing its low byte by int3 and writing it back changes one byte. */
  lemma PokePlant(m: Memory, a: int)
    requires Mapped(m, a)
    ensures Poke(m, a, Plant(Peek(m, a))) == m[a := INT3]
  {
    PlantBytes(Peek(m, a));
  }

  function At(m: Memory, a: int): bv8 {
    if a in m then m[a] else 0
  }

  datatype Regs = Regs(rip: int, gpr: map<string, bv64>)

  type Data = map<int, bv8>

  /** inKernel: stopped between the entry to and the return from a system call. */
  datatype Core = Core(regs: Regs, inKernel: bool, data: Data)

  datatype Effect = Goto(regs: Regs, data: Data) | EnterKernel | Quit

  datatype KernelEffect = Return(gpr: map<string, bv64>, data: Data) | Terminate

  /** An arbitrary processor and kernel: the length of the instruction at an address, what it does to registers and
      data, and what a system call does to them. The code bytes never change by themselves. */
  datatype Cpu = Cpu(
    length: (Memory, int) -> nat,
    exec: (Memory, Regs, Data) -> Effect,
    kernel: (map<string, bv64>, Data) -> KernelEffect)

  /** The memories hold the same instruction at an address. */
  ghost predicate SameCode(cpu: Cpu, m: Memory, m0: Memory, a: int) {
    forall x | a <= x < a + cpu.length(m0, a) :: At(m, x) == At(m0, x)
  }

  /** What is assumed of the processor: the length and the effect of an instruction depend on no code bytes but its own,
      and a system call instruction has at least two of them. */
  ghost predicate WellFormed(cpu: Cpu) {
    && (forall m, a :: cpu.length(m, a) >= 1)
    && (forall m, m0, a | SameCode(cpu, m, m0, a) :: cpu.length(m, a) == cpu.length(m0, a))
    && (forall m, m0, r: Regs, d | SameCode(cpu, m, m0, r.rip) :: cpu.exec(m, r, d) == cpu.exec(m0, r, d))
    && (forall m, r: Regs, d | cpu.exec(m, r, d).EnterKernel? :: cpu.length(m, r.rip) >= 2)
  }

  datatype Event = Ran(core: Core) | Trap(core: Core) | Gone

  /** One instruction, the entry to a system call, or its completion. A fetched int3 traps with rip one past it. */
  function MicroStep(cpu: Cpu, m: Memory, c: Core): Event {
    if c.inKernel then
      match cpu.kernel(c.regs.gpr, c.data)
      case Return(gpr, data) => Ran(Core(c.regs.(gpr := gpr), false, data))
      case Terminate => Gone
    else if At(m, c.regs.rip) == INT3 then
      Trap(c.(regs := c.regs.(rip := c.regs.rip + 1)))
    else
      match cpu.exec(m, c.regs, c.data)
      case Goto(regs, data) => Ran(Core(regs, false, data))
      case EnterKernel => Ran(c.(regs := c.regs.(rip := c.regs.rip + cpu.length(m, c.regs.rip)), inKernel := true))
      case Quit => Gone
  }

  /** PTRACE_SINGLESTEP: one whole instruction, so a system call runs to its end. */
  function SingleStep(cpu: Cpu, m: Memory, c: Core): Event {
    match MicroStep(cpu, m, c)
    case Ran(c') => if c'.inKernel then MicroStep(cpu, m, c') else Ran(c')
    case other => other
  }

  datatype Proc = Alive(core: Core) | Exited

  datatype Stop = AtTrap | AtSyscall | AtExit | NotYet

  /** PTRACE_CONT, or PTRACE_SYSCALL when traced: run until something stops the debuggee, watching at most fuel
      micro-steps. Also returns the fuel that is left. */
  function Resume(cpu: Cpu, m: Memory, c: Core, traced: bool, fuel: nat): (r: (Stop, Proc, nat))
    ensures r.0.AtExit? <==> r.1.Exited?
    ensures r.2 <= fuel
    ensures !r.0.NotYet? ==> r.2 < fuel
    ensures r.0.AtSyscall? ==> traced
    decreases fuel
  {
    if fuel == 0 then (NotYet, Alive(c), 0)
    else
      match MicroStep(cpu, m, c)
      case Gone => (AtExit, Exited, fuel - 1)
      case Trap(c') => (AtTrap, Alive(c'), fuel - 1)
      case Ran(c') =>
        if traced && c'.inKernel != c.inKernel then (AtSyscall, Alive(c'), fuel - 1)
        else Resume(cpu, m, c', traced, fuel - 1)
  }

  /** A program: the processor, the unpatched code and where the debugger found it. */
  datatype Program = Program(cpu: Cpu, orig: Memory, start: Core)

  function ProcOf(e: Event): Proc {
    match e
    case Gone => Exited
    case Ran(c) => Alive(c)
    case Trap(c) => Alive(c)
  }

  /** The undebugged run: where the program is after n micro-steps on its own code. */
  ghost function RunAt(p: Program, n: nat): Proc {
    if n == 0 then Alive(p.start)
    else
      match RunAt(p, n - 1)
      case Exited => Exited
      case Alive(c) => ProcOf(MicroStep(p.cpu, p.orig, c))
  }

  /** The position in the undebugged run one whole instruction after position n. */
  ghost function Advance(p: Program, n: nat): (n': nat)
    ensures n < n' <= n + 2
  {
    match RunAt(p, n + 1)
    case Alive(c) => if c.inKernel then n + 2 else n + 1
    case Exited => n + 1
  }

  ghost function AdvanceBy(p: Program, n: nat, instructions: nat): (n': nat)
    ensures n + instructions <= n'
    decreases instructions
  {
    if instructions == 0 then n else AdvanceBy(p, Advance(p, n), instructions - 1)
  }

  /** The undebugged run is at an instruction at address a in position n. */
  ghost predicate Fetches(p: Program, n: nat, a: int) {
    var proc := RunAt(p, n);
    proc.Alive? && !proc.core.inKernel && proc.core.regs.rip == a
  }

  /** Where a breakpoint may be put: the original byte is not int3, and no instruction of the run has a strictly
      inside it. */
  ghost predicate Placeable(p: Program, a: int) {
    && At(p.orig, a) != INT3
    && forall n: nat, b | Fetches(p, n, b) :: !(b < a < b + p.cpu.length(p.orig, b))
  }

  /** Patched and original memory take the same step from code they agree on. */
  lemma SameStep(cpu: Cpu, m: Memory, orig: Memory, c: Core)
    requires WellFormed(cpu) && (!c.inKernel ==> SameCode(cpu, m, orig, c.regs.rip))
    ensures MicroStep(cpu, m, c) == MicroStep(cpu, orig, c)
  {
  }

  lemma {:induction false} ExitedStays(p: Program, n: nat, n': nat)
    requires n <= n' && RunAt(p, n).Exited?
    ensures RunAt(p, n').Exited?
  {
    if n < n' { ExitedStays(p, n, n' - 1); }
  }

  /** A whole instruction of the undebugged run is a single step. */
  lemma AdvanceIsSingleStep(p: Program, n: nat)
    requires RunAt(p, n).Alive?
    ensures RunAt(p, Advance(p, n)) == ProcOf(SingleStep(p.cpu, p.orig, RunAt(p, n).core))
  {
  }

  /** Between whole instructions the program is not inside a system call. */
  lemma AdvanceOutsideKernel(p: Program, n: nat)
    requires RunAt(p, Advance(p, n)).Alive?
    ensures !RunAt(p, Advance(p, n)).core.inKernel
  {
  }
}
