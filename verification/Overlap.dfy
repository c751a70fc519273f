/** Breakpoints anywhere, closer than a word or on top of each other, as long as none is deleted:
    the debuggee never notices them. */
module Overlap {
  import opened Words
  import opened Machine
  import opened Sessions

  /** Code differs from the original only by int3 at listed addresses. */
  ghost predicate Patched(orig: Memory, m: Memory, t: seq<Entry>) {
    && m.Keys == orig.Keys
    && forall x | x in m :: m[x] == orig[x] || (m[x] == INT3 && Listed(t, x))
  }

  function SavedByte(e: Entry, x: int): bv8
    requires e.address <= x < e.address + 8
  {
    e.origdata[x - e.address]
  }

  /** Entry i saved original bytes, except for the int3 of listed breakpoints; at its own address it did so unless
      an earlier entry is looked up for it. */
  ghost predicate SavedSound(orig: Memory, t: seq<Entry>, i: nat)
    requires i < |t|
  {
    forall x | t[i].address <= x < t[i].address + 8 ::
      SavedByte(t[i], x) == At(orig, x) || MaySave(t, i, x)
  }

  /** Entry i saved an int3 at address x that belongs there, and that lookups of x never take for the original byte. */
  ghost predicate MaySave(t: seq<Entry>, i: nat, x: int)
    requires i < |t| && t[i].address <= x < t[i].address + 8
  {
    SavedByte(t[i], x) == INT3 && Listed(t, x) && (x == t[i].address ==> FindAddress(t, x) < i)
  }

  /** What is assumed of the program. */
  ghost predicate Assumed(p: Program) {
    WellFormed(p.cpu) && !p.start.inKernel
  }

  ghost predicate ListedPlaceable(p: Program, t: seq<Entry>) {
    forall i | 0 <= i < |t| :: Mapped(p.orig, t[i].address) && Placeable(p, t[i].address)
  }

  /** The invariant of sessions without deletion. */
  ghost predicate Sound(p: Program, m: Memory, t: seq<Entry>) {
    && Patched(p.orig, m, t)
    && ListedPlaceable(p, t)
    && forall i | 0 <= i < |t| :: SavedSound(p.orig, t, i)
  }

  /** The session shows the undebugged run in position n. */
  ghost predicate Shows(p: Program, s: Session, n: nat) {
    Sound(p, s.mem, s.table) && s.proc == RunAt(p, n)
  }

  // ---------- the invariant ----------

  lemma FindAppended(t: seq<Entry>, e: Entry, a: int)
    ensures FindAddress(t + [e], a) ==
      if Listed(t, a) then FindAddress(t, a) else if e.address == a then |t| else |t| + 1
  {
    var i, j := FindAddress(t, a), FindAddress(t + [e], a);
    if i < |t| { assert (t + [e])[i].address == a; }
    if j < |t| { assert t[j] == (t + [e])[j]; }
    assert (t + [e])[|t|] == e;
  }

  lemma FindRelabelled(t: seq<Entry>, t': seq<Entry>, a: int)
    requires |t| == |t'| && forall i | 0 <= i < |t| :: t[i].address == t'[i].address
    ensures FindAddress(t, a) == FindAddress(t', a)
  {
  }

  lemma PlacePatched(orig: Memory, m: Memory, t: seq<Entry>, a: int)
    requires Patched(orig, m, t) && Mapped(m, a)
    ensures Patched(orig, Poke(m, a, Plant(Peek(m, a))), Append(t, a, Peek(m, a)))
  {
    PokePlant(m, a);
    forall x ensures Listed(Append(t, a, Peek(m, a)), x) <==> Listed(t, x) || x == a {
      FindAppended(t, Append(t, a, Peek(m, a))[|t|], x);
    }
  }

  /** Placing saves the int3 of earlier breakpoints along with original bytes. */
  lemma PlaceSaved(orig: Memory, m: Memory, t: seq<Entry>, e: Entry)
    requires Patched(orig, m, t) && Mapped(m, e.address) && e.origdata == Peek(m, e.address)
    requires forall i | 0 <= i < |t| :: SavedSound(orig, t, i)
    ensures forall i | 0 <= i < |t + [e]| :: SavedSound(orig, t + [e], i)
  {
    var t' := t + [e];
    forall i, x | 0 <= i < |t'| && t'[i].address <= x < t'[i].address + 8
      ensures SavedByte(t'[i], x) == At(orig, x) || MaySave(t', i, x)
    {
      FindAppended(t, e, x);
      if i < |t| {
        assert SavedSound(orig, t, i) && t'[i] == t[i];
      } else {
        assert SavedByte(e, x) == m[x];
      }
    }
  }

  lemma AppendPlaceable(p: Program, t: seq<Entry>, e: Entry)
    requires ListedPlaceable(p, t) && Mapped(p.orig, e.address) && Placeable(p, e.address)
    ensures ListedPlaceable(p, t + [e])
  {
  }

  lemma PlaceSound(p: Program, m: Memory, t: seq<Entry>, a: int)
    requires Sound(p, m, t) && Mapped(m, a) && Placeable(p, a)
    ensures Sound(p, Poke(m, a, Plant(Peek(m, a))), Append(t, a, Peek(m, a)))
  {
    PlacePatched(p.orig, m, t, a);
    PlaceSaved(p.orig, m, t, Append(t, a, Peek(m, a))[|t|]);
    AppendPlaceable(p, t, Append(t, a, Peek(m, a))[|t|]);
  }

  /** Disabling changes neither addresses nor saved words. */
  ghost predicate Relabelled(t: seq<Entry>, t': seq<Entry>) {
    |t| == |t'| && forall i | 0 <= i < |t| :: t[i].address == t'[i].address && t[i].origdata == t'[i].origdata
  }

  lemma RelabelledPatched(orig: Memory, m: Memory, t: seq<Entry>, t': seq<Entry>)
    requires Patched(orig, m, t) && Relabelled(t, t')
    ensures Patched(orig, m, t')
  {
  }

  lemma RelabelledSaved(orig: Memory, t: seq<Entry>, t': seq<Entry>)
    requires Relabelled(t, t') && forall i | 0 <= i < |t| :: SavedSound(orig, t, i)
    ensures forall i | 0 <= i < |t'| :: SavedSound(orig, t', i)
  {
    forall i, x | 0 <= i < |t'| && t'[i].address <= x < t'[i].address + 8
      ensures SavedByte(t'[i], x) == At(orig, x) || MaySave(t', i, x)
    {
      FindRelabelled(t, t', x);
      assert SavedSound(orig, t, i) && SavedByte(t'[i], x) == SavedByte(t[i], x);
    }
  }

  lemma RelabelledPlaceable(p: Program, t: seq<Entry>, t': seq<Entry>)
    requires Relabelled(t, t') && ListedPlaceable(p, t)
    ensures ListedPlaceable(p, t')
  {
  }

  lemma DisableSound(p: Program, s: Session, number: int)
    requires Sound(p, s.mem, s.table)
    ensures Sound(p, s.mem, Disable(s, number).table)
  {
    var t' := Disable(s, number).table;
    RelabelledPatched(p.orig, s.mem, s.table, t');
    RelabelledSaved(p.orig, s.table, t');
    RelabelledPlaceable(p, s.table, t');
  }

  /** Writing the word saved by the first entry for its address gives that address its original byte, and can only
      bring back listed breakpoints at the seven addresses after it. */
  lemma PokeSaved(p: Program, m: Memory, t: seq<Entry>, i: nat)
    requires Sound(p, m, t) && i < |t| && FindAddress(t, t[i].address) == i
    ensures var a := t[i].address; var m' := Poke(m, a, t[i].origdata);
      && Sound(p, m', t)
      && m'[a] == p.orig[a]
      && forall x | x in m && m'[x] != m[x] && m'[x] != p.orig[x] :: m'[x] == INT3 && Listed(t, x) && a < x < a + 8
  {
    var a := t[i].address;
    var m' := Poke(m, a, t[i].origdata);
    assert SavedSound(p.orig, t, i);
    forall x | x in m' ensures m'[x] == p.orig[x] || (m'[x] == INT3 && Listed(t, x)) {
      if a <= x < a + 8 { assert m'[x] == SavedByte(t[i], x); }
    }
    assert m'[a] == SavedByte(t[i], a);
  }

  /** A hit takes a neighbour out with it: of the breakpoints planted at the seven addresses after the one
      restored, exactly those stay whose int3 its entry has saved. All of them stay listed. */
  lemma NeighbourStays(cpu: Cpu, s: Session, i: nat, x: int)
    requires s.proc.Alive? && i < |s.table| && Mapped(s.mem, s.table[i].address)
    requires s.table[i].address < x < s.table[i].address + 8 && Listed(s.table, x) && At(s.mem, x) == INT3
    ensures var e := s.table[i]; var s' := Restore(cpu, s, e.origdata, e.address).0;
      Listed(s'.table, x) && (At(s'.mem, x) == INT3 <==> SavedByte(e, x) == INT3)
  {
    var e := s.table[i];
    RestoreIs(cpu, s, e.origdata, e.address);
    assert Poke(s.mem, e.address, e.origdata)[x] == SavedByte(e, x);
  }

  /** The entry that an address is looked up as saved the true original byte. */
  lemma FirstSavedOriginal(p: Program, m: Memory, t: seq<Entry>, a: int)
    requires Sound(p, m, t) && Listed(t, a)
    ensures t[FindAddress(t, a)].origdata[0] == p.orig[a] != INT3
  {
    var i := FindAddress(t, a);
    assert SavedSound(p.orig, t, i) && Placeable(p, t[i].address);
    assert SavedByte(t[i], a) == t[i].origdata[0];
  }

  // ---------- following the undebugged run ----------

  /** No instruction at position n of the run is fetched as int3 from memory m. */
  ghost predicate Unhindered(p: Program, m: Memory, n: nat) {
    forall a | Fetches(p, n, a) :: At(m, a) != INT3
  }

  lemma NotInside(p: Program, t: seq<Entry>, n: nat, b: int, x: int)
    requires ListedPlaceable(p, t) && Fetches(p, n, b) && b < x < b + p.cpu.length(p.orig, b)
    ensures !Listed(t, x)
  {
  }

  /** Away from int3, patched code runs as the original does. */
  lemma StepFollows(p: Program, m: Memory, t: seq<Entry>, n: nat)
    requires Assumed(p) && Patched(p.orig, m, t) && ListedPlaceable(p, t) && RunAt(p, n).Alive?
    requires var c := RunAt(p, n).core; !c.inKernel ==> At(m, c.regs.rip) == At(p.orig, c.regs.rip)
    ensures MicroStep(p.cpu, m, RunAt(p, n).core) == MicroStep(p.cpu, p.orig, RunAt(p, n).core)
    ensures SingleStep(p.cpu, m, RunAt(p, n).core) == SingleStep(p.cpu, p.orig, RunAt(p, n).core)
  {
    var c := RunAt(p, n).core;
    if !c.inKernel {
      var rip := c.regs.rip;
      assert Fetches(p, n, rip);
      forall x | rip <= x < rip + p.cpu.length(p.orig, rip) ensures At(m, x) == At(p.orig, x) {
        if x != rip { NotInside(p, t, n, rip, x); }
      }
    }
    SameStep(p.cpu, m, p.orig, c);
  }

  /** A micro-step of the run enters the kernel or returns from it. */
  ghost predicate Border(p: Program, n: nat) {
    var proc, next := RunAt(p, n), RunAt(p, n + 1);
    proc.Alive? && next.Alive? && proc.core.inKernel != next.core.inKernel
  }

  /** Nothing stops the debuggee at position n. */
  ghost predicate Quiet(p: Program, m: Memory, traced: bool, n: nat) {
    Unhindered(p, m, n) && !(traced && Border(p, n))
  }

  /** The debuggee runs freely from position n up to position k, where it stops for the given reason. */
  ghost predicate RunsTo(p: Program, m: Memory, traced: bool, n: nat, k: nat, fuel: nat, r: (Stop, Proc, nat)) {
    && n <= k
    && (forall j | n <= j < k :: Quiet(p, m, traced, j))
    && RunAt(p, k).Alive?
    && var c := RunAt(p, k).core;
      match r.0
      case NotYet => r.1 == RunAt(p, k) && k == n + fuel
      case AtExit => RunAt(p, k + 1).Exited? && Unhindered(p, m, k)
      case AtSyscall => r.1 == RunAt(p, k + 1) && Border(p, k) && Unhindered(p, m, k) && r.2 == fuel - (k - n) - 1
      case AtTrap =>
        && !c.inKernel && At(m, c.regs.rip) == INT3
        && r.1 == Alive(c.(regs := c.regs.(rip := c.regs.rip + 1)))
        && r.2 == fuel - (k - n) - 1
  }

  /** Where memory m does not have int3 in the way, it takes the program from position n to the next. */
  ghost predicate StepsAlike(p: Program, m: Memory, n: nat) {
    var proc := RunAt(p, n);
    proc.Alive? && (proc.core.inKernel || At(m, proc.core.regs.rip) != INT3) ==>
      RunAt(p, n + 1) == ProcOf(MicroStep(p.cpu, m, proc.core))
  }

  lemma PatchedStepsAlike(p: Program, m: Memory, t: seq<Entry>, n: nat)
    requires Assumed(p) && Patched(p.orig, m, t) && ListedPlaceable(p, t)
    ensures StepsAlike(p, m, n)
  {
    var proc := RunAt(p, n);
    if proc.Alive? && (proc.core.inKernel || At(m, proc.core.regs.rip) != INT3) {
      StepFollows(p, m, t, n);
    }
  }

  lemma {:induction false} ResumeFollows(p: Program, m: Memory, n: nat, traced: bool, fuel: nat) returns (k: nat)
    requires RunAt(p, n).Alive? && forall j: nat :: StepsAlike(p, m, j)
    ensures RunsTo(p, m, traced, n, k, fuel, Resume(p.cpu, m, RunAt(p, n).core, traced, fuel))
    decreases fuel
  {
    var c := RunAt(p, n).core;
    k := n;
    if fuel > 0 && (c.inKernel || At(m, c.regs.rip) != INT3) {
      assert StepsAlike(p, m, n);
      var e := MicroStep(p.cpu, m, c);
      if e.Ran? && !(traced && e.core.inKernel != c.inKernel) {
        k := ResumeFollows(p, m, n + 1, traced, fuel - 1);
        RunsFrom(p, m, traced, n, k, fuel, Resume(p.cpu, m, RunAt(p, n + 1).core, traced, fuel - 1));
      }
    }
  }

  lemma RunsFrom(p: Program, m: Memory, traced: bool, n: nat, k: nat, fuel: nat, r: (Stop, Proc, nat))
    requires fuel > 0 && Quiet(p, m, traced, n) && RunsTo(p, m, traced, n + 1, k, fuel - 1, r)
    ensures RunsTo(p, m, traced, n, k, fuel, r)
  {
  }

  /** A stop at the border of a system call is never taken for a breakpoint. */
  lemma SyscallStopUnlisted(p: Program, t: seq<Entry>, k: nat)
    requires Assumed(p) && ListedPlaceable(p, t) && RunAt(p, k).Alive? && RunAt(p, k + 1).Alive?
    requires RunAt(p, k).core.inKernel != RunAt(p, k + 1).core.inKernel
    ensures !Listed(t, RunAt(p, k + 1).core.regs.rip - 1)
  {
    // the position whose instruction entered the kernel
    var e := if RunAt(p, k).core.inKernel then k - 1 else k;
    var c := RunAt(p, e).core;
    assert RunAt(p, e + 1) == ProcOf(MicroStep(p.cpu, p.orig, c));
    assert RunAt(p, k + 1) == ProcOf(MicroStep(p.cpu, p.orig, RunAt(p, k).core));
    assert p.cpu.exec(p.orig, c.regs, c.data).EnterKernel?;
    assert Fetches(p, e, c.regs.rip);
    var a := RunAt(p, k + 1).core.regs.rip - 1;
    NotInside(p, t, e, c.regs.rip, a);
  }

  /** Handling a hit at position k executes the original instruction there. */
  lemma RestoreFollows(p: Program, s: Session, k: nat)
    requires Assumed(p) && Sound(p, s.mem, s.table) && RunAt(p, k).Alive? && !RunAt(p, k).core.inKernel
    requires var c := RunAt(p, k).core;
      Listed(s.table, c.regs.rip) && s.proc == Alive(c.(regs := c.regs.(rip := c.regs.rip + 1)))
    ensures var a := RunAt(p, k).core.regs.rip;
      var origdata := s.table[FindAddress(s.table, a)].origdata;
      var s' := Restore(p.cpu, s, origdata, a).0;
      && Shows(p, s', Advance(p, k))
      && s'.mem == Poke(s.mem, a, origdata) && s'.table == s.table
      && s'.restored == s.restored + [a] && s'.regs.rip == a && s'.sysStopped == s.sysStopped
  {
    var c := RunAt(p, k).core;
    var i := FindAddress(s.table, c.regs.rip);
    PokeSaved(p, s.mem, s.table, i);
    RestoreIs(p.cpu, s, s.table[i].origdata, c.regs.rip);
    assert s.proc.core.(regs := s.proc.core.regs.(rip := c.regs.rip)) == c;
    StepRestored(p, Poke(s.mem, c.regs.rip, s.table[i].origdata), s.table, k);
  }

  /** Where the original byte is back, the step is the original instruction. */
  lemma StepRestored(p: Program, m: Memory, t: seq<Entry>, k: nat)
    requires Assumed(p) && Patched(p.orig, m, t) && ListedPlaceable(p, t) && RunAt(p, k).Alive?
    requires At(m, RunAt(p, k).core.regs.rip) == At(p.orig, RunAt(p, k).core.regs.rip)
    ensures ProcOf(SingleStep(p.cpu, m, RunAt(p, k).core)) == RunAt(p, Advance(p, k))
  {
    StepFollows(p, m, t, k);
    AdvanceIsSingleStep(p, k);
  }

  // ---------- ContinueExecution, one stop at a time ----------

  datatype Why = Timeout | Ends | SystemCall | OwnTrap | Hit

  /** One stop of ContinueExecution: the program runs freely up to position k of the undebugged run. */
  datatype Leg = Leg(why: Why, k: nat, turn: Turn) {
    /** The position that the debuggee is left in. */
    ghost function Reached(p: Program): nat {
      if why == Timeout then k else if why == Hit then Advance(p, k) else k + 1
    }
  }

  ghost predicate IsLeg(p: Program, s: Session, systrace: bool, fuel: nat, n: nat, leg: Leg) {
    var turn, k := leg.turn, leg.k;
    && n <= k && RunAt(p, k).Alive?
    && (forall j | n <= j < k :: Quiet(p, s.mem, systrace, j))
    && turn.s.table == s.table && turn.s.proc == RunAt(p, leg.Reached(p))
    && (turn.Recurse? ==> turn.left == fuel - (k - n) - 1)
    && (leg.why != Hit ==> turn.s.mem == s.mem && turn.s.restored == s.restored)
    && (turn.Return? && turn.status.Ok? ==> (turn.s.sysStopped <==> leg.why != Hit))
    && var a := RunAt(p, k).core.regs.rip;
      match leg.why
      case Timeout => turn.Return? && turn.status == Blocked && k == n + fuel
      case Ends => turn.Return? && turn.status == Exit && Unhindered(p, s.mem, k) && turn.s.proc == Exited
      case SystemCall => turn.Return? && turn.status == Ok && systrace && Border(p, k) && Unhindered(p, s.mem, k)
      case OwnTrap =>
        && turn.Return? == systrace && (turn.Return? ==> turn.status == Ok)
        && Fetches(p, k, a) && !Listed(s.table, a) && At(p.orig, a) == INT3
        && turn.s.proc.Alive? && !turn.s.proc.core.inKernel
      case Hit =>
        && Fetches(p, k, a) && At(s.mem, a) == INT3 && Listed(s.table, a)
        && var e := s.table[FindAddress(s.table, a)];
        && turn.Return? == e.enabled && (turn.Return? ==> turn.status == Ok)
        && Mapped(s.mem, a) && turn.s.mem == Poke(s.mem, a, e.origdata)
        && turn.s.restored == s.restored + [a] && turn.s.regs.rip == a
  }

  /** s is the session once the wait is over; r says how the debuggee stopped. */
  ghost predicate Stopped(p: Program, s: Session, traced: bool, n: nat, k: nat, fuel: nat, r: (Stop, Proc, nat)) {
    RunsTo(p, s.mem, traced, n, k, fuel, r) && s.proc == r.1 && !s.sysStopped && (r.0.AtExit? <==> r.1.Exited?)
  }

  lemma QuietLeg(p: Program, s: Session, systrace: bool, fuel: nat, n: nat, k: nat, r: (Stop, Proc, nat))
    returns (leg: Leg)
    requires Stopped(p, s, systrace, n, k, fuel, r) && (r.0.NotYet? || r.0.AtExit?)
    ensures IsLeg(p, s, systrace, fuel, n, leg) && leg.turn == AfterWait(p.cpu, s, systrace, r.0, r.2)
  {
    leg := Leg(if r.0.NotYet? then Timeout else Ends, k, AfterWait(p.cpu, s, systrace, r.0, r.2));
  }

  lemma SyscallLeg(p: Program, s: Session, systrace: bool, fuel: nat, n: nat, k: nat, r: (Stop, Proc, nat))
    returns (leg: Leg)
    requires Stopped(p, s, systrace, n, k, fuel, r) && r.0.AtSyscall? && systrace
    requires !Listed(s.table, r.1.core.regs.rip - 1)
    ensures IsLeg(p, s, systrace, fuel, n, leg) && leg.turn == AfterWait(p.cpu, s, systrace, r.0, r.2)
  {
    leg := Leg(SystemCall, k, AfterWait(p.cpu, s, systrace, r.0, r.2));
  }

  lemma OwnTrapLeg(p: Program, s: Session, systrace: bool, fuel: nat, n: nat, k: nat, r: (Stop, Proc, nat))
    returns (leg: Leg)
    requires Stopped(p, s, systrace, n, k, fuel, r) && r.0.AtTrap? && !Listed(s.table, r.1.core.regs.rip - 1)
    requires At(p.orig, RunAt(p, k).core.regs.rip) == INT3
    ensures IsLeg(p, s, systrace, fuel, n, leg) && leg.turn == AfterWait(p.cpu, s, systrace, r.0, r.2)
  {
    assert RunAt(p, k + 1) == ProcOf(MicroStep(p.cpu, p.orig, RunAt(p, k).core));
    leg := Leg(OwnTrap, k, AfterWait(p.cpu, s, systrace, r.0, r.2));
  }

  lemma HitLeg(p: Program, s: Session, systrace: bool, fuel: nat, n: nat, k: nat, r: (Stop, Proc, nat))
    returns (leg: Leg)
    requires Stopped(p, s, systrace, n, k, fuel, r) && r.0.AtTrap? && Listed(s.table, r.1.core.regs.rip - 1)
    requires Assumed(p) && Sound(p, s.mem, s.table)
    ensures IsLeg(p, s, systrace, fuel, n, leg) && leg.turn == AfterWait(p.cpu, s, systrace, r.0, r.2)
  {
    assert Fetches(p, k, RunAt(p, k).core.regs.rip);
    RestoreFollows(p, s.(regs := r.1.core.regs), k);
    leg := Leg(Hit, k, AfterWait(p.cpu, s, systrace, r.0, r.2));
  }

  /** The session in which ContinueExecution has waited. */
  function Waited(cpu: Cpu, s: Session, systrace: bool, fuel: nat): Session
    requires s.proc.Alive?
  {
    s.(sysStopped := false, proc := Resume(cpu, s.mem, s.proc.core, systrace, fuel).1)
  }

  lemma WaitedStopped(p: Program, s: Session, systrace: bool, fuel: nat, n: nat) returns (k: nat)
    requires Assumed(p) && Shows(p, s, n) && s.proc.Alive?
    ensures var r := Resume(p.cpu, s.mem, s.proc.core, systrace, fuel);
      Stopped(p, Waited(p.cpu, s, systrace, fuel), systrace, n, k, fuel, r)
  {
    forall j: nat ensures StepsAlike(p, s.mem, j) { PatchedStepsAlike(p, s.mem, s.table, j); }
    k := ResumeFollows(p, s.mem, n, systrace, fuel);
  }

  /** Every turn of ContinueExecution is a leg of the undebugged run. */
  lemma FirstLeg(p: Program, s: Session, systrace: bool, fuel: nat, n: nat) returns (leg: Leg)
    requires Assumed(p) && Shows(p, s, n) && s.proc.Alive?
    ensures IsLeg(p, s, systrace, fuel, n, leg) && leg.turn == ContinueTurn(p.cpu, s, systrace, fuel)
    ensures Sound(p, leg.turn.s.mem, leg.turn.s.table)
  {
    var k := WaitedStopped(p, s, systrace, fuel, n);
    var r := Resume(p.cpu, s.mem, s.proc.core, systrace, fuel);
    var s1 := Waited(p.cpu, s, systrace, fuel);
    leg := LegTo(p, s1, systrace, fuel, n, k, r);
    LegSound(p, s1, systrace, fuel, n, leg);
  }

  lemma LegTo(p: Program, s: Session, systrace: bool, fuel: nat, n: nat, k: nat, r: (Stop, Proc, nat))
    returns (leg: Leg)
    requires Stopped(p, s, systrace, n, k, fuel, r) && (r.0.AtSyscall? ==> systrace)
    requires Assumed(p) && Sound(p, s.mem, s.table)
    ensures IsLeg(p, s, systrace, fuel, n, leg) && leg.turn == AfterWait(p.cpu, s, systrace, r.0, r.2)
  {
    match r.0
    case AtTrap =>
      if Listed(s.table, r.1.core.regs.rip - 1) {
        leg := HitLeg(p, s, systrace, fuel, n, k, r);
      } else {
        leg := OwnTrapLeg(p, s, systrace, fuel, n, k, r);
      }
    case AtSyscall =>
      SyscallStopUnlisted(p, s.table, k);
      leg := SyscallLeg(p, s, systrace, fuel, n, k, r);
    case _ => leg := QuietLeg(p, s, systrace, fuel, n, k, r);
  }

  lemma LegSound(p: Program, s: Session, systrace: bool, fuel: nat, n: nat, leg: Leg)
    requires Sound(p, s.mem, s.table) && IsLeg(p, s, systrace, fuel, n, leg)
    ensures Sound(p, leg.turn.s.mem, leg.turn.s.table)
  {
    if leg.why == Hit {
      PokeSaved(p, s.mem, s.table, FindAddress(s.table, RunAt(p, leg.k).core.regs.rip));
    }
  }

  /** The debuggee is one instruction past an enabled breakpoint, whose address m_regs shows. */
  ghost predicate PastEnabled(p: Program, s: Session, n: nat) {
    && Listed(s.table, s.regs.rip) && s.table[FindAddress(s.table, s.regs.rip)].enabled
    && exists k :: Fetches(p, k, s.regs.rip) && n == Advance(p, k)
  }

  /** ContinueExecution moves the undebugged run forward, whatever breakpoints it meets; time spent watching is
      never spent on breakpoints alone; and without tracing it returns 0 only one instruction past an enabled
      breakpoint. */
  lemma {:induction false} ContinueFollows(p: Program, s: Session, systrace: bool, fuel: nat, n: nat) returns (n': nat)
    requires Assumed(p) && Shows(p, s, n)
    ensures var (s', st) := Continue(p.cpu, s, systrace, fuel);
      && n <= n' && Shows(p, s', n')
      && (st.Blocked? ==> n + fuel <= n' && s'.proc.Alive?)
      && (st.Ok? && !systrace ==> PastEnabled(p, s', n'))
    decreases fuel
  {
    n' := n;
    if s.proc.Alive? {
      var leg := FirstLeg(p, s, systrace, fuel, n);
      n' := leg.Reached(p);
      if leg.turn.Recurse? {
        n' := ContinueFollows(p, leg.turn.s, systrace, leg.turn.left, n');
      }
    }
  }

  /** If the program exits within the time watched, ContinueExecution returns: breakpoints cannot keep it going
      round. */
  lemma ContinueReturns(p: Program, s: Session, systrace: bool, fuel: nat, n: nat)
    requires Assumed(p) && Shows(p, s, n) && RunAt(p, n + fuel).Exited?
    ensures !Continue(p.cpu, s, systrace, fuel).1.Blocked?
  {
    var n' := ContinueFollows(p, s, systrace, fuel, n);
    if n + fuel <= n' { ExitedStays(p, n + fuel, n'); }
  }

  // ---------- transparency ----------

  /** Placing, disabling and continuing only. */
  predicate PlacesAndRuns(cs: seq<Command>) {
    forall i | 0 <= i < |cs| :: cs[i].DoPlace? || cs[i].DoDisable? || cs[i].DoContinue?
  }

  ghost predicate PlacesOnInstructions(p: Program, cs: seq<Command>) {
    forall i | 0 <= i < |cs| && cs[i].DoPlace? :: Placeable(p, cs[i].address)
  }

  lemma PerformFollows(p: Program, systrace: bool, s: Session, c: Command, n: nat) returns (n': nat)
    requires Assumed(p) && Shows(p, s, n)
    requires (c.DoPlace? && Placeable(p, c.address)) || c.DoDisable? || c.DoContinue?
    ensures n <= n' && Shows(p, Perform(p.cpu, systrace, s, c), n')
  {
    n' := n;
    if s.crashed { return; }
    match c
    case DoPlace(a) => if s.proc.Alive? && Mapped(s.mem, a) { PlaceSound(p, s.mem, s.table, a); }
    case DoDisable(number) => DisableSound(p, s, number);
    case DoContinue(fuel) => n' := ContinueFollows(p, s, systrace, fuel, n);
  }

  /** Whatever is placed, disabled and continued, the debuggee is always where the undebugged run
      gets to, and never goes back. */
  lemma {:induction false} Transparency(p: Program, systrace: bool, s: Session, cs: seq<Command>, n: nat)
    requires Assumed(p) && Shows(p, s, n)
    requires PlacesAndRuns(cs) && PlacesOnInstructions(p, cs)
    ensures exists n' | n <= n' :: Shows(p, PerformAll(p.cpu, systrace, s, cs), n')
    decreases |cs|
  {
    if cs == [] {
      assert Shows(p, PerformAll(p.cpu, systrace, s, cs), n);
    } else {
      var m := PerformFollows(p, systrace, s, cs[0], n);
      var s' := Perform(p.cpu, systrace, s, cs[0]);
      Transparency(p, systrace, s', cs[1..], m);
      var n' :| m <= n' && Shows(p, PerformAll(p.cpu, systrace, s', cs[1..]), n');
      assert n <= n' && Shows(p, PerformAll(p.cpu, systrace, s, cs), n');
    }
  }

  lemma TransparencyFromStart(p: Program, systrace: bool, cs: seq<Command>)
    requires Assumed(p) && PlacesAndRuns(cs) && PlacesOnInstructions(p, cs)
    ensures exists n :: Shows(p, PerformAll(p.cpu, systrace, Attach(p), cs), n)
  {
    assert Shows(p, Attach(p), 0);
    Transparency(p, systrace, Attach(p), cs, 0);
  }
}
