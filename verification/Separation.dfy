/** Breakpoints at least a word apart: deletion is safe, and execution stops at the right place. */
module Separation {
  import opened Words
  import opened Machine
  import opened Sessions
  import opened Overlap
  import opened HitBound

  /** The saved word is the original word. */
  ghost predicate SavedOriginal(orig: Memory, e: Entry) {
    && Mapped(orig, e.address)
    && forall x | e.address <= x < e.address + 8 :: SavedByte(e, x) == orig[x]
  }

  /** Every saved word is the original word, and code differs from the original only by int3 at listed addresses. */
  ghost predicate Separate(orig: Memory, m: Memory, t: seq<Entry>) {
    && Apart(t)
    && Patched(orig, m, t)
    && forall i | 0 <= i < |t| :: SavedOriginal(orig, t[i])
  }

  ghost predicate ApartFrom(t: seq<Entry>, a: int) {
    forall i | 0 <= i < |t| :: t[i].address + 8 <= a || a + 8 <= t[i].address
  }

  // ---------- memory conservation ----------

  lemma NotListedBeside(t: seq<Entry>, a: int, x: int)
    requires ApartFrom(t, a) && a <= x < a + 8
    ensures !Listed(t, x)
  {
  }

  lemma NotListedInside(t: seq<Entry>, i: nat, x: int)
    requires Apart(t) && i < |t| && t[i].address < x < t[i].address + 8
    ensures !Listed(t, x)
  {
  }

  lemma ApartAppended(t: seq<Entry>, e: Entry)
    requires Apart(t) && ApartFrom(t, e.address)
    ensures Apart(t + [e])
  {
  }

  lemma ApartWithout(t: seq<Entry>, i: nat)
    requires Apart(t) && i < |t|
    ensures Apart(Without(t, i))
  {
  }

  /** A word read where nothing is listed is the original word. */
  lemma PeekOriginal(orig: Memory, m: Memory, t: seq<Entry>, e: Entry)
    requires Patched(orig, m, t) && Mapped(m, e.address) && ApartFrom(t, e.address) && e.origdata == Peek(m, e.address)
    ensures SavedOriginal(orig, e)
  {
    forall x | e.address <= x < e.address + 8 ensures x in orig && SavedByte(e, x) == orig[x] {
      NotListedBeside(t, e.address, x);
      assert x in m;
    }
  }

  lemma PlaceSeparate(orig: Memory, m: Memory, t: seq<Entry>, a: int)
    requires Separate(orig, m, t) && Mapped(m, a) && ApartFrom(t, a)
    ensures Separate(orig, Poke(m, a, Plant(Peek(m, a))), Append(t, a, Peek(m, a)))
  {
    var e := Append(t, a, Peek(m, a))[|t|];
    ApartAppended(t, e);
    PeekOriginal(orig, m, t, e);
    PlacePatched(orig, m, t, a);
  }

  /** Writing a saved word back resets its own address and leaves every other byte as it is. */
  lemma PokeSeparate(orig: Memory, m: Memory, t: seq<Entry>, i: nat)
    requires Separate(orig, m, t) && i < |t|
    ensures var a := t[i].address; var m' := Poke(m, a, t[i].origdata);
      && (forall x | x in m :: m'[x] == if x == a then orig[x] else m[x])
      && Patched(orig, m', t)
  {
  }

  lemma FindWithout(t: seq<Entry>, i: nat, a: int)
    requires i < |t| && Listed(t, a) && a != t[i].address
    ensures Listed(Without(t, i), a)
  {
    var j := FindAddress(t, a);
    assert Without(t, i)[if j < i then j else j - 1] == t[j];
  }

  lemma PatchedWithout(orig: Memory, m: Memory, t: seq<Entry>, i: nat)
    requires i < |t| && Patched(orig, m, t) && t[i].address in m && m[t[i].address] == orig[t[i].address]
    ensures Patched(orig, m, Without(t, i))
  {
    forall x | x in m && Listed(t, x) && x != t[i].address ensures Listed(Without(t, i), x) {
      FindWithout(t, i, x);
    }
  }

  /** s' is s with entry i deleted: its address holds the original byte, whatever the loose test said, and
      no other byte has changed. */
  ghost predicate Deleted(orig: Memory, s: Session, i: nat, s': Session) {
    && i < |s.table| && s'.table == Without(s.table, i) && s'.mem.Keys == s.mem.Keys
    && forall x | x in s.mem && x in orig :: s'.mem[x] == if x == s.table[i].address then orig[x] else s.mem[x]
  }

  /** The memory that deleting entry i leaves: its saved word is written back if the loose test says so. */
  ghost predicate WrittenBack(m: Memory, t: seq<Entry>, i: nat, m': Memory)
    requires i < |t|
  {
    var e := t[i];
    Mapped(m, e.address) && m' == if LooksPlanted(Peek(m, e.address)) then Poke(m, e.address, e.origdata) else m
  }

  lemma RemoveWritesBack(s: Session, number: int)
    requires Remove(s, number).0 != s && forall i | 0 <= i < |s.table| :: Mapped(s.mem, s.table[i].address)
    ensures var i, s' := FindNumber(s.table, number), Remove(s, number).0;
      && i < |s.table| && s' == s.(mem := s'.mem, table := Without(s.table, i))
      && WrittenBack(s.mem, s.table, i, s'.mem)
  {
  }

  lemma WrittenBackRestores(orig: Memory, m: Memory, t: seq<Entry>, i: nat, m': Memory)
    requires Separate(orig, m, t) && i < |t| && WrittenBack(m, t, i, m')
    ensures m'.Keys == m.Keys
    ensures forall x | x in m && x in orig :: m'[x] == if x == t[i].address then orig[x] else m[x]
  {
    LooseTest(Peek(m, t[i].address));
    PokeSeparate(orig, m, t, i);
  }

  lemma RemoveRestores(orig: Memory, s: Session, number: int)
    requires Separate(orig, s.mem, s.table)
    ensures var s' := Remove(s, number).0; s' == s || Deleted(orig, s, FindNumber(s.table, number), s')
  {
    if Remove(s, number).0 != s {
      RemoveWritesBack(s, number);
      WrittenBackRestores(orig, s.mem, s.table, FindNumber(s.table, number), Remove(s, number).0.mem);
    }
  }

  lemma DeletedSeparate(orig: Memory, s: Session, i: nat, s': Session)
    requires Separate(orig, s.mem, s.table) && Deleted(orig, s, i, s')
    ensures Separate(orig, s'.mem, s'.table)
  {
    ApartWithout(s.table, i);
    assert s.table[i].address in orig;
    PatchedWithout(orig, s'.mem, s.table, i);
  }

  lemma RemoveSeparate(orig: Memory, s: Session, number: int)
    requires Separate(orig, s.mem, s.table)
    ensures var s' := Remove(s, number).0; Separate(orig, s'.mem, s'.table)
  {
    RemoveRestores(orig, s, number);
    var s' := Remove(s, number).0;
    if s' != s { DeletedSeparate(orig, s, FindNumber(s.table, number), s'); }
  }

  lemma RelabelledSeparate(orig: Memory, m: Memory, t: seq<Entry>, t': seq<Entry>)
    requires Separate(orig, m, t) && Relabelled(t, t')
    ensures Separate(orig, m, t')
  {
    RelabelledPatched(orig, m, t, t');
    forall i | 0 <= i < |t'| ensures SavedOriginal(orig, t'[i]) {
      assert SavedOriginal(orig, t[i]);
    }
  }

  lemma DisableSeparate(orig: Memory, s: Session, number: int)
    requires Separate(orig, s.mem, s.table)
    ensures Separate(orig, s.mem, Disable(s, number).table)
  {
    RelabelledSeparate(orig, s.mem, s.table, Disable(s, number).table);
  }

  lemma RestoreSeparate(cpu: Cpu, orig: Memory, s: Session, i: nat)
    requires Separate(orig, s.mem, s.table) && i < |s.table|
    ensures var s' := Restore(cpu, s, s.table[i].origdata, s.table[i].address).0;
      Separate(orig, s'.mem, s'.table) && s'.table == s.table
  {
    PokeSeparate(orig, s.mem, s.table, i);
  }

  lemma WaitSeparate(cpu: Cpu, orig: Memory, s: Session, systrace: bool, stop: Stop, left: nat)
    requires Separate(orig, s.mem, s.table) && (stop.AtTrap? || stop.AtSyscall? ==> s.proc.Alive?)
    ensures var s' := AfterWait(cpu, s, systrace, stop, left).s; Separate(orig, s'.mem, s'.table)
  {
    if stop.AtTrap? || stop.AtSyscall? {
      var s1 := s.(regs := s.proc.core.regs);
      var i := FindAddress(s1.table, s1.regs.rip - 1);
      if i < |s1.table| { RestoreSeparate(cpu, orig, s1, i); }
    }
  }

  lemma TurnSeparate(cpu: Cpu, orig: Memory, s: Session, systrace: bool, fuel: nat)
    requires Separate(orig, s.mem, s.table)
    ensures var s' := ContinueTurn(cpu, s, systrace, fuel).s; Separate(orig, s'.mem, s'.table)
  {
    if s.proc.Alive? {
      var r := Resume(cpu, s.mem, s.proc.core, systrace, fuel);
      WaitSeparate(cpu, orig, s.(sysStopped := false, proc := r.1), systrace, r.0, r.2);
    }
  }

  /** Hits keep the invariant on any processor, whatever the debuggee does. */
  lemma {:induction false} ContinueSeparate(cpu: Cpu, orig: Memory, s: Session, systrace: bool, fuel: nat)
    requires Separate(orig, s.mem, s.table)
    ensures var s' := Continue(cpu, s, systrace, fuel).0; Separate(orig, s'.mem, s'.table)
    decreases fuel
  {
    TurnSeparate(cpu, orig, s, systrace, fuel);
    var turn := ContinueTurn(cpu, s, systrace, fuel);
    if turn.Recurse? {
      ContinueSeparate(cpu, orig, turn.s, systrace, turn.left);
    }
  }

  // ---------- stepping ----------

  /** Round i of StepX does not handle a disabled breakpoint, unless rip - i is rip - 1. */
  ghost predicate InPlace(cpu: Cpu, s: Session, i: nat) {
    s.proc.Alive? ==>
      var e := SingleStep(cpu, s.mem, s.proc.core);
      !e.Gone? ==>
        var j := FindAddress(s.table, e.core.regs.rip - 1);
        j < |s.table| && !s.table[j].enabled ==> i == 1
  }

  ghost predicate StepsInPlace(cpu: Cpu, s: Session, count: int) {
    StepRounds((s0: Session, i: nat) => StepRound(cpu, s0, i), (s0: Session, i: nat) => InPlace(cpu, s0, i),
               s, 0, count)
  }

  /** Then StepX does what StepAuto does. */
  lemma InPlaceRound(cpu: Cpu, s: Session, i: nat)
    requires InPlace(cpu, s, i)
    ensures StepRound(cpu, s, i) == AutoRound(cpu, s)
  {
    if s.proc.Alive? {
      var e := SingleStep(cpu, s.mem, s.proc.core);
      if !e.Gone? {
        var s1 := s.(proc := ProcOf(e), regs := e.core.regs);
        StepRoundIs(cpu, s, s1, i);
        AutoRoundIs(cpu, s, s1);
      }
    }
  }

  lemma AutoRoundSeparate(cpu: Cpu, orig: Memory, s: Session)
    requires Separate(orig, s.mem, s.table)
    ensures var s' := AutoRound(cpu, s).s; Separate(orig, s'.mem, s'.table)
  {
    if s.proc.Alive? {
      var e := SingleStep(cpu, s.mem, s.proc.core);
      if !e.Gone? {
        var s1 := s.(proc := ProcOf(e), regs := e.core.regs);
        AutoRoundIs(cpu, s, s1);
        var j := FindAddress(s1.table, s1.regs.rip - 1);
        if j < |s1.table| { RestoreSeparate(cpu, orig, s1, j); }
      }
    }
  }

  lemma StepAutoSeparate(cpu: Cpu, orig: Memory, s: Session, uninitialised: int, fuel: nat)
    requires Separate(orig, s.mem, s.table)
    ensures var s' := StepAuto(cpu, s, uninitialised, fuel).0; Separate(orig, s'.mem, s'.table)
  {
    var kept := (s0: Session) => Separate(orig, s0.mem, s0.table);
    forall s0 | kept(s0) ensures kept(AutoRound(cpu, s0).s) { AutoRoundSeparate(cpu, orig, s0); }
    AutoLoopKeeps((s0: Session) => AutoRound(cpu, s0), kept, s, uninitialised, fuel);
  }

  lemma StepXSeparate(cpu: Cpu, orig: Memory, s: Session, count: int)
    requires Separate(orig, s.mem, s.table) && StepsInPlace(cpu, s, count)
    ensures var s' := StepX(cpu, s, count).0; Separate(orig, s'.mem, s'.table)
  {
    var kept := (s0: Session) => Separate(orig, s0.mem, s0.table);
    forall s0, i: nat | kept(s0) && InPlace(cpu, s0, i) ensures kept(StepRound(cpu, s0, i).s) {
      InPlaceRound(cpu, s0, i);
      AutoRoundSeparate(cpu, orig, s0);
    }
    StepLoopKeeps((s0: Session, i: nat) => StepRound(cpu, s0, i), (s0: Session, i: nat) => InPlace(cpu, s0, i),
                  kept, s, 0, count);
  }

  // ---------- histories ----------

  /** Every placement is a word away from what is listed then, and StepX handles disabled breakpoints in place. */
  ghost predicate KeepsApart(cpu: Cpu, systrace: bool, s: Session, cs: seq<Command>)
    decreases |cs|
  {
    cs == [] ||
    (&& (cs[0].DoPlace? ==> ApartFrom(s.table, cs[0].address))
     && (cs[0].DoStepX? ==> StepsInPlace(cpu, s, cs[0].count))
     && KeepsApart(cpu, systrace, Perform(cpu, systrace, s, cs[0]), cs[1..]))
  }

  lemma PerformSeparate(cpu: Cpu, orig: Memory, systrace: bool, s: Session, c: Command)
    requires Separate(orig, s.mem, s.table)
    requires (c.DoPlace? ==> ApartFrom(s.table, c.address)) && (c.DoStepX? ==> StepsInPlace(cpu, s, c.count))
    ensures var s' := Perform(cpu, systrace, s, c); Separate(orig, s'.mem, s'.table)
  {
    if s.crashed { return; }
    match c
    case DoPlace(a) => if s.proc.Alive? && Mapped(s.mem, a) { PlaceSeparate(orig, s.mem, s.table, a); }
    case DoDisable(number) => DisableSeparate(orig, s, number);
    case DoRemove(number) => RemoveSeparate(orig, s, number);
    case DoContinue(fuel) => ContinueSeparate(cpu, orig, s, systrace, fuel);
    case DoStepAuto(uninitialised, fuel) => StepAutoSeparate(cpu, orig, s, uninitialised, fuel);
    case DoStepX(count) => StepXSeparate(cpu, orig, s, count);
  }

  /** Any interleaving of placing, hitting, disabling, stepping and deleting leaves memory accounted for. */
  lemma {:induction false} MemoryConserved(cpu: Cpu, orig: Memory, systrace: bool, s: Session, cs: seq<Command>)
    requires Separate(orig, s.mem, s.table) && KeepsApart(cpu, systrace, s, cs)
    ensures var s' := PerformAll(cpu, systrace, s, cs);
      && Separate(orig, s'.mem, s'.table)
      && (forall x | x in orig && !Listed(s'.table, x) :: s'.mem[x] == orig[x])
    decreases |cs|
  {
    if cs != [] {
      PerformSeparate(cpu, orig, systrace, s, cs[0]);
      MemoryConserved(cpu, orig, systrace, Perform(cpu, systrace, s, cs[0]), cs[1..]);
    }
  }

  // ---------- the invariant of transparency ----------

  /** Apart and sound: the saved words are the original ones. */
  lemma SoundIsSeparate(p: Program, m: Memory, t: seq<Entry>)
    requires Sound(p, m, t) && Apart(t)
    ensures Separate(p.orig, m, t)
  {
    forall i | 0 <= i < |t| ensures SavedOriginal(p.orig, t[i]) {
      var a := t[i].address;
      assert SavedSound(p.orig, t, i);
      forall x | a <= x < a + 8 ensures SavedByte(t[i], x) == p.orig[x] {
        if x > a { NotListedInside(t, i, x); }
      }
    }
  }
}
