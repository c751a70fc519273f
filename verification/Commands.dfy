/** What single commands do to a session, all of it, for every table. */
module Commands {
  import opened Words
  import opened Machine
  import opened Sessions

  /** Entry i is the first with a number. */
  ghost predicate FirstWith(t: seq<Entry>, number: int, i: nat) {
    i < |t| && t[i].number == number && forall j | 0 <= j < i :: t[j].number != number
  }

  lemma FirstIsFound(t: seq<Entry>, number: int, i: nat)
    requires FirstWith(t, number, i)
    ensures FindNumber(t, number) == i
  {
  }

  /** A placement writes one byte and appends an enabled entry with the next number and the word read before; or it
      fails and changes nothing. */
  lemma PlaceDoes(s: Session, a: int)
    ensures Place(s, a) ==
      if s.proc.Alive? && Mapped(s.mem, a)
      then (s.(mem := s.mem[a := INT3], table := s.table + [Entry(a, Peek(s.mem, a), |s.table| + 1, true)]), Ok)
      else (s, Error)
  {
    if s.proc.Alive? && Mapped(s.mem, a) { PlaceIs(s, a); }
  }

  /** Deleting a number that is there erases the first entry that has it, wherever it stands, and writes its word
      back if the byte passes the test; without a process or a mapped word it fails and changes nothing. */
  lemma RemoveDoes(s: Session, number: int, i: nat)
    requires 1 <= number <= |s.table| && FirstWith(s.table, number, i)
    ensures var e := s.table[i]; var rest := s.table[..i] + s.table[i + 1..];
      Remove(s, number) ==
        if s.proc.Exited? || !Mapped(s.mem, e.address) then (s, Error)
        else if At(s.mem, e.address) & 0xcc == 0xcc
        then (s.(mem := Poke(s.mem, e.address, e.origdata), table := rest), Ok)
        else (s.(table := rest), Ok)
  {
    FirstIsFound(s.table, number, i);
    var e := s.table[i];
    FailedPeekLooksPlanted();
    if Mapped(s.mem, e.address) { LooseTest(Peek(s.mem, e.address)); }
  }

  /** Deleting any other number changes nothing. */
  lemma RemoveDoesNothing(s: Session, number: int)
    requires number < 1 || number > |s.table| || forall i | 0 <= i < |s.table| :: s.table[i].number != number
    ensures Remove(s, number) == (s, Ok)
  {
  }

  /** Disabling clears the flag of the first entry with the number, wherever it stands, and changes nothing else. */
  lemma DisableDoes(s: Session, number: int, i: nat)
    requires number <= |s.table| && FirstWith(s.table, number, i)
    ensures var s' := Disable(s, number);
      && s' == s.(table := s'.table) && |s'.table| == |s.table|
      && s'.table[i] == Entry(s.table[i].address, s.table[i].origdata, number, false)
      && forall j | 0 <= j < |s.table| && j != i :: s'.table[j] == s.table[j]
  {
    FirstIsFound(s.table, number, i);
  }

  /** Handling a hit logs the address, writes the word back, rewinds and steps; only the end of the process clears the
      running flag. Without a process or a mapped word nothing but the log changes. */
  lemma RestoreDoes(cpu: Cpu, s: Session, w: Word, a: int)
    ensures var logged := s.(restored := s.restored + [a]);
      if s.proc.Exited? || !Mapped(s.mem, a) then Restore(cpu, s, w, a) == (logged, Error)
      else
        var core := s.proc.core.(regs := s.proc.core.regs.(rip := a));
        var e := SingleStep(cpu, Poke(s.mem, a, w), core);
        Restore(cpu, s, w, a) ==
          (logged.(mem := Poke(s.mem, a, w), regs := core.regs, proc := ProcOf(e), running := s.running && !e.Gone?),
           if e.Gone? then Exit else Ok)
  {
  }

  /** RestoreBreakpoint returns -1 if and only if a request has failed, and EXIT_STATUS if and only if its step has
      ended the process. */
  lemma RestoreCode(cpu: Cpu, s: Session, w: Word, a: int)
    ensures var (s', st) := Restore(cpu, s, w, a);
      && (st == Error <==> s.proc.Exited? || !Mapped(s.mem, a))
      && (st == Exit <==> s.proc.Alive? && s'.proc.Exited?)
      && (st == Ok <==> s'.proc.Alive? && Mapped(s.mem, a))
  {
  }

  /** A command of a session is the operation of that name, with tracing or without; only continuing depends on
      tracing. */
  lemma PerformDoes(cpu: Cpu, systrace: bool, s: Session, a: int, number: int, fuel: nat, u: int, count: int)
    requires !s.crashed
    ensures Perform(cpu, systrace, s, DoPlace(a)) == Place(s, a).0
    ensures Perform(cpu, systrace, s, DoDisable(number)) == Disable(s, number)
    ensures Perform(cpu, systrace, s, DoRemove(number)) == Remove(s, number).0
    ensures Perform(cpu, systrace, s, DoContinue(fuel)) == Continue(cpu, s, systrace, fuel).0
    ensures Perform(cpu, systrace, s, DoStepAuto(u, fuel)) == StepAuto(cpu, s, u, fuel).0
    ensures Perform(cpu, systrace, s, DoStepX(count)) == StepX(cpu, s, count).0
  {
  }
}
