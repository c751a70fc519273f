/** Breakpoint numbers over the whole history of a session. */
module Numbering {
  import opened Words
  import opened Machine
  import opened Sessions

  /** Entries are numbered 1, 2, 3, ... */
  ghost predicate Consecutive(t: seq<Entry>) {
    forall i | 0 <= i < |t| :: t[i].number == i + 1
  }

  /** No number is below its position. */
  ghost predicate AtLeastPosition(t: seq<Entry>) {
    forall i | 0 <= i < |t| :: t[i].number >= i + 1
  }

  /** Some number is ahead of its position. */
  ghost predicate HasGap(t: seq<Entry>) {
    exists i | 0 <= i < |t| :: t[i].number > i + 1
  }

  /** How one command changes the table: entries keep their numbers; one is appended, numbered by the new size;
      or the first with some number no larger than the size is erased. */
  ghost predicate TableStep(t: seq<Entry>, t': seq<Entry>) {
    || (|t'| == |t| && forall i | 0 <= i < |t| :: t'[i].number == t[i].number)
    || (|t'| == |t| + 1 && t'[..|t|] == t && t'[|t|].number == |t| + 1)
    || (exists i | 0 <= i < |t| :: Erases(t, i, t'))
  }

  ghost predicate Erases(t: seq<Entry>, i: nat, t': seq<Entry>) {
    i < |t| && t' == Without(t, i) && t[i].number <= |t|
  }

  lemma {:induction false} ContinueKeepsTable(cpu: Cpu, s: Session, systrace: bool, fuel: nat)
    ensures Continue(cpu, s, systrace, fuel).0.table == s.table
    decreases fuel
  {
    var turn := ContinueTurn(cpu, s, systrace, fuel);
    assert turn.s.table == s.table;
    if turn.Recurse? { ContinueKeepsTable(cpu, turn.s, systrace, turn.left); }
  }

  lemma AutoRoundKeepsTable(cpu: Cpu, s: Session)
    ensures AutoRound(cpu, s).s.table == s.table
  {
  }

  lemma StepRoundKeepsTable(cpu: Cpu, s: Session, i: nat)
    ensures StepRound(cpu, s, i).s.table == s.table
  {
  }

  lemma StepAutoKeepsTable(cpu: Cpu, s: Session, uninitialised: int, fuel: nat)
    ensures StepAuto(cpu, s, uninitialised, fuel).0.table == s.table
  {
    var round, kept := (s0: Session) => AutoRound(cpu, s0), (s0: Session) => s0.table == s.table;
    forall s0 | kept(s0) ensures kept(round(s0).s) { AutoRoundKeepsTable(cpu, s0); }
    AutoLoopKeeps(round, kept, s, uninitialised, fuel);
  }

  lemma StepXKeepsTable(cpu: Cpu, s: Session, count: int)
    ensures StepX(cpu, s, count).0.table == s.table
  {
    var round, fine := (s0: Session, i: nat) => StepRound(cpu, s0, i), (s0: Session, i: nat) => true;
    var kept := (s0: Session) => s0.table == s.table;
    AlwaysFine(round, fine, s, 0, count);
    forall s0, i: nat | kept(s0) ensures kept(round(s0, i).s) { StepRoundKeepsTable(cpu, s0, i); }
    StepLoopKeeps(round, fine, kept, s, 0, count);
  }

  /** Running and stepping leave the table alone. */
  lemma RunsKeepTable(cpu: Cpu, systrace: bool, s: Session, c: Command)
    requires c.DoContinue? || c.DoStepAuto? || c.DoStepX?
    ensures Perform(cpu, systrace, s, c).table == s.table
  {
    match c
    case DoContinue(fuel) => ContinueKeepsTable(cpu, s, systrace, fuel);
    case DoStepAuto(uninitialised, fuel) => StepAutoKeepsTable(cpu, s, uninitialised, fuel);
    case DoStepX(count) => StepXKeepsTable(cpu, s, count);
  }

  lemma PerformTableStep(cpu: Cpu, systrace: bool, s: Session, c: Command)
    ensures TableStep(s.table, Perform(cpu, systrace, s, c).table)
  {
    match c
    case DoPlace(a) =>
    case DoDisable(number) =>
    case DoRemove(number) => RemoveErases(s, number);
    case _ => RunsKeepTable(cpu, systrace, s, c);
  }

  /** Erasing moves later entries down, so numbers stay at or ahead of their positions; and an entry that is ahead
      can only be erased while there is another one behind it to get ahead. */
  lemma StepKeepsAhead(t: seq<Entry>, t': seq<Entry>)
    requires TableStep(t, t') && AtLeastPosition(t)
    ensures AtLeastPosition(t') && (HasGap(t) ==> HasGap(t'))
  {
    if HasGap(t) {
      var g :| 0 <= g < |t| && t[g].number > g + 1;
      if i :| 0 <= i < |t| && Erases(t, i, t') {
        var w := if i == g then i else if i < g then g - 1 else g;
        assert w < |t'| && t'[w].number > w + 1;
      } else {
        assert t'[g].number > g + 1;
      }
    }
  }

  /** The deletion of an entry that is not the last. */
  ghost predicate InteriorRemoval(s: Session, c: Command) {
    c.DoRemove? && !s.crashed && Remove(s, c.number).0.table != s.table && FindNumber(s.table, c.number) < |s.table| - 1
  }

  lemma ConsecutiveHasNoGap(t: seq<Entry>)
    requires Consecutive(t)
    ensures AtLeastPosition(t) && !HasGap(t)
  {
  }

  lemma ConsecutiveErased(t: seq<Entry>, i: nat)
    requires Consecutive(t) && i < |t|
    ensures AtLeastPosition(Without(t, i))
    ensures i < |t| - 1 ==> HasGap(Without(t, i)) && !Consecutive(Without(t, i))
    ensures i == |t| - 1 ==> Consecutive(Without(t, i))
  {
    if i < |t| - 1 { assert Without(t, i)[i].number == i + 2; }
  }

  lemma RemoveErases(s: Session, number: int)
    ensures var t', i := Remove(s, number).0.table, FindNumber(s.table, number);
      t' == s.table || Erases(s.table, i, t')
  {
  }

  lemma ConsecutiveRemoved(s: Session, number: int)
    requires Consecutive(s.table) && !s.crashed
    ensures var t' := Remove(s, number).0.table;
      if InteriorRemoval(s, DoRemove(number)) then AtLeastPosition(t') && HasGap(t') && !Consecutive(t')
      else Consecutive(t')
  {
    RemoveErases(s, number);
    if Remove(s, number).0.table != s.table { ConsecutiveErased(s.table, FindNumber(s.table, number)); }
  }

  lemma ConsecutiveStep(cpu: Cpu, systrace: bool, s: Session, c: Command)
    requires Consecutive(s.table)
    ensures var t' := Perform(cpu, systrace, s, c).table;
      if InteriorRemoval(s, c) then AtLeastPosition(t') && HasGap(t') && !Consecutive(t') else Consecutive(t')
  {
    if s.crashed { return; }
    match c
    case DoPlace(a) =>
    case DoDisable(number) =>
    case DoRemove(number) => ConsecutiveRemoved(s, number);
    case _ => RunsKeepTable(cpu, systrace, s, c);
  }

  /** Somewhere in a list of commands, an entry that is not the last is deleted. */
  ghost predicate EverInterior(cpu: Cpu, systrace: bool, s: Session, cs: seq<Command>)
    decreases |cs|
  {
    cs != [] && (InteriorRemoval(s, cs[0]) || EverInterior(cpu, systrace, Perform(cpu, systrace, s, cs[0]), cs[1..]))
  }

  /** Once a number is ahead of its position, some number always will be; in particular the table never becomes
      empty again. */
  lemma {:induction false} GapForever(cpu: Cpu, systrace: bool, s: Session, cs: seq<Command>)
    requires AtLeastPosition(s.table) && HasGap(s.table)
    ensures var t' := PerformAll(cpu, systrace, s, cs).table; AtLeastPosition(t') && HasGap(t') && t' != []
    decreases |cs|
  {
    if cs != [] {
      PerformTableStep(cpu, systrace, s, cs[0]);
      StepKeepsAhead(s.table, Perform(cpu, systrace, s, cs[0]).table);
      GapForever(cpu, systrace, Perform(cpu, systrace, s, cs[0]), cs[1..]);
    }
  }

  /** Numbers are 1..n exactly as long as every deletion has removed the last entry. */
  lemma {:induction false} NumberingNeverRecovers(cpu: Cpu, systrace: bool, s: Session, cs: seq<Command>)
    requires Consecutive(s.table)
    ensures var t' := PerformAll(cpu, systrace, s, cs).table;
      && AtLeastPosition(t')
      && (Consecutive(t') <==> !EverInterior(cpu, systrace, s, cs))
      && (EverInterior(cpu, systrace, s, cs) ==> t' != [])
    decreases |cs|
  {
    if cs == [] {
      ConsecutiveHasNoGap(s.table);
    } else {
      ConsecutiveStep(cpu, systrace, s, cs[0]);
      var s' := Perform(cpu, systrace, s, cs[0]);
      if InteriorRemoval(s, cs[0]) {
        GapForever(cpu, systrace, s', cs[1..]);
      } else {
        NumberingNeverRecovers(cpu, systrace, s', cs[1..]);
      }
    }
  }

  /** The largest size the table has had. */
  ghost function Peak(cpu: Cpu, systrace: bool, s: Session, cs: seq<Command>): (peak: nat)
    ensures peak >= |s.table|
    decreases |cs|
  {
    if cs == [] then |s.table|
    else
      var later := Peak(cpu, systrace, Perform(cpu, systrace, s, cs[0]), cs[1..]);
      if later > |s.table| then later else |s.table|
  }

  ghost predicate NumbersUpTo(t: seq<Entry>, bound: nat) {
    forall i | 0 <= i < |t| :: t[i].number <= bound
  }

  lemma StepUpTo(t: seq<Entry>, t': seq<Entry>, bound: nat)
    requires TableStep(t, t') && |t'| <= bound && NumbersUpTo(t, bound)
    ensures NumbersUpTo(t', bound)
  {
  }

  /** No number is ever above the largest size the table has had. */
  lemma {:induction false} NumbersBelowPeak(cpu: Cpu, systrace: bool, s: Session, cs: seq<Command>, bound: nat)
    requires NumbersUpTo(s.table, bound) && Peak(cpu, systrace, s, cs) <= bound
    ensures NumbersUpTo(PerformAll(cpu, systrace, s, cs).table, bound)
    decreases |cs|
  {
    if cs != [] {
      var s1 := Perform(cpu, systrace, s, cs[0]);
      PerformTableStep(cpu, systrace, s, cs[0]);
      StepUpTo(s.table, s1.table, bound);
      NumbersBelowPeak(cpu, systrace, s1, cs[1..], bound);
    }
  }

  // ---------- what numbers reach ----------

  /** While numbers are consecutive, number k is entry k - 1 for both commands that take one. */
  lemma NumbersReach(s: Session, number: int)
    requires Consecutive(s.table) && 1 <= number <= |s.table|
    ensures FindNumber(s.table, number) == number - 1
    ensures Disable(s, number).table == s.table[number - 1 := s.table[number - 1].(enabled := false)]
    ensures Remove(s, number).0.table != s.table ==> Remove(s, number).0.table == Without(s.table, number - 1)
  {
    assert s.table[number - 1].number == number;
  }

  /** A number that the list does not find, be it that no entry has it or that it is above the size, makes the
      debugger crash when it is to be disabled; any other does not. */
  lemma DisableCrashesIff(s: Session, number: int)
    requires !s.crashed
    ensures Disable(s, number).crashed <==>
      number > |s.table| || forall i | 0 <= i < |s.table| :: s.table[i].number != number
  {
  }

  /** An entry whose number is above the size can be neither deleted nor disabled: the one does nothing, the other
      crashes, and so ends the session. */
  lemma OutOfReach(cpu: Cpu, systrace: bool, s: Session, number: int, cs: seq<Command>)
    requires number > |s.table| && !s.crashed
    ensures Remove(s, number) == (s, Ok)
    ensures PerformAll(cpu, systrace, s, [DoDisable(number)] + cs) == s.(crashed := true)
  {
    assert ([DoDisable(number)] + cs)[1..] == cs;
    CrashedForGood(cpu, systrace, s.(crashed := true), cs);
  }

  lemma {:induction false} CrashedForGood(cpu: Cpu, systrace: bool, s: Session, cs: seq<Command>)
    requires s.crashed
    ensures PerformAll(cpu, systrace, s, cs) == s
    decreases |cs|
  {
    if cs != [] { CrashedForGood(cpu, systrace, s, cs[1..]); }
  }

  /** After an interior deletion the last entry is out of reach, and the next one placed gets the same number; from
      then on that number means the older of the two. */
  lemma InteriorDeletionDuplicates(t: seq<Entry>, i: nat, address: int, origdata: Word)
    requires Consecutive(t) && i < |t| - 1
    ensures var n := |t|; var t1 := Without(t, i); var t2 := Append(t1, address, origdata);
      && t1[n - 2].number == n > |t1|
      && |t2| == n && t2[n - 2].number == t2[n - 1].number == n
      && FindNumber(t2, n) == n - 2
  {
  }
}
