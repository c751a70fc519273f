/** Deleting breakpoints in the reverse order of their placement, and all at once. */
module Undo {
  import opened Words
  import opened Machine
  import opened Sessions
  import opened Commands
  import opened Overlap
  import opened Separation
  import opened Sequences
  import opened Numbering

  /** Place a list of addresses, the last one last; failed placements change nothing. */
  function PlaceAll(s: Session, addresses: seq<int>): Session
    decreases |addresses|
  {
    if addresses == [] then s
    else Place(PlaceAll(s, addresses[..|addresses| - 1]), addresses[|addresses| - 1]).0
  }

  /** Delete the numbers n, n - 1, ..., m + 1. */
  function RemoveDownTo(s: Session, n: nat, m: nat): Session
    decreases n - m
  {
    if n <= m then s else RemoveDownTo(Remove(s, n).0, n - 1, m)
  }

  /** The word saved from memory undoes the int3 written into it, and the loose test agrees to write it back. */
  lemma PokeBack(m: Memory, a: int)
    requires Mapped(m, a)
    ensures LooksPlanted(Peek(m[a := INT3], a))
    ensures Poke(m[a := INT3], a, Peek(m, a)) == m
  {
  }

  lemma LastIsFound(t: seq<Entry>, e: Entry)
    requires Consecutive(t) && e.number == |t| + 1
    ensures Consecutive(t + [e]) && FindNumber(t + [e], |t| + 1) == |t| && Without(t + [e], |t|) == t
  {
    assert (t + [e])[|t|] == e;
    forall j | 0 <= j < |t| ensures (t + [e])[j].number == j + 1 {
      assert (t + [e])[j] == t[j];
    }
  }

  /** Deleting what was placed last restores memory and table, overlapping or not. */
  lemma RemoveUndoesPlace(s: Session, a: int)
    requires Consecutive(s.table) && Place(s, a).1.Ok?
    ensures var s' := Place(s, a).0;
      Consecutive(s'.table) && |s'.table| == |s.table| + 1 && Remove(s', |s'.table|) == (s, Ok)
  {
    PlaceIs(s, a);
    PokeBack(s.mem, a);
    LastIsFound(s.table, Entry(a, Peek(s.mem, a), |s.table| + 1, true));
  }

  lemma PlaceFails(s: Session, a: int)
    requires !Place(s, a).1.Ok?
    ensures Place(s, a).0 == s
  {
  }

  lemma DownToUnfolds(s: Session, n: nat, m: nat, s1: Session)
    requires n > m && Remove(s, n).0 == s1
    ensures RemoveDownTo(s, n, m) == RemoveDownTo(s1, n - 1, m)
  {
  }

  /** Deleting from the newest entry down to the size m leads to session s. */
  ghost predicate Undoes(s1: Session, s: Session, m: nat) {
    Consecutive(s1.table) && |s1.table| >= m && RemoveDownTo(s1, |s1.table|, m) == s
  }

  lemma UndoesOneMore(s1: Session, s: Session, m: nat, a: int)
    requires Undoes(s1, s, m)
    ensures Undoes(Place(s1, a).0, s, m)
  {
    if Place(s1, a).1.Ok? {
      RemoveUndoesPlace(s1, a);
      DownToUnfolds(Place(s1, a).0, |s1.table| + 1, m, s1);
    } else {
      PlaceFails(s1, a);
    }
  }

  /** Last in, first out: any sequence of placements is undone exactly, and numbers are consecutive all the way. */
  lemma {:induction false} LifoUndo(s: Session, addresses: seq<int>)
    requires Consecutive(s.table)
    ensures Undoes(PlaceAll(s, addresses), s, |s.table|)
    decreases |addresses|
  {
    if addresses != [] {
      LifoUndo(s, addresses[..|addresses| - 1]);
      UndoesOneMore(PlaceAll(s, addresses[..|addresses| - 1]), s, |s.table|, addresses[|addresses| - 1]);
    }
  }

  /** Undoing only the later placements leads back to where the earlier ones had led. */
  lemma {:induction false} LifoUndoPartly(s: Session, earlier: seq<int>, later: seq<int>)
    requires Consecutive(s.table)
    ensures var s1 := PlaceAll(s, earlier); Undoes(PlaceAll(s1, later), s1, |s1.table|) && Undoes(s1, s, |s.table|)
  {
    LifoUndo(s, earlier);
    LifoUndo(PlaceAll(s, earlier), later);
  }

  // ---------- RemoveAllBreakpoints ----------

  /** The debuggee runs, and every listed word is mapped: deletions do not fail. */
  ghost predicate Removable(s: Session) {
    s.proc.Alive? && forall i | 0 <= i < |s.table| :: Mapped(s.mem, s.table[i].address)
  }

  /** When i entries are gone from the front, round i erases the next. */
  lemma RemoveFirst(s: Session, t: seq<Entry>, i: nat)
    requires Removable(s) && Consecutive(t) && 2 * i < |t| && s.table == t[i..]
    ensures var r := Remove(s, i + 1); r.1.Ok? && r.0.table == t[i + 1..] && Removable(r.0)
  {
    assert s.table[0].number == i + 1;
    assert FindNumber(s.table, i + 1) == 0;
    assert Without(s.table, 0) == t[i + 1..];
  }

  /** The loop against the shrinking list takes out the first half, rounded up, and leaves the rest. */
  lemma {:induction false} RemoveAllRemovesHalf(s: Session, t: seq<Entry>, i: nat)
    requires Removable(s) && Consecutive(t) && 2 * i <= |t| + 1 && i <= |t| && s.table == t[i..]
    ensures var (s', st) := RemoveAllFrom(s, i); st.Ok? && s'.table == t[(|t| + 1) / 2..]
    decreases |s.table|
  {
    if i < |s.table| {
      RemoveFirst(s, t, i);
      RemoveAllRemovesHalf(Remove(s, i + 1).0, t, i + 1);
    }
  }

  lemma RemoveOneAtMost(s: Session, number: int)
    ensures |Remove(s, number).0.table| >= |s.table| - 1
  {
  }

  lemma RemoveOnly(s: Session)
    requires Removable(s) && |s.table| == 1
    ensures var r := Remove(s, 1); r.1.Ok? && (r.0.table == [] <==> s.table[0].number == 1)
  {
  }

  lemma RemoveAllDone(s: Session, i: nat)
    requires i >= |s.table|
    ensures RemoveAllFrom(s, i) == (s, Ok)
  {
  }

  lemma RemoveAllOfOne(s: Session)
    requires Removable(s) && |s.table| == 1
    ensures RemoveAllFrom(s, 0).0.table == [] <==> s.table[0].number == 1
  {
    var s1 := Remove(s, 1).0;
    RemoveOnly(s);
    RoundRemoves(s, 0);
    RemoveAllUnfolds(s, 0);
    RemoveAllDone(s1, 1);
  }

  /** Of two or more entries one is left: past the first round, the loop goes on only with more than one. */
  lemma RemoveAllOfMore(s: Session)
    requires Removable(s) && |s.table| >= 2
    ensures |RemoveAllFrom(s, 0).0.table| >= 1
  {
    var left := (q: nat, table: seq<Entry>) => |table| >= 1 && (q == 0 ==> |table| >= 2);
    forall s0, q: nat ensures KeptByRound(left, s0, q) {
      if Removable(s0) && left(q, s0.table) && q < |s0.table| {
        RoundRemoves(s0, q);
        RemoveOneAtMost(s0, q + 1);
      }
    }
    var r := RemoveAllInduction(left, (q: nat) => true, s);
  }

  /** It removes every breakpoint only when there is none, or just one and that has number 1. */
  lemma RemoveAllRemovesAllIff(s: Session)
    requires Removable(s)
    ensures RemoveAllFrom(s, 0).0.table == [] <==> s.table == [] || (|s.table| == 1 && s.table[0].number == 1)
  {
    if |s.table| == 0 {
      RemoveAllDone(s, 0);
    } else if |s.table| == 1 {
      RemoveAllOfOne(s);
    } else {
      RemoveAllOfMore(s);
    }
  }

  /** Without a process it changes nothing, and fails if and only if it comes to a number that is there. */
  lemma {:induction false} RemoveAllFails(s: Session, i: nat)
    requires s.proc.Exited?
    ensures var r := RemoveAllFrom(s, i);
      && r.0 == s
      && (r.1 == Error <==> exists k | 0 <= k < |s.table| :: i + 1 <= s.table[k].number <= |s.table|)
      && (r.1 == Error || r.1 == Ok)
    decreases |s.table| - i
  {
    if i < |s.table| {
      RemoveExited(s, i + 1);
      RemoveAllFails(s, i + 1);
    }
  }

  lemma RemoveExited(s: Session, number: int)
    requires s.proc.Exited? && 1 <= number <= |s.table|
    ensures Remove(s, number) == (s, if exists k | 0 <= k < |s.table| :: s.table[k].number == number then Error else Ok)
  {
    FailedPeekLooksPlanted();
  }

  // ---------- which entries are left, whatever the numbers ----------

  /** Entry j is not the first with a number from 1 to r. */
  ghost predicate Stays(t: seq<Entry>, r: nat, j: nat)
    requires j < |t|
  {
    !(1 <= t[j].number <= r) || exists h | 0 <= h < j :: t[h].number == t[j].number
  }

  /** The table is what stays of t, in order, js being the indices. */
  ghost predicate Left(t: seq<Entry>, r: nat, table: seq<Entry>, js: seq<nat>) {
    && |js| == |table|
    && (forall l, m | 0 <= l < m < |js| :: js[l] < js[m])
    && (forall m | 0 <= m < |js| :: js[m] < |t| && Stays(t, r, js[m]) && table[m] == t[js[m]])
    && (forall j: nat | j < |t| && Stays(t, r, j) :: Occurs(js, j))
  }

  ghost predicate LeftOf(t: seq<Entry>, r: nat, table: seq<Entry>) {
    exists js :: Left(t, r, table, js)
  }

  /** More than r entries stay when the first with each number up to r is gone. */
  ghost predicate MoreLeft(t: seq<Entry>, r: nat) {
    exists table :: LeftOf(t, r, table) && r < |table|
  }

  lemma NoneGone(t: seq<Entry>)
    ensures Left(t, 0, t, seq(|t|, j requires 0 <= j < |t| => j))
  {
    var js := seq(|t|, j requires 0 <= j < |t| => j);
    forall j: nat | j < |t| ensures Occurs(js, j) { assert js[j] == j; }
  }

  /** An entry with the next number is still in the table. */
  lemma NextIsLeft(t: seq<Entry>, r: nat, table: seq<Entry>, js: seq<nat>, j: nat) returns (m: nat)
    requires Left(t, r, table, js) && j < |t| && t[j].number == r + 1
    ensures m < |table| && js[m] == j && table[m] == t[j]
  {
    assert Stays(t, r, j) && Occurs(js, j);
    m :| m < |js| && js[m] == j;
  }

  /** Without an entry for the next number, the same entries stay. */
  lemma NoneNext(t: seq<Entry>, r: nat, table: seq<Entry>, js: seq<nat>)
    requires Left(t, r, table, js) && forall m | 0 <= m < |table| :: table[m].number != r + 1
    ensures Left(t, r + 1, table, js)
  {
    forall j: nat | j < |t| ensures t[j].number != r + 1 {
      if t[j].number == r + 1 {
        var m := NextIsLeft(t, r, table, js, j);
        assert false;
      }
    }
    assert forall j: nat | j < |t| :: Stays(t, r + 1, j) <==> Stays(t, r, j);
  }

  /** The first entry of the table that has the next number is the first of all that has it. */
  lemma FirstOfAll(t: seq<Entry>, r: nat, table: seq<Entry>, js: seq<nat>, m: nat, h: nat)
    requires Left(t, r, table, js) && m < |table| && h < |t| && t[h].number == r + 1
    requires forall l | 0 <= l < m :: table[l].number != r + 1
    ensures js[m] <= h
  {
    var l := NextIsLeft(t, r, table, js, h);
    if m < l { assert js[m] < js[l]; }
  }

  lemma StaysNext(t: seq<Entry>, r: nat, f: nat, j: nat)
    requires f < |t| && t[f].number == r + 1 && j < |t|
    requires forall h: nat | h < |t| && t[h].number == r + 1 :: f <= h
    ensures Stays(t, r + 1, j) <==> Stays(t, r, j) && j != f
  {
  }

  lemma OneGone(t: seq<Entry>, r: nat, table: seq<Entry>, js: seq<nat>, m: nat,
                table': seq<Entry>, js': seq<nat>)
    requires Left(t, r, table, js) && m < |table| && table[m].number == r + 1
    requires forall l | 0 <= l < m :: table[l].number != r + 1
    requires table' == table[..m] + table[m + 1..] && js' == js[..m] + js[m + 1..]
    ensures Left(t, r + 1, table', js')
  {
    forall h: nat | h < |t| && t[h].number == r + 1 ensures js[m] <= h { FirstOfAll(t, r, table, js, m, h); }
    forall j: nat | j < |t| ensures Stays(t, r + 1, j) <==> Stays(t, r, j) && j != js[m] { StaysNext(t, r, js[m], j); }
    forall j: nat | j < |t| && Stays(t, r + 1, j) ensures Occurs(js', j) { OccursStill(js, m, js', j); }
    forall l | 0 <= l < |js'| ensures js'[l] < |t| && Stays(t, r + 1, js'[l]) && table'[l] == t[js'[l]] {
      var k := if l < m then l else l + 1;
      assert js'[l] == js[k] && table'[l] == table[k];
    }
  }

  lemma OccursStill(js: seq<nat>, m: nat, js': seq<nat>, j: nat)
    requires m < |js| && js' == js[..m] + js[m + 1..] && Occurs(js, j) && j != js[m]
    ensures Occurs(js', j)
  {
    var l :| 0 <= l < |js| && js[l] == j;
    assert js'[if l < m then l else l - 1] == j;
  }

  lemma StillRemovable(s: Session, m: nat, mem: Memory)
    requires Removable(s) && m < |s.table| && mem.Keys == s.mem.Keys
    ensures Removable(s.(mem := mem, table := Without(s.table, m)))
  {
  }

  lemma RoundRemoves(s: Session, i: nat)
    requires Removable(s) && i < |s.table|
    ensures var r, m := Remove(s, i + 1), FindNumber(s.table, i + 1);
      r.1.Ok? && Removable(r.0) && r.0.table == if m == |s.table| then s.table else Without(s.table, m)
  {
    var m := FindNumber(s.table, i + 1);
    if m == |s.table| {
      RemoveDoesNothing(s, i + 1);
    } else {
      RemoveDoes(s, i + 1, m);
      StillRemovable(s, m, Remove(s, i + 1).0.mem);
    }
  }

  /** The table without its first entry with the next number, if it has one. */
  lemma NextLeaves(t: seq<Entry>, i: nat, table: seq<Entry>, m: nat, table': seq<Entry>)
    requires LeftOf(t, i, table) && m == FindNumber(table, i + 1)
    requires table' == if m == |table| then table else Without(table, m)
    ensures LeftOf(t, i + 1, table')
  {
    var js :| Left(t, i, table, js);
    if m == |table| {
      NoneNext(t, i, table, js);
    } else {
      OneGone(t, i, table, js, m, table', js[..m] + js[m + 1..]);
    }
  }

  /** What holds of the number of a round and the table is kept by that round. */
  ghost predicate KeptByRound(left: (nat, seq<Entry>) -> bool, s: Session, q: nat) {
    Removable(s) && left(q, s.table) && q < |s.table| ==>
      var r := Remove(s, q + 1); r.1.Ok? && Removable(r.0) && left(q + 1, r.0.table)
  }

  /** `all` is the loop from round i on, given what a deletion does. */
  ghost predicate LoopsWith(all: (Session, nat) -> (Session, Status), remove: (Session, int) -> (Session, Status),
                            s: Session, i: nat) {
    all(s, i) ==
      if i >= |s.table| then (s, Ok)
      else if remove(s, i + 1).1.Error? then (remove(s, i + 1).0, Error)
      else all(remove(s, i + 1).0, i + 1)
  }

  ghost predicate RoundIsFine(remove: (Session, int) -> (Session, Status), fine: (nat, Session) -> bool,
                              s: Session, q: nat) {
    fine(q, s) && q < |s.table| ==>
      var r := remove(s, q + 1); r.1.Ok? && |r.0.table| <= |s.table| && fine(q + 1, r.0)
  }

  /** Induction over the loop. */
  lemma {:induction false} RoundsInduction(
      all: (Session, nat) -> (Session, Status), remove: (Session, int) -> (Session, Status),
      fine: (nat, Session) -> bool, more: nat -> bool, s: Session, i: nat)
    returns (r: nat)
    requires forall s0, q: nat :: LoopsWith(all, remove, s0, q) && RoundIsFine(remove, fine, s0, q)
    requires fine(i, s) && forall q: nat, s0: Session | fine(q, s0) && q < |s0.table| :: more(q)
    ensures var (s', st) := all(s, i);
      st.Ok? && i <= r && |s'.table| <= r && fine(r, s') && forall q: nat | i <= q < r :: more(q)
    decreases |s.table| - i
  {
    r := i;
    assert LoopsWith(all, remove, s, i) && RoundIsFine(remove, fine, s, i);
    if i < |s.table| {
      r := RoundsInduction(all, remove, fine, more, remove(s, i + 1).0, i + 1);
    }
  }

  lemma RemoveAllLoops(s: Session, i: nat)
    ensures RemoveAllFrom(s, i) ==
      if i >= |s.table| then (s, Ok)
      else if Remove(s, i + 1).1.Error? then (Remove(s, i + 1).0, Error)
      else RemoveAllFrom(Remove(s, i + 1).0, i + 1)
  {
  }

  lemma RemoveAllLoopsWith(all: (Session, nat) -> (Session, Status), remove: (Session, int) -> (Session, Status),
                           s: Session, i: nat)
    requires forall s0, q: nat :: all(s0, q) == RemoveAllFrom(s0, q)
    requires forall s0, n :: remove(s0, n) == Remove(s0, n)
    ensures LoopsWith(all, remove, s, i)
  {
    RemoveAllLoops(s, i);
  }

  lemma RemoveIsFine(remove: (Session, int) -> (Session, Status), fine: (nat, Session) -> bool,
                     left: (nat, seq<Entry>) -> bool, s: Session, q: nat)
    requires forall s0, n :: remove(s0, n) == Remove(s0, n)
    requires forall s0, i: nat :: fine(i, s0) <==> Removable(s0) && left(i, s0.table)
    requires KeptByRound(left, s, q)
    ensures RoundIsFine(remove, fine, s, q)
  {
    var r := Remove(s, q + 1);
    assert remove(s, q + 1) == r;
  }

  lemma RemoveAllInduction(left: (nat, seq<Entry>) -> bool, more: nat -> bool, s: Session) returns (r: nat)
    requires Removable(s) && left(0, s.table)
    requires forall q: nat, table: seq<Entry> | left(q, table) && q < |table| :: more(q)
    requires forall s0, q: nat :: KeptByRound(left, s0, q)
    ensures var (s', st) := RemoveAllFrom(s, 0);
      st.Ok? && |s'.table| <= r && left(r, s'.table) && forall q: nat | q < r :: more(q)
  {
    var all, remove := (s0: Session, i: nat) => RemoveAllFrom(s0, i), (s0: Session, n: int) => Remove(s0, n);
    var fine := (q: nat, s0: Session) => Removable(s0) && left(q, s0.table);
    forall s0, q: nat ensures LoopsWith(all, remove, s0, q) && RoundIsFine(remove, fine, s0, q) {
      RemoveAllLoopsWith(all, remove, s0, q);
      assert KeptByRound(left, s0, q);
      RemoveIsFine(remove, fine, left, s0, q);
    }
    r := RoundsInduction(all, remove, fine, more, s, 0);
  }

  /** The loop against the shrinking list goes on up to the first number r with no more than r entries left, and takes
      out the first entry with each number up to it. */
  lemma RemoveAllLeaves(s: Session) returns (r: nat)
    requires Removable(s)
    ensures var (s', st) := RemoveAllFrom(s, 0);
      && st.Ok? && LeftOf(s.table, r, s'.table) && |s'.table| <= r
      && forall q: nat | q < r :: MoreLeft(s.table, q)
  {
    var t := s.table;
    NoneGone(t);
    var left, more := (q: nat, table: seq<Entry>) => LeftOf(t, q, table), (q: nat) => MoreLeft(t, q);
    forall s0, q: nat ensures KeptByRound(left, s0, q) { RoundKeepsLeft(t, left, s0, q); }
    forall q: nat, table: seq<Entry> | left(q, table) && q < |table| ensures more(q) { IsMore(t, q, table); }
    r := RemoveAllInduction(left, more, s);
    forall q: nat | q < r ensures MoreLeft(t, q) { assert more(q); }
  }

  lemma IsMore(t: seq<Entry>, q: nat, table: seq<Entry>)
    requires LeftOf(t, q, table) && q < |table|
    ensures MoreLeft(t, q)
  {
  }

  lemma RoundKeepsLeft(t: seq<Entry>, left: (nat, seq<Entry>) -> bool, s: Session, q: nat)
    requires forall r: nat, table: seq<Entry> :: left(r, table) <==> LeftOf(t, r, table)
    ensures KeptByRound(left, s, q)
  {
    if Removable(s) && left(q, s.table) && q < |s.table| {
      RoundRemoves(s, q);
      NextLeaves(t, q, s.table, FindNumber(s.table, q + 1), Remove(s, q + 1).0.table);
    }
  }

  // ---------- memory ----------

  /** Memory with the breakpoints of some entries taken out. */
  ghost predicate TakenOut(orig: Memory, m: Memory, out: seq<Entry>, m': Memory) {
    && m'.Keys == m.Keys
    && forall x | x in m && x in orig :: m'[x] == if Listed(out, x) then orig[x] else m[x]
  }

  /** With breakpoints a word apart, exactly the removed ones are restored. */
  lemma {:induction false} RemoveAllRestores(orig: Memory, s: Session, t: seq<Entry>, i: nat)
    requires Removable(s) && Consecutive(t) && 2 * i <= |t| + 1 && i <= |t| && s.table == t[i..]
    requires Separate(orig, s.mem, s.table)
    ensures TakenOut(orig, s.mem, t[i..(|t| + 1) / 2], RemoveAllFrom(s, i).0.mem)
    decreases |s.table|
  {
    if i < |s.table| {
      RemoveFirst(s, t, i);
      FirstTakenOut(orig, s, t, i);
      RemoveSeparate(orig, s, i + 1);
      var s1 := Remove(s, i + 1).0;
      RemoveAllRestores(orig, s1, t, i + 1);
      var out, rest := t[i..(|t| + 1) / 2], t[i + 1..(|t| + 1) / 2];
      assert out[0] == t[i] && out[1..] == rest;
      TakenOutBoth(orig, s.mem, out, s1.mem, RemoveAllFrom(s1, i + 1).0.mem);
      RemoveAllUnfolds(s, i);
    } else {
      assert t[i..(|t| + 1) / 2] == [];
    }
  }

  lemma FirstTakenOut(orig: Memory, s: Session, t: seq<Entry>, i: nat)
    requires Removable(s) && Consecutive(t) && 2 * i < |t| && s.table == t[i..] && Separate(orig, s.mem, s.table)
    ensures TakenOut(orig, s.mem, [t[i]], Remove(s, i + 1).0.mem)
  {
    RemoveFirst(s, t, i);
    RemoveRestores(orig, s, i + 1);
    assert s.table[0] == t[i] && s.table[0].number == i + 1;
    assert FindNumber(s.table, i + 1) == 0;
    forall x ensures Listed([t[i]], x) <==> x == t[i].address {
      ListedInTail([t[i]], x);
    }
  }

  lemma RemoveAllUnfolds(s: Session, i: nat)
    requires i < |s.table| && !Remove(s, i + 1).1.Error?
    ensures RemoveAllFrom(s, i) == RemoveAllFrom(Remove(s, i + 1).0, i + 1)
  {
  }

  lemma TakenOutBoth(orig: Memory, m: Memory, out: seq<Entry>, m1: Memory, m2: Memory)
    requires out != [] && TakenOut(orig, m, [out[0]], m1) && TakenOut(orig, m1, out[1..], m2)
    ensures TakenOut(orig, m, out, m2)
  {
  }

  lemma ListedInTail(t: seq<Entry>, x: int)
    requires t != []
    ensures Listed(t, x) <==> x == t[0].address || Listed(t[1..], x)
  {
  }

  lemma NothingPatched(orig: Memory, m: Memory, t: seq<Entry>)
    requires Patched(orig, m, t) && t == []
    ensures m == orig
  {
    forall x | x in m ensures m[x] == orig[x] {
      assert !Listed(t, x);
    }
  }

  lemma RemoveLast(s: Session)
    requires Removable(s) && Consecutive(s.table) && s.table != []
    ensures var r := Remove(s, |s.table|);
      r.1.Ok? && r.0.table == s.table[..|s.table| - 1] && Removable(r.0) && Consecutive(r.0.table)
  {
    var n := |s.table|;
    assert s.table[n - 1].number == n;
    assert FindNumber(s.table, n) == n - 1;
    assert Without(s.table, n - 1) == s.table[..n - 1];
  }

  /** A loop that counts down removes everything and gives the program its memory back. */
  lemma {:induction false} DescendingRemovesAll(orig: Memory, s: Session)
    requires Removable(s) && Consecutive(s.table) && Separate(orig, s.mem, s.table)
    ensures var s' := RemoveDownTo(s, |s.table|, 0); s'.table == [] && s'.mem == orig
    decreases |s.table|
  {
    if s.table == [] {
      NothingPatched(orig, s.mem, s.table);
    } else {
      RemoveLast(s);
      RemoveSeparate(orig, s, |s.table|);
      DescendingRemovesAll(orig, Remove(s, |s.table|).0);
    }
  }
}
