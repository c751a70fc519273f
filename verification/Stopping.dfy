/** Where the first stop point of the undebugged run can be read off memory as it is: with breakpoints a word
    apart, or when no disabled one is hit before it. ContinueExecution stops one instruction past it, and nowhere else.
    */
module Stopping {
  import opened Words
  import opened Machine
  import opened Sessions
  import opened Overlap
  import opened Ahead
  import opened HitBound
  import opened Separation

  /** Address x is executed from position n on, before position m. */
  ghost predicate Passed(p: Program, n: nat, m: nat, x: int) {
    exists j | n <= j < m :: Fetches(p, j, x)
  }

  /** Of the breakpoints in memory m, exactly those that were executed from position n to position k are gone. */
  ghost predicate TakesOut(p: Program, m: Memory, t: seq<Entry>, n: nat, k: nat, m': Memory) {
    && m'.Keys == p.orig.Keys
    && forall x | x in m && x in p.orig && x in m' ::
      m'[x] == if Listed(t, x) && Passed(p, n, k, x) then p.orig[x] else m[x]
  }

  // ---------- breakpoints a word apart ----------

  /** A hit with breakpoints a word apart changes the byte it was planted in. */
  lemma HitByte(p: Program, m: Memory, t: seq<Entry>, n: nat)
    requires Sound(p, m, t) && Apart(t) && PlantedAt(p, m, t, n)
    ensures var a := RunAt(p, n).core.regs.rip;
      a in m && At(p.orig, a) != INT3 && AfterFetch(p, m, t, n) == m[a := p.orig[a]]
  {
    var a := RunAt(p, n).core.regs.rip;
    var i := FindAddress(t, a);
    SoundIsSeparate(p, m, t);
    PokeSeparate(p.orig, m, t, i);
    assert Placeable(p, t[i].address) && Mapped(m, t[i].address);
  }

  lemma FetchTakesOut(p: Program, m: Memory, t: seq<Entry>, n: nat)
    requires Sound(p, m, t) && Apart(t)
    ensures TakesOut(p, m, t, n, n + 1, AfterFetch(p, m, t, n))
  {
    if PlantedAt(p, m, t, n) { HitByte(p, m, t, n); }
    var m' := AfterFetch(p, m, t, n);
    forall x | x in m && x in p.orig && x in m'
      ensures m'[x] == if Listed(t, x) && Passed(p, n, n + 1, x) then p.orig[x] else m[x]
    {
      PassedOne(p, n, x);
    }
  }

  lemma PassedOne(p: Program, n: nat, x: int)
    ensures Passed(p, n, n + 1, x) <==> Fetches(p, n, x)
  {
    if Fetches(p, n, x) { assert n <= n < n + 1; }
  }

  lemma TakesOutThen(p: Program, m: Memory, t: seq<Entry>, n: nat, l: nat, m1: Memory, k: nat, m2: Memory)
    requires n <= l <= k && m1.Keys == m.Keys
    requires TakesOut(p, m, t, n, l, m1) && TakesOut(p, m1, t, l, k, m2)
    ensures TakesOut(p, m, t, n, k, m2)
  {
  }

  lemma {:induction false} ApartTakesOut(p: Program, m: Memory, t: seq<Entry>, n: nat, k: nat)
    requires Sound(p, m, t) && Apart(t) && n <= k
    ensures TakesOut(p, m, t, n, k, MemAt(p, m, t, n, k))
    decreases k - n
  {
    if n < k {
      var m1 := AfterFetch(p, m, t, n);
      FetchSound(p, m, t, n);
      FetchTakesOut(p, m, t, n);
      ApartTakesOut(p, m1, t, n + 1, k);
      TakesOutThen(p, m, t, n, n + 1, m1, k, MemAt(p, m, t, n, k));
    }
  }

  // ---------- the first stop point ----------

  /** A stop point of memory as it is. */
  ghost predicate StopsNow(p: Program, s: Session, k: nat) {
    StopPoint(p, s.mem, s.table, k)
  }

  /** A planted and disabled breakpoint is executed only after a stop point. */
  ghost predicate EnabledFirst(p: Program, s: Session, n: nat) {
    forall k | n <= k && PlantedAt(p, s.mem, s.table, k) && !StopsNow(p, s, k) ::
      exists j | n <= j < k :: StopsNow(p, s, j)
  }

  /** Memory as it is shows the first stop point. */
  ghost predicate Plain(p: Program, s: Session, n: nat) {
    Apart(s.table) || EnabledFirst(p, s, n)
  }

  lemma ApartSame(p: Program, s: Session, n: nat, k: nat)
    requires Sound(p, s.mem, s.table) && Apart(s.table) && n <= k && forall j | n <= j < k :: !StopsNow(p, s, j)
    ensures StopAhead(p, s, n, k) <==> StopsNow(p, s, k)
  {
    ApartTakesOut(p, s.mem, s.table, n, k);
    var proc := RunAt(p, k);
    if proc.Alive? && Listed(s.table, proc.core.regs.rip) {
      var a := proc.core.regs.rip;
      assert Placeable(p, s.table[FindAddress(s.table, a)].address);
      if j :| n <= j < k && Fetches(p, j, a) { assert !StopsNow(p, s, j); }
    }
  }

  lemma EnabledSame(p: Program, s: Session, n: nat, k: nat)
    requires EnabledFirst(p, s, n) && n <= k && forall j | n <= j < k :: !StopsNow(p, s, j)
    ensures StopAhead(p, s, n, k) <==> StopsNow(p, s, k)
  {
    forall j | n <= j < k ensures !PlantedAt(p, s.mem, s.table, j) {
      assert !StopsNow(p, s, j);
    }
    MemAtUnplanted(p, s.mem, s.table, n, k);
  }

  /** Up to the first stop point of memory as it is, the stop points ahead are the same. */
  lemma PlainSame(p: Program, s: Session, n: nat, k: nat)
    requires Sound(p, s.mem, s.table) && Plain(p, s, n) && n <= k && forall j | n <= j < k :: !StopsNow(p, s, j)
    ensures StopAhead(p, s, n, k) <==> StopsNow(p, s, k)
  {
    if Apart(s.table) { ApartSame(p, s, n, k); } else { EnabledSame(p, s, n, k); }
  }

  lemma {:induction false} PlainNoneBefore(p: Program, s: Session, n: nat, m: nat)
    requires Sound(p, s.mem, s.table) && Plain(p, s, n) && n <= m && forall j | n <= j < m :: !StopAhead(p, s, n, j)
    ensures forall j | n <= j < m :: !StopsNow(p, s, j)
    decreases m
  {
    if n < m {
      PlainNoneBefore(p, s, n, m - 1);
      PlainSame(p, s, n, m - 1);
    }
  }

  /** What ContinueExecution from position n does, m being where it is decided. */
  ghost predicate StopsAt(p: Program, s: Session, fuel: nat, n: nat, m: nat, s': Session, st: Status) {
    && n <= m
    && (forall j | n <= j < m :: !StopsNow(p, s, j))
    && match st
      case Ok => StopsNow(p, s, m) && s'.proc == RunAt(p, Advance(p, m))
      case Blocked => n + fuel <= m && s'.proc == RunAt(p, m) && s'.proc.Alive?
      case _ => s'.proc == RunAt(p, m) == Exited
  }

  /** Where the debuggee is once ContinueExecution has been decided at position m. */
  ghost function Outcome(p: Program, m: nat, st: Status): nat {
    if st.Ok? then Advance(p, m) else m
  }

  lemma DecidedPlainly(p: Program, s: Session, fuel: nat, n: nat, m: nat, s': Session, st: Status)
    requires Sound(p, s.mem, s.table) && Plain(p, s, n) && DecidedAt(p, s, false, fuel, n, m, s', st)
    ensures StopsAt(p, s, fuel, n, m, s', st) && s'.mem == MemAt(p, s.mem, s.table, n, Outcome(p, m, st))
  {
    forall j | n <= j < m ensures !StopAhead(p, s, n, j) { assert !StopsHere(p, s, false, n, j); }
    PlainNoneBefore(p, s, n, m);
    PlainSame(p, s, n, m);
  }

  /** With system call tracing off, ContinueExecution is decided by the first stop point of the undebugged run: it
      returns 0 one instruction past it, and otherwise there was none. With breakpoints a word apart it takes out those
      it executed, and no others; and when it leaves no process, the return code tells how that ended. */
  lemma ContinueStops(p: Program, s: Session, fuel: nat, n: nat) returns (m: nat)
    requires Assumed(p) && Shows(p, s, n) && Plain(p, s, n)
    ensures var (s', st) := Continue(p.cpu, s, false, fuel);
      && StopsAt(p, s, fuel, n, m, s', st)
      && (Apart(s.table) ==> TakesOut(p, s.mem, s.table, n, Outcome(p, m, st), s'.mem))
      && (s'.proc.Exited? ==> Reported(p, s, n, st))
  {
    m := ContinueDecided(p, s, false, fuel, n);
    var (s', st) := Continue(p.cpu, s, false, fuel);
    DecidedPlainly(p, s, fuel, n, m, s', st);
    if Apart(s.table) { ApartTakesOut(p, s.mem, s.table, n, Outcome(p, m, st)); }
    if s'.proc.Exited? { ExitReported(p, s, false, fuel, n); }
  }

  /** The other direction: when the first stop point lies within the time watched, that is where the debuggee stops. */
  lemma StopPointStops(p: Program, s: Session, fuel: nat, n: nat, m: nat)
    requires Assumed(p) && Shows(p, s, n) && Plain(p, s, n)
    requires n <= m < n + fuel && StopsNow(p, s, m)
    requires forall j | n <= j < m :: !StopsNow(p, s, j)
    ensures var (s', st) := Continue(p.cpu, s, false, fuel);
      st == Ok && s'.proc == RunAt(p, Advance(p, m))
  {
    forall j | n <= j < m ensures !StopsHere(p, s, false, n, j) { PlainSame(p, s, n, j); }
    PlainSame(p, s, n, m);
    FirstStopStops(p, s, false, fuel, n, m);
  }

  // ---------- exits, with breakpoints a word apart ----------

  /** Then a breakpoint is still planted if it is planted now and its address is not executed before. */
  lemma ApartStillPlanted(p: Program, s: Session, n: nat, k: nat)
    requires Sound(p, s.mem, s.table) && Apart(s.table) && n <= k && RunAt(p, k).Alive?
    ensures StillPlanted(p, s, n, k) <==>
      PlantedAt(p, s.mem, s.table, k) && !Passed(p, n, k, RunAt(p, k).core.regs.rip)
  {
    ApartTakesOut(p, s.mem, s.table, n, k);
    var a := RunAt(p, k).core.regs.rip;
    if Listed(s.table, a) { assert Placeable(p, s.table[FindAddress(s.table, a)].address); }
  }
}
