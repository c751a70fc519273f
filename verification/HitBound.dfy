/** How often breakpoints can be hit: restoring a word may bring breakpoints back, but only at higher addresses,
    so the planted ones count down like the bits of a binary number. */
module HitBound {
  import opened Words
  import opened Machine
  import opened Sessions
  import opened Overlap

  function Pow2(n: nat): nat {
    if n == 0 then 1 else 2 * Pow2(n - 1)
  }

  lemma {:induction false} Pow2Monotone(n: nat, n': nat)
    requires n <= n'
    ensures Pow2(n) <= Pow2(n')
  {
    if n < n' { Pow2Monotone(n, n' - 1); }
  }

  /** The listed addresses, each once. */
  ghost function Addresses(t: seq<Entry>): set<int> {
    set i | 0 <= i < |t| :: t[i].address
  }

  lemma {:induction false} FewAddresses(t: seq<Entry>)
    ensures |Addresses(t)| <= |t|
  {
    if t != [] {
      var n := |t| - 1;
      FewAddresses(t[..n]);
      assert Addresses(t) == Addresses(t[..n]) + {t[n].address};
    }
  }

  lemma AddressesAreListed(t: seq<Entry>, x: int)
    ensures x in Addresses(t) <==> Listed(t, x)
  {
    var i := FindAddress(t, x);
    if i < |t| { assert t[i].address in Addresses(t); }
  }

  lemma {:induction false} HasLowest(a: set<int>)
    requires a != {}
    ensures exists x :: x in a && forall y | y in a :: x <= y
  {
    if forall y :: y !in a { assert false; }
    var x :| x in a;
    var low, rest := x, a - {x};
    if rest != {} {
      HasLowest(rest);
      var l :| l in rest && forall y | y in rest :: l <= y;
      low := if l < x then l else x;
    }
    forall y | y in a ensures low <= y { assert y == x || y in rest; }
  }

  ghost function Lowest(a: set<int>): (x: int)
    requires a != {}
    ensures x in a && forall y | y in a :: x <= y
  {
    HasLowest(a);
    var x :| x in a && forall y | y in a :: x <= y;
    x
  }

  /** The addresses that hold int3, read as a binary number whose highest bit belongs to the lowest address. */
  ghost function Weight(m: Memory, a: set<int>): nat
    decreases |a|
  {
    if a == {} then 0
    else
      var x := Lowest(a);
      Weight(m, a - {x}) + if At(m, x) == INT3 then Pow2(|a| - 1) else 0
  }

  lemma {:induction false} WeightBelow(m: Memory, a: set<int>)
    ensures Weight(m, a) < Pow2(|a|)
    decreases |a|
  {
    if a != {} { WeightBelow(m, a - {Lowest(a)}); }
  }

  /** Memory m' is m after a hit of the breakpoint at address x. */
  ghost predicate AfterHit(p: Program, m: Memory, t: seq<Entry>, x: int, m': Memory) {
    && Sound(p, m, t) && Listed(t, x) && At(m, x) == INT3 && Mapped(m, x)
    && m' == Poke(m, x, t[FindAddress(t, x)].origdata)
  }

  /** A hit clears its own bit and can set lower ones only. */
  lemma HitLowers(p: Program, m: Memory, t: seq<Entry>, x: int, m': Memory)
    requires AfterHit(p, m, t, x, m')
    ensures Weight(m', Addresses(t)) < Weight(m, Addresses(t))
  {
    FirstSavedOriginal(p, m, t, x);
    PokeSaved(p, m, t, FindAddress(t, x));
    AddressesAreListed(t, x);
    BitCleared(m, m', Addresses(t), x);
  }

  lemma {:induction false} BitCleared(m: Memory, m': Memory, a: set<int>, x: int)
    requires x in a && At(m, x) == INT3 && At(m', x) != INT3
    requires forall y | y < x :: At(m', y) == At(m, y)
    ensures Weight(m', a) < Weight(m, a)
    decreases |a|
  {
    var low := Lowest(a);
    if low == x {
      WeightBelow(m', a - {x});
    } else {
      BitCleared(m, m', a - {low}, x);
    }
  }

  /** Breakpoints at least a word apart. */
  ghost predicate Apart(t: seq<Entry>) {
    forall i, j | 0 <= i < j < |t| :: t[i].address + 8 <= t[j].address || t[j].address + 8 <= t[i].address
  }

  /** The listed addresses that hold int3. */
  ghost function Planted(m: Memory, t: seq<Entry>): set<int> {
    set x | x in Addresses(t) && At(m, x) == INT3
  }

  /** With breakpoints a word apart, a hit takes its own breakpoint out and brings nothing back. */
  lemma ApartHitOne(p: Program, m: Memory, t: seq<Entry>, x: int, m': Memory)
    requires AfterHit(p, m, t, x, m') && Apart(t)
    ensures x in Planted(m, t) && Planted(m', t) == Planted(m, t) - {x}
  {
    FirstSavedOriginal(p, m, t, x);
    PokeSaved(p, m, t, FindAddress(t, x));
    AddressesAreListed(t, x);
    forall y | y in Addresses(t) && y != x ensures At(m', y) == At(m, y) {
      assert y + 8 <= x || x + 8 <= y;
    }
  }

  /** What hits are paid with. */
  ghost function Budget(s: Session): nat {
    Weight(s.mem, Addresses(s.table))
  }

  lemma LegLowersWeight(p: Program, s: Session, systrace: bool, fuel: nat, n: nat, leg: Leg)
    requires Sound(p, s.mem, s.table) && IsLeg(p, s, systrace, fuel, n, leg)
    ensures s.restored <= leg.turn.s.restored
    ensures |leg.turn.s.restored| + Budget(leg.turn.s) <= |s.restored| + Budget(s)
  {
    if leg.why == Hit {
      HitLowers(p, s.mem, s.table, RunAt(p, leg.k).core.regs.rip, leg.turn.s.mem);
    }
  }

  /** The hits of one ContinueExecution are paid for by the weight of the planted breakpoints. */
  lemma {:induction false} HitsLowerWeight(p: Program, s: Session, systrace: bool, fuel: nat, n: nat)
    requires Assumed(p) && Shows(p, s, n)
    ensures var s' := Continue(p.cpu, s, systrace, fuel).0;
      && s'.table == s.table && s.restored <= s'.restored
      && |s'.restored| + Budget(s') <= |s.restored| + Budget(s)
    decreases fuel
  {
    if s.proc.Alive? {
      var leg := FirstLeg(p, s, systrace, fuel, n);
      LegLowersWeight(p, s, systrace, fuel, n, leg);
      if leg.turn.Recurse? {
        HitsLowerWeight(p, leg.turn.s, systrace, leg.turn.left, leg.Reached(p));
      }
    }
  }

  /** With n listed addresses in any layout, ContinueExecution handles at most 2^n - 1 hits. */
  lemma HitsBounded(p: Program, s: Session, systrace: bool, fuel: nat, n: nat)
    requires Assumed(p) && Shows(p, s, n)
    ensures |Continue(p.cpu, s, systrace, fuel).0.restored| - |s.restored| <= Pow2(|Addresses(s.table)|) - 1
    ensures Pow2(|Addresses(s.table)|) <= Pow2(|s.table|)
  {
    HitsLowerWeight(p, s, systrace, fuel, n);
    WeightBelow(s.mem, Addresses(s.table));
    FewAddresses(s.table);
    Pow2Monotone(|Addresses(s.table)|, |s.table|);
  }

  lemma ApartLegLowers(p: Program, s: Session, systrace: bool, fuel: nat, n: nat, leg: Leg)
    requires Sound(p, s.mem, s.table) && Apart(s.table) && IsLeg(p, s, systrace, fuel, n, leg)
    ensures |leg.turn.s.restored| + |Planted(leg.turn.s.mem, s.table)| == |s.restored| + |Planted(s.mem, s.table)|
  {
    if leg.why == Hit {
      ApartHitOne(p, s.mem, s.table, RunAt(p, leg.k).core.regs.rip, leg.turn.s.mem);
    }
  }

  /** With breakpoints a word apart, at most one hit for each that is still planted. */
  lemma {:induction false} ApartHitsBounded(p: Program, s: Session, systrace: bool, fuel: nat, n: nat)
    requires Assumed(p) && Shows(p, s, n) && Apart(s.table)
    ensures var s' := Continue(p.cpu, s, systrace, fuel).0;
      && s'.table == s.table
      && |s'.restored| + |Planted(s'.mem, s.table)| == |s.restored| + |Planted(s.mem, s.table)|
    decreases fuel
  {
    if s.proc.Alive? {
      var leg := FirstLeg(p, s, systrace, fuel, n);
      ApartLegLowers(p, s, systrace, fuel, n, leg);
      if leg.turn.Recurse? {
        ApartHitsBounded(p, leg.turn.s, systrace, leg.turn.left, leg.Reached(p));
      }
    }
  }

  predicate OnlyRuns(cs: seq<Command>) {
    forall i | 0 <= i < |cs| :: cs[i].DoContinue? || cs[i].DoDisable?
  }

  lemma AddressesRelabelled(t: seq<Entry>, t': seq<Entry>)
    requires |t| == |t'| && forall i | 0 <= i < |t| :: t[i].address == t'[i].address
    ensures Addresses(t) == Addresses(t')
  {
  }

  lemma CommandLowersWeight(p: Program, systrace: bool, s: Session, c: Command, n: nat)
    requires Assumed(p) && Shows(p, s, n) && (c.DoContinue? || c.DoDisable?)
    ensures var s' := Perform(p.cpu, systrace, s, c);
      && Addresses(s'.table) == Addresses(s.table)
      && |s'.restored| + Budget(s') <= |s.restored| + Budget(s)
  {
    if c.DoContinue? { HitsLowerWeight(p, s, systrace, c.fuel, n); }
    AddressesRelabelled(s.table, Perform(p.cpu, systrace, s, c).table);
  }

  /** Until the next placement or deletion, however often execution is continued: hits so far plus the weight still
      planted never exceed the weight at the start, so there are at most 2^n - 1 hits. */
  lemma {:induction false} HitsUntilNextPlacement(p: Program, systrace: bool, s: Session, cs: seq<Command>, n: nat)
    requires Assumed(p) && Shows(p, s, n) && OnlyRuns(cs)
    ensures var s' := PerformAll(p.cpu, systrace, s, cs);
      && Addresses(s'.table) == Addresses(s.table)
      && |s'.restored| + Budget(s') <= |s.restored| + Budget(s)
      && |s'.restored| - |s.restored| <= Pow2(|Addresses(s.table)|) - 1
    decreases |cs|
  {
    WeightBelow(s.mem, Addresses(s.table));
    if cs != [] {
      CommandLowersWeight(p, systrace, s, cs[0], n);
      var n1 := PerformFollows(p, systrace, s, cs[0], n);
      HitsUntilNextPlacement(p, systrace, Perform(p.cpu, systrace, s, cs[0]), cs[1..], n1);
    }
  }
}
