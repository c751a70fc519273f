/** Deletion in any layout: it leaves the other breakpoints usable exactly when none of them has captured the int3
    of the deleted one. */
module Deletion {
  import opened Words
  import opened Machine
  import opened Sessions
  import opened Overlap
  import opened HitBound
  import opened Separation

  /** Where entry j of a table is once entry i has been erased. */
  function Shifted(i: nat, j: nat): nat
    requires i != j
  {
    if j < i then j else j - 1
  }

  /** No entry but i saved the int3 of entry i's address, unless other entries for that address remain; and if it
      is itself an entry for that address, one before it. The guard reads the table only. */
  ghost predicate NotCaptured(t: seq<Entry>, i: nat)
    requires i < |t|
  {
    forall j | 0 <= j < |t| && j != i && Captures(t, i, j) :: !Exposed(t, i, j)
  }

  /** Entry j saved the int3 of entry i's address. */
  ghost predicate Captures(t: seq<Entry>, i: nat, j: nat)
    requires i < |t| && j < |t|
  {
    var a := t[i].address;
    t[j].address <= a < t[j].address + 8 && SavedByte(t[j], a) == INT3
  }

  /** Once entry i is erased, its address is not listed any more, or entry j is what it is looked up as. */
  ghost predicate Exposed(t: seq<Entry>, i: nat, j: nat)
    requires i < |t| && j < |t| && i != j
  {
    var a, t' := t[i].address, Without(t, i);
    !Listed(t', a) || (t[j].address == a && FindAddress(t', a) == Shifted(i, j))
  }

  lemma FindErased(t: seq<Entry>, i: nat, x: int)
    requires i < |t| && Listed(t, x) && FindAddress(t, x) != i
    ensures FindAddress(Without(t, i), x) == Shifted(i, FindAddress(t, x)) && Listed(Without(t, i), x)
  {
    var f, g := FindAddress(t, x), FindAddress(Without(t, i), x);
    var t' := Without(t, i);
    assert t'[Shifted(i, f)] == t[f];
    if g < |t'| { assert t'[g] == t[if g < i then g else g + 1]; }
  }

  lemma ErasedSaved(orig: Memory, t: seq<Entry>, i: nat, j: nat)
    requires i < |t| && j < |t| && j != i && SavedSound(orig, t, j) && NotCaptured(t, i)
    ensures SavedSound(orig, Without(t, i), Shifted(i, j))
  {
    var t', j' := Without(t, i), Shifted(i, j);
    assert t'[j'] == t[j];
    forall x | t[j].address <= x < t[j].address + 8
      ensures SavedByte(t'[j'], x) == At(orig, x) || MaySave(t', j', x)
    {
      if SavedByte(t[j], x) != At(orig, x) {
        if x == t[i].address {
          assert Captures(t, i, j) && !Exposed(t, i, j);
          OwnPosition(t', j');
        } else {
          FindErased(t, i, x);
        }
      }
    }
  }

  lemma OwnPosition(t: seq<Entry>, j: nat)
    requires j < |t|
    ensures FindAddress(t, t[j].address) <= j
  {
  }

  lemma ErasedPatched(orig: Memory, m: Memory, t: seq<Entry>, i: nat, m': Memory)
    requires Patched(orig, m, t) && i < |t| && SavedSound(orig, t, i) && WrittenBack(m, t, i, m')
    ensures Patched(orig, m', Without(t, i))
  {
    var e, t' := t[i], Without(t, i);
    LooseTest(Peek(m, e.address));
    forall x | x in m' ensures m'[x] == orig[x] || (m'[x] == INT3 && Listed(t', x)) {
      if LooksPlanted(Peek(m, e.address)) && e.address <= x < e.address + 8 {
        assert m'[x] == SavedByte(e, x);
        if m'[x] != orig[x] { FindErased(t, i, x); }
      } else if x != e.address && m[x] != orig[x] {
        FindErased(t, i, x);
      }
    }
  }

  lemma ErasedPlaceable(p: Program, t: seq<Entry>, i: nat)
    requires ListedPlaceable(p, t) && i < |t|
    ensures ListedPlaceable(p, Without(t, i))
  {
  }

  lemma ErasedSound(p: Program, m: Memory, t: seq<Entry>, i: nat, m': Memory)
    requires Sound(p, m, t) && i < |t| && WrittenBack(m, t, i, m') && NotCaptured(t, i)
    ensures Sound(p, m', Without(t, i))
  {
    ErasedPatched(p.orig, m, t, i, m');
    ErasedPlaceable(p, t, i);
    ErasedAllSaved(p.orig, t, i);
  }

  lemma ErasedAllSaved(orig: Memory, t: seq<Entry>, i: nat)
    requires i < |t| && NotCaptured(t, i) && forall j | 0 <= j < |t| :: SavedSound(orig, t, j)
    ensures forall j | 0 <= j < |Without(t, i)| :: SavedSound(orig, Without(t, i), j)
  {
    forall j' | 0 <= j' < |Without(t, i)| ensures SavedSound(orig, Without(t, i), j') {
      ErasedSaved(orig, t, i, if j' < i then j' else j' + 1);
    }
  }

  /** Deleting entry i keeps the invariant if and only if nobody has captured its int3. */
  lemma ErasedSoundIff(p: Program, m: Memory, t: seq<Entry>, i: nat, m': Memory)
    requires Sound(p, m, t) && i < |t| && WrittenBack(m, t, i, m')
    ensures Sound(p, m', Without(t, i)) <==> NotCaptured(t, i)
  {
    if NotCaptured(t, i) {
      ErasedSound(p, m, t, i, m');
    } else if Sound(p, m', Without(t, i)) {
      SoundNotCaptured(p, t, i);
    }
  }

  lemma SoundNotCaptured(p: Program, t: seq<Entry>, i: nat)
    requires i < |t| && Placeable(p, t[i].address)
    requires forall j | 0 <= j < |Without(t, i)| :: SavedSound(p.orig, Without(t, i), j)
    ensures NotCaptured(t, i)
  {
    var a, t' := t[i].address, Without(t, i);
    forall j | 0 <= j < |t| && j != i && Captures(t, i, j) ensures !Exposed(t, i, j) {
      assert t'[Shifted(i, j)] == t[j] && SavedSound(p.orig, t', Shifted(i, j));
      assert SavedByte(t'[Shifted(i, j)], a) == INT3;
    }
  }

  // ---------- what capture leads to ----------

  /** Restoring entry j leaves int3 where the program has another byte and nothing is listed, or at the very address
      that is restored. */
  ghost predicate Spoils(cpu: Cpu, orig: Memory, s: Session, j: nat)
    requires j < |s.table|
  {
    var e := s.table[j];
    var s' := Restore(cpu, s, e.origdata, e.address).0;
    exists x | x in s'.mem && s'.mem[x] == INT3 != At(orig, x) ::
      !Listed(s.table, x) || (x == e.address && FindAddress(s.table, x) == j)
  }

  lemma SoundSpoilsNothing(cpu: Cpu, p: Program, s: Session, j: nat)
    requires Patched(p.orig, s.mem, s.table) && j < |s.table| && SavedSound(p.orig, s.table, j)
    requires s.proc.Alive? && Mapped(s.mem, s.table[j].address)
    ensures !Spoils(cpu, p.orig, s, j)
  {
    var e := s.table[j];
    RestoreIs(cpu, s, e.origdata, e.address);
    forall x | x in s.mem && Poke(s.mem, e.address, e.origdata)[x] == INT3 != At(p.orig, x)
      ensures Listed(s.table, x) && (x == e.address ==> FindAddress(s.table, x) != j)
    {
      if e.address <= x < e.address + 8 { assert SavedByte(e, x) == INT3; }
    }
  }

  /** A capture comes back: entry j, the one that captured, spoils the session in which entry i has been erased. */
  lemma CapturedComesBack(cpu: Cpu, p: Program, s: Session, t: seq<Entry>, i: nat, j: nat)
    requires i < |t| && j < |t| && j != i && Captures(t, i, j) && Exposed(t, i, j) && s.table == Without(t, i)
    requires s.proc.Alive? && Mapped(s.mem, t[j].address) && At(p.orig, t[i].address) != INT3
    ensures Spoils(cpu, p.orig, s, Shifted(i, j))
    ensures var e := t[j]; Restore(cpu, s, e.origdata, e.address).0.mem[t[i].address] == INT3
  {
    var e := t[j];
    assert s.table[Shifted(i, j)] == e;
    RestoreIs(cpu, s, e.origdata, e.address);
    assert Poke(s.mem, e.address, e.origdata)[t[i].address] == SavedByte(e, t[i].address);
  }

  lemma UncapturedSpoilsNothing(p: Program, t: seq<Entry>, i: nat, m: Memory, s': Session)
    requires Sound(p, m, t) && i < |t| && WrittenBack(m, t, i, s'.mem) && s'.table == Without(t, i) && s'.proc.Alive?
    requires NotCaptured(t, i)
    ensures forall j | 0 <= j < |s'.table| :: !Spoils(p.cpu, p.orig, s', j)
  {
    ErasedSound(p, m, t, i, s'.mem);
    forall j | 0 <= j < |s'.table| ensures !Spoils(p.cpu, p.orig, s', j) {
      SoundSpoilsNothing(p.cpu, p, s', j);
    }
  }

  lemma CapturedSpoils(p: Program, t: seq<Entry>, i: nat, s': Session) returns (j': nat)
    requires i < |t| && !NotCaptured(t, i) && Placeable(p, t[i].address) && s'.table == Without(t, i) && s'.proc.Alive?
    requires forall j | 0 <= j < |t| :: Mapped(s'.mem, t[j].address)
    ensures j' < |s'.table| && Spoils(p.cpu, p.orig, s', j')
  {
    var j :| 0 <= j < |t| && j != i && Captures(t, i, j) && Exposed(t, i, j);
    CapturedComesBack(p.cpu, p, s', t, i, j);
    j' := Shifted(i, j);
  }

  lemma OnlyLiveRemovals(s: Session, number: int)
    requires Remove(s, number).0 != s
    ensures s.proc.Alive?
  {
    FailedPeekLooksPlanted();
  }

  /** A deletion leaves every other breakpoint restorable if and only if none of them captured the deleted one. */
  lemma DeletionSpoilsIff(p: Program, s: Session, number: int)
    requires Sound(p, s.mem, s.table) && Remove(s, number).0 != s
    ensures var i, s' := FindNumber(s.table, number), Remove(s, number).0;
      && i < |s.table| && s'.proc.Alive?
      && (NotCaptured(s.table, i) <==> forall j | 0 <= j < |s'.table| :: !Spoils(p.cpu, p.orig, s', j))
  {
    RemoveWritesBack(s, number);
    OnlyLiveRemovals(s, number);
    var i, s' := FindNumber(s.table, number), Remove(s, number).0;
    if NotCaptured(s.table, i) {
      UncapturedSpoilsNothing(p, s.table, i, s.mem, s');
    } else {
      var j := CapturedSpoils(p, s.table, i, s');
    }
  }

  // ---------- two ways to delete safely ----------

  /** Entries saved original bytes, except for the int3 of entries before them. Placements keep this; deletions
      need not. */
  ghost predicate Ordered(orig: Memory, t: seq<Entry>) {
    forall i, x | 0 <= i < |t| && t[i].address <= x < t[i].address + 8 ::
      SavedByte(t[i], x) == At(orig, x) || FindAddress(t, x) < i
  }

  lemma PlaceOrdered(orig: Memory, m: Memory, t: seq<Entry>, e: Entry)
    requires Ordered(orig, t) && Patched(orig, m, t) && Mapped(m, e.address) && e.origdata == Peek(m, e.address)
    ensures Ordered(orig, t + [e])
  {
    var t' := t + [e];
    forall i, x | 0 <= i < |t'| && t'[i].address <= x < t'[i].address + 8
      ensures SavedByte(t'[i], x) == At(orig, x) || FindAddress(t', x) < i
    {
      FindAppended(t, e, x);
      if i < |t| { assert t'[i] == t[i]; } else { assert SavedByte(e, x) == m[x]; }
    }
  }

  lemma RelabelledOrdered(orig: Memory, t: seq<Entry>, t': seq<Entry>)
    requires Ordered(orig, t) && Relabelled(t, t')
    ensures Ordered(orig, t')
  {
    forall i, x | 0 <= i < |t'| && t'[i].address <= x < t'[i].address + 8
      ensures SavedByte(t'[i], x) == At(orig, x) || FindAddress(t', x) < i
    {
      FindRelabelled(t, t', x);
      assert SavedByte(t'[i], x) == SavedByte(t[i], x);
    }
  }

  lemma LastErasedOrdered(orig: Memory, t: seq<Entry>)
    requires Ordered(orig, t) && t != []
    ensures Ordered(orig, Without(t, |t| - 1))
  {
    var t' := Without(t, |t| - 1);
    forall i, x | 0 <= i < |t'| && t'[i].address <= x < t'[i].address + 8
      ensures SavedByte(t'[i], x) == At(orig, x) || FindAddress(t', x) < i
    {
      assert t'[i] == t[i];
      if SavedByte(t[i], x) != At(orig, x) { FindErased(t, |t| - 1, x); }
    }
  }

  /** Last in, first out is safe: nothing placed before the newest entry can have captured it. */
  lemma LastNotCaptured(orig: Memory, t: seq<Entry>)
    requires Ordered(orig, t) && t != [] && At(orig, t[|t| - 1].address) != INT3
    ensures NotCaptured(t, |t| - 1)
  {
    var i := |t| - 1;
    var a := t[i].address;
    forall j | 0 <= j < |t| && j != i && Captures(t, i, j) ensures !Exposed(t, i, j) {
      assert FindAddress(t, a) < j;
      FindErased(t, i, a);
    }
  }

  /** Breakpoints a word apart are safe to delete in any order. */
  lemma ApartNotCaptured(t: seq<Entry>, i: nat)
    requires Apart(t) && i < |t|
    ensures NotCaptured(t, i)
  {
  }

  /** An effective deletion keeps the invariant if and only if the guard holds. */
  lemma RemoveSoundIff(p: Program, s: Session, number: int)
    requires Sound(p, s.mem, s.table) && Remove(s, number).0 != s
    ensures var i, s' := FindNumber(s.table, number), Remove(s, number).0;
      i < |s.table| && s'.proc == s.proc && (Sound(p, s'.mem, s'.table) <==> NotCaptured(s.table, i))
  {
    RemoveWritesBack(s, number);
    ErasedSoundIff(p, s.mem, s.table, FindNumber(s.table, number), Remove(s, number).0.mem);
  }
}
