/** Which symbols the loader lists, read off the files alone: one entry for each function symbol with a value, file
    by file, section by section and table entry by table entry. */
module Listing {
  import opened Libraries
  import opened Sequences

  /** A symbol of a file of the search list. */
  datatype Place = Place(file: nat, section: nat, index: nat)

  ghost predicate Before(a: Place, b: Place) {
    || a.file < b.file
    || (a.file == b.file && (a.section < b.section || (a.section == b.section && a.index < b.index)))
  }

  /** There is a symbol at a place, in a file that can be loaded. */
  ghost predicate IsSymbol(fs: Files, list: seq<Path>, at: Place) {
    && at.file < |list| && list[at.file] in fs
    && var f := fs[list[at.file]];
      && f.Shared? && f.length > 0 && at.section < |f.sections| && f.sections[at.section].SymTab?
      && at.index < |f.sections[at.section].syms|
  }

  function SymbolAt(fs: Files, list: seq<Path>, at: Place): Sym
    requires IsSymbol(fs, list, at)
  {
    fs[list[at.file]].sections[at.section].syms[at.index]
  }

  /** It is a function with a value. */
  ghost predicate Taken(fs: Files, list: seq<Path>, at: Place) {
    IsSymbol(fs, list, at) && var s := SymbolAt(fs, list, at); s.isFunc && s.value != 0
  }

  /** ps are the places before a limit that are taken, in order and none twice, and the entries are what is there. */
  ghost predicate ListsUpTo(fs: Files, base: nat, list: seq<Path>, limit: Place, entries: seq<Syminfo>,
                            ps: seq<Place>) {
    && |entries| == |ps|
    && (forall i, j | 0 <= i < j < |ps| :: Before(ps[i], ps[j]))
    && (forall i | 0 <= i < |ps| :: Taken(fs, list, ps[i]) && Before(ps[i], limit))
    && (forall at | Taken(fs, list, at) && Before(at, limit) :: Occurs(ps, at))
    && forall i | 0 <= i < |ps| ::
      var s := SymbolAt(fs, list, ps[i]);
      entries[i] == Syminfo((base + s.value) % 0x1_0000_0000_0000_0000, s.name)
  }

  /** The entries list the function symbols with a value of all files of the list. */
  ghost predicate Lists(fs: Files, base: nat, list: seq<Path>, entries: seq<Syminfo>) {
    exists ps :: ListsUpTo(fs, base, list, Place(|list|, 0, 0), entries, ps)
  }

  // ---------- moving the limit ----------

  /** Nothing is taken between two limits. */
  lemma SkipTo(fs: Files, base: nat, list: seq<Path>, a: Place, b: Place, entries: seq<Syminfo>, ps: seq<Place>)
    requires ListsUpTo(fs, base, list, a, entries, ps)
    requires forall at | Before(at, a) :: Before(at, b)
    requires forall at | Taken(fs, list, at) && Before(at, b) :: Before(at, a)
    ensures ListsUpTo(fs, base, list, b, entries, ps)
  {
  }

  /** The entry of one symbol, if it is taken. */
  function EntryOf(base: nat, s: Sym): seq<Syminfo> {
    if s.isFunc && s.value != 0 then [Syminfo((base + s.value) % 0x1_0000_0000_0000_0000, s.name)] else []
  }

  lemma TakenOccurs(fs: Files, list: seq<Path>, at: Place, next: Place, ps: seq<Place>)
    requires next == at.(index := at.index + 1)
    requires forall p | Taken(fs, list, p) && Before(p, at) :: Occurs(ps, p)
    ensures forall p | Taken(fs, list, p) && Before(p, next) :: Occurs(ps + [at], p)
  {
    var ps' := ps + [at];
    forall p | Taken(fs, list, p) && Before(p, next) ensures Occurs(ps', p) {
      if p == at {
        assert ps'[|ps|] == at;
      } else {
        assert Occurs(ps, p);
        var k :| 0 <= k < |ps| && ps[k] == p;
        assert ps'[k] == p;
      }
    }
  }

  lemma TakenSymbol(fs: Files, base: nat, list: seq<Path>, at: Place, next: Place,
                    entries: seq<Syminfo>, ps: seq<Place>)
    requires ListsUpTo(fs, base, list, at, entries, ps) && Taken(fs, list, at)
    requires next == at.(index := at.index + 1)
    ensures ListsUpTo(fs, base, list, next, entries + EntryOf(base, SymbolAt(fs, list, at)), ps + [at])
  {
    TakenOccurs(fs, list, at, next, ps);
  }

  /** Past one symbol. */
  lemma OneSymbol(fs: Files, base: nat, list: seq<Path>, at: Place, next: Place,
                  entries: seq<Syminfo>, ps: seq<Place>) returns (ps': seq<Place>)
    requires ListsUpTo(fs, base, list, at, entries, ps) && IsSymbol(fs, list, at)
    requires next == at.(index := at.index + 1)
    ensures ListsUpTo(fs, base, list, next, entries + EntryOf(base, SymbolAt(fs, list, at)), ps')
  {
    if Taken(fs, list, at) {
      ps' := ps + [at];
      TakenSymbol(fs, base, list, at, next, entries, ps);
    } else {
      ps' := ps;
      assert entries + [] == entries;
      SkipTo(fs, base, list, at, next, entries, ps);
    }
  }

  lemma FunctionsOneMore(base: nat, syms: seq<Sym>, n: nat, entries: seq<Syminfo>)
    requires 0 < n <= |syms|
    ensures entries + FunctionsOf(base, syms, n) ==
      (entries + FunctionsOf(base, syms, n - 1)) + EntryOf(base, syms[n - 1])
  {
  }

  /** Past the first n symbols of a table. */
  lemma {:induction false} OneTable(fs: Files, base: nat, list: seq<Path>, f: nat, i: nat, n: nat,
                                    entries: seq<Syminfo>, ps: seq<Place>) returns (ps': seq<Place>)
    requires f < |list| && Loads(fs, list[f]) && i < |fs[list[f]].sections| && fs[list[f]].sections[i].SymTab?
    requires n <= |fs[list[f]].sections[i].syms|
    requires ListsUpTo(fs, base, list, Place(f, i, 0), entries, ps)
    ensures var syms := fs[list[f]].sections[i].syms;
      ListsUpTo(fs, base, list, Place(f, i, n), entries + FunctionsOf(base, syms, n), ps')
  {
    var syms := fs[list[f]].sections[i].syms;
    if n == 0 {
      ps' := ps;
      assert entries + [] == entries;
    } else {
      var ps1 := OneTable(fs, base, list, f, i, n - 1, entries, ps);
      var before := entries + FunctionsOf(base, syms, n - 1);
      ps' := OneSymbol(fs, base, list, Place(f, i, n - 1), Place(f, i, n), before, ps1);
      FunctionsOneMore(base, syms, n, entries);
    }
  }

  /** Past the first n sections of a file. */
  lemma {:induction false} OneFile(fs: Files, base: nat, list: seq<Path>, f: nat, n: nat,
                                   entries: seq<Syminfo>, ps: seq<Place>) returns (ps': seq<Place>)
    requires f < |list| && Loads(fs, list[f]) && n <= |fs[list[f]].sections|
    requires ListsUpTo(fs, base, list, Place(f, 0, 0), entries, ps)
    ensures ListsUpTo(fs, base, list, Place(f, n, 0), entries + SymbolsIn(base, fs[list[f]].sections, n), ps')
  {
    var sections := fs[list[f]].sections;
    ps' := ps;
    if n == 0 {
      assert entries + [] == entries;
    } else {
      ps' := OneFile(fs, base, list, f, n - 1, entries, ps);
      var before := entries + SymbolsIn(base, sections, n - 1);
      var at := Place(f, n - 1, 0);
      if sections[n - 1].SymTab? {
        var syms := sections[n - 1].syms;
        ps' := OneTable(fs, base, list, f, n - 1, |syms|, before, ps');
        at := Place(f, n - 1, |syms|);
        AppendAssociates(entries, SymbolsIn(base, sections, n - 1), FunctionsOf(base, syms, |syms|));
      }
      SkipTo(fs, base, list, at, Place(f, n, 0), entries + SymbolsIn(base, sections, n), ps');
    }
  }

  /** Past the first n files. */
  lemma {:induction false} AllFiles(fs: Files, base: nat, list: seq<Path>, n: nat) returns (ps: seq<Place>)
    requires n <= |list|
    ensures ListsUpTo(fs, base, list, Place(n, 0, 0), SymbolsOf(fs, base, list[..n]), ps)
  {
    ps := [];
    if n > 0 {
      ps := AllFiles(fs, base, list, n - 1);
      var before, p := SymbolsOf(fs, base, list[..n - 1]), list[n - 1];
      OneMoreFile(fs, base, list, n);
      var at := Place(n - 1, 0, 0);
      if Loads(fs, p) {
        ps := OneFile(fs, base, list, n - 1, |fs[p].sections|, before, ps);
        at := Place(n - 1, |fs[p].sections|, 0);
      }
      SkipTo(fs, base, list, at, Place(n, 0, 0), SymbolsOf(fs, base, list[..n]), ps);
    }
  }

  lemma OneMoreFile(fs: Files, base: nat, list: seq<Path>, n: nat)
    requires 0 < n <= |list|
    ensures SymbolsOf(fs, base, list[..n]) == SymbolsOf(fs, base, list[..n - 1]) + FileSymbols(fs, base, list[n - 1])
  {
    var p := list[n - 1];
    assert list[..n] == list[..n - 1] + [p];
    SymbolsConcat(fs, base, list[..n - 1], [p]);
    assert [p][1..] == [];
    assert SymbolsOf(fs, base, [p]) == FileSymbols(fs, base, p) + SymbolsOf(fs, base, []);
  }

  /** The symbols of a list of files, in order and each as often as it is there. */
  lemma SymbolsListed(fs: Files, base: nat, list: seq<Path>)
    ensures Lists(fs, base, list, SymbolsOf(fs, base, list))
  {
    var ps := AllFiles(fs, base, list, |list|);
    assert list[..|list|] == list;
  }

  /** A file that can be loaded has an entry among its function symbols with a value. */
  ghost predicate Offers(fs: Files, base: nat, q: Path, e: Syminfo) {
    q in fs && fs[q].Shared? && fs[q].length > 0 && InTables(base, fs[q].sections, |fs[q].sections|, e)
  }

  lemma ListedIsOffered(fs: Files, base: nat, list: seq<Path>, limit: Place, entries: seq<Syminfo>, ps: seq<Place>,
                        k: nat)
    requires ListsUpTo(fs, base, list, limit, entries, ps) && k < |entries|
    ensures ps[k].file < |list| && Offers(fs, base, list[ps[k].file], entries[k])
  {
    var at := ps[k];
    var sections := fs[list[at.file]].sections;
    assert NamesFunction(base, sections[at.section].syms[at.index], entries[k]);
  }

  lemma OfferedIsListed(fs: Files, base: nat, list: seq<Path>, entries: seq<Syminfo>, ps: seq<Place>,
                        f: nat, e: Syminfo)
    requires ListsUpTo(fs, base, list, Place(|list|, 0, 0), entries, ps) && f < |list| && Offers(fs, base, list[f], e)
    ensures e in entries
  {
    var sections := fs[list[f]].sections;
    var i, j :| 0 <= i < |sections| && sections[i].SymTab? && 0 <= j < |sections[i].syms|
                && NamesFunction(base, sections[i].syms[j], e);
    var at := Place(f, i, j);
    assert Taken(fs, list, at) && Occurs(ps, at);
    var k :| 0 <= k < |ps| && ps[k] == at;
    assert entries[k] == e;
  }

  /** The entries are those that some file of the list offers. */
  ghost predicate ListsOffered(fs: Files, base: nat, list: seq<Path>, entries: seq<Syminfo>) {
    forall e :: e in entries <==> exists f | 0 <= f < |list| :: Offers(fs, base, list[f], e)
  }

  lemma AllListed(fs: Files, base: nat, list: seq<Path>, entries: seq<Syminfo>)
    requires Lists(fs, base, list, entries)
    ensures ListsOffered(fs, base, list, entries)
  {
    forall e ensures e in entries <==> exists f | 0 <= f < |list| :: Offers(fs, base, list[f], e) {
      ListedIff(fs, base, list, entries, e);
    }
  }

  /** An entry is listed if and only if some file of the list offers it. */
  lemma ListedIff(fs: Files, base: nat, list: seq<Path>, entries: seq<Syminfo>, e: Syminfo)
    requires Lists(fs, base, list, entries)
    ensures e in entries <==> exists f | 0 <= f < |list| :: Offers(fs, base, list[f], e)
  {
    var ps: seq<Place> :| ListsUpTo(fs, base, list, Place(|list|, 0, 0), entries, ps);
    if e in entries {
      var k :| 0 <= k < |entries| && entries[k] == e;
      ListedIsOffered(fs, base, list, Place(|list|, 0, 0), entries, ps, k);
    }
    if f :| 0 <= f < |list| && Offers(fs, base, list[f], e) {
      OfferedIsListed(fs, base, list, entries, ps, f, e);
    }
  }
}
