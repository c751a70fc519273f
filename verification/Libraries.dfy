/** ELF files, their dependencies, and the walk of the symbol loader over them. */
module Libraries {
  import opened Sequences

  type Path = string

  datatype Option<T> = None | Some(value: T)

  /** Entries of a dynamic section, their strings looked up. */
  datatype Dyn = RunPath(dir: string) | RPath(dir: string) | Needed(name: string) | OtherTag

  datatype Sym = Sym(isFunc: bool, value: nat, name: string)

  datatype Section = SymTab(syms: seq<Sym>) | Dynamic(entries: seq<Dyn>) | OtherSection

  /** A file that can be opened: a shared object, or something that LoadFile turns down. */
  datatype File = Shared(length: nat, sections: seq<Section>) | Rejected(length: nat)

  type Files = map<Path, File>

  /** An empty file cannot be mapped. */
  predicate Loads(fs: Files, p: Path) {
    p in fs && fs[p].Shared? && fs[p].length > 0
  }

  // ---------- one file ----------

  /** What ParseDynamic gathers before it opens anything. */
  datatype Found = Found(libPath: Option<string>, isRunPath: bool, needed: seq<string>)

  function Note(f: Found, e: Dyn): Found {
    match e
    case RunPath(dir) => f.(libPath := Some(dir), isRunPath := true)
    case RPath(dir) => if f.isRunPath then f else f.(libPath := Some(dir))
    case Needed(name) => f.(needed := f.needed + [name])
    case OtherTag => f
  }

  /** After the first n entries. */
  function NoteEntries(f: Found, entries: seq<Dyn>, n: nat): Found
    requires n <= |entries|
  {
    if n == 0 then f else Note(NoteEntries(f, entries, n - 1), entries[n - 1])
  }

  /** After the first n sections. */
  function NoteSections(sections: seq<Section>, n: nat): Found
    requires n <= |sections|
  {
    if n == 0 then Found(None, false, [])
    else
      var f := NoteSections(sections, n - 1);
      match sections[n - 1]
      case Dynamic(entries) => NoteEntries(f, entries, |entries|)
      case _ => f
  }

  /** The path that a needed name is looked for at; the directory is used as it stands, without a slash. */
  function Resolve(libPath: Option<string>, name: string): Path {
    match libPath
    case Some(dir) => dir + name
    case None => "/lib/" + name
  }

  function ResolveAll(f: Found): (ps: seq<Path>)
    ensures |ps| == |f.needed| && forall i | 0 <= i < |ps| :: ps[i] == Resolve(f.libPath, f.needed[i])
  {
    seq(|f.needed|, i requires 0 <= i < |f.needed| => Resolve(f.libPath, f.needed[i]))
  }

  /** The dependencies of a file, in order; none if it does not load. */
  function Deps(fs: Files, p: Path): seq<Path> {
    if Loads(fs, p) then ResolveAll(NoteSections(fs[p].sections, |fs[p].sections|)) else []
  }

  datatype Syminfo = Syminfo(address: nat, symbol: string)

  /** The functions with a value among the first n symbols, shifted by the base address. */
  function FunctionsOf(base: nat, syms: seq<Sym>, n: nat): seq<Syminfo>
    requires n <= |syms|
  {
    if n == 0 then []
    else
      var rest, s := FunctionsOf(base, syms, n - 1), syms[n - 1];
      if s.isFunc && s.value != 0 then rest + [Syminfo((base + s.value) % 0x1_0000_0000_0000_0000, s.name)] else rest
  }

  function SymbolsIn(base: nat, sections: seq<Section>, n: nat): seq<Syminfo>
    requires n <= |sections|
  {
    if n == 0 then []
    else
      var rest := SymbolsIn(base, sections, n - 1);
      match sections[n - 1]
      case SymTab(syms) => rest + FunctionsOf(base, syms, |syms|)
      case _ => rest
  }

  /** Entry e is the address and name of a function symbol with a value. */
  predicate NamesFunction(base: nat, s: Sym, e: Syminfo) {
    s.isFunc && s.value != 0 && e == Syminfo((base + s.value) % 0x1_0000_0000_0000_0000, s.name)
  }

  /** Of a symbol table exactly the functions with a value are taken. */
  lemma {:induction false} FunctionsTaken(base: nat, syms: seq<Sym>, n: nat, e: Syminfo)
    requires n <= |syms|
    ensures e in FunctionsOf(base, syms, n) <==> exists j | 0 <= j < n :: NamesFunction(base, syms[j], e)
  {
    if n > 0 { FunctionsTaken(base, syms, n - 1, e); }
  }

  /** The symbol is in one of the first n sections. */
  ghost predicate InTables(base: nat, sections: seq<Section>, n: nat, e: Syminfo)
    requires n <= |sections|
  {
    exists i, j | 0 <= i < n && sections[i].SymTab? && 0 <= j < |sections[i].syms| ::
      NamesFunction(base, sections[i].syms[j], e)
  }

  /** Of a file exactly the functions with a value in its symbol tables are taken. */
  lemma {:induction false} SymbolsTaken(base: nat, sections: seq<Section>, n: nat, e: Syminfo)
    requires n <= |sections|
    ensures e in SymbolsIn(base, sections, n) <==> InTables(base, sections, n, e)
  {
    if n > 0 {
      SymbolsTaken(base, sections, n - 1, e);
      if sections[n - 1].SymTab? { FunctionsTaken(base, sections[n - 1].syms, |sections[n - 1].syms|, e); }
    }
  }

  function FileSymbols(fs: Files, base: nat, p: Path): seq<Syminfo> {
    if Loads(fs, p) then SymbolsIn(base, fs[p].sections, |fs[p].sections|) else []
  }

  /** The symbols of a list of files, in the order of the list. */
  function SymbolsOf(fs: Files, base: nat, ps: seq<Path>): seq<Syminfo> {
    if ps == [] then [] else FileSymbols(fs, base, ps[0]) + SymbolsOf(fs, base, ps[1..])
  }

  /** Some file of the list does not load. */
  predicate AnyFails(fs: Files, ps: seq<Path>) {
    exists i | 0 <= i < |ps| :: !Loads(fs, ps[i])
  }

  // ---------- the walk ----------

  /** The search list after OpenFile has been called on p, the path pushed last; None when the recursion does not fit
      into d nested calls. SearchForPath is meant to compare texts, but compares pointers to fresh buffers, so that as
      written no path is ever found in the list. */
  function Visit(fs: Files, byText: bool, d: nat, p: Path, list: seq<Path>): Option<seq<Path>>
    decreases d, 1, 0
  {
    if d == 0 then None else VisitAll(fs, byText, d - 1, Deps(fs, p), list)
  }

  /** The search list after the loop of ParseDynamic over the given dependencies. */
  function VisitAll(fs: Files, byText: bool, d: nat, deps: seq<Path>, list: seq<Path>): Option<seq<Path>>
    decreases d, 2, |deps|
  {
    if deps == [] then Some(list)
    else if byText && deps[0] in list then VisitAll(fs, byText, d, deps[1..], list)
    else
      match Visit(fs, byText, d, deps[0], list + [deps[0]])
      case None => None
      case Some(list') => VisitAll(fs, byText, d, deps[1..], list')
  }

  lemma SymbolsConcat(fs: Files, base: nat, a: seq<Path>, b: seq<Path>)
    ensures SymbolsOf(fs, base, a + b) == SymbolsOf(fs, base, a) + SymbolsOf(fs, base, b)
  {
    if a == [] {
      assert a + b == b;
    } else {
      assert (a + b)[1..] == a[1..] + b;
      SymbolsConcat(fs, base, a[1..], b);
    }
  }

  /** The list only grows at its end. */
  lemma {:induction false} VisitExtends(fs: Files, byText: bool, d: nat, p: Path, list: seq<Path>)
    requires Visit(fs, byText, d, p, list).Some?
    ensures list <= Visit(fs, byText, d, p, list).value
    decreases d, 1, 0
  {
    VisitAllExtends(fs, byText, d - 1, Deps(fs, p), list);
  }

  lemma {:induction false} VisitAllExtends(fs: Files, byText: bool, d: nat, deps: seq<Path>, list: seq<Path>)
    requires VisitAll(fs, byText, d, deps, list).Some?
    ensures list <= VisitAll(fs, byText, d, deps, list).value
    decreases d, 2, |deps|
  {
    if deps != [] {
      if byText && deps[0] in list {
        VisitAllExtends(fs, byText, d, deps[1..], list);
      } else {
        VisitExtends(fs, byText, d, deps[0], list + [deps[0]]);
        VisitAllExtends(fs, byText, d, deps[1..], Visit(fs, byText, d, deps[0], list + [deps[0]]).value);
      }
    }
  }

  // ---------- the search path of a file ----------

  /** Entry k is the last DT_RUNPATH of the first n entries. */
  predicate LastRunPath(entries: seq<Dyn>, n: nat, k: nat)
    requires n <= |entries|
  {
    k < n && entries[k].RunPath? && forall j | k < j < n :: !entries[j].RunPath?
  }

  /** Entry k is the last DT_RPATH of the first n entries. */
  predicate LastRPath(entries: seq<Dyn>, n: nat, k: nat)
    requires n <= |entries|
  {
    k < n && entries[k].RPath? && forall j | k < j < n :: !entries[j].RPath?
  }

  lemma {:induction false} RunPathNoted(entries: seq<Dyn>, n: nat)
    requires n <= |entries|
    ensures NoteEntries(Found(None, false, []), entries, n).isRunPath <==> exists k | 0 <= k < n :: entries[k].RunPath?
  {
    if n > 0 { RunPathNoted(entries, n - 1); }
  }

  lemma {:induction false} PathAmong(entries: seq<Dyn>, n: nat, k: nat)
    requires n <= |entries|
    requires LastRunPath(entries, n, k) || (LastRPath(entries, n, k) && forall j | 0 <= j < n :: !entries[j].RunPath?)
    ensures NoteEntries(Found(None, false, []), entries, n).libPath == Some(entries[k].dir)
  {
    RunPathNoted(entries, n - 1);
    if k < n - 1 { PathAmong(entries, n - 1, k); }
  }

  lemma {:induction false} NoPathAmong(entries: seq<Dyn>, n: nat)
    requires n <= |entries| && forall k | 0 <= k < n :: !entries[k].RunPath? && !entries[k].RPath?
    ensures NoteEntries(Found(None, false, []), entries, n).libPath.None?
  {
    if n > 0 { NoPathAmong(entries, n - 1); }
  }

  /** The entries of all dynamic sections among the first n, in order. */
  function DynamicEntries(sections: seq<Section>, n: nat): seq<Dyn>
    requires n <= |sections|
  {
    if n == 0 then []
    else
      var rest := DynamicEntries(sections, n - 1);
      match sections[n - 1]
      case Dynamic(entries) => rest + entries
      case _ => rest
  }

  lemma {:induction false} NotePrefix(f: Found, a: seq<Dyn>, b: seq<Dyn>, n: nat)
    requires n <= |a|
    ensures NoteEntries(f, a + b, n) == NoteEntries(f, a, n)
  {
    if n > 0 { NotePrefix(f, a, b, n - 1); }
  }

  lemma {:induction false} NoteConcat(f: Found, a: seq<Dyn>, b: seq<Dyn>, n: nat)
    requires n <= |b|
    ensures NoteEntries(f, a + b, |a| + n) == NoteEntries(NoteEntries(f, a, |a|), b, n)
  {
    if n == 0 {
      NotePrefix(f, a, b, |a|);
    } else {
      NoteConcat(f, a, b, n - 1);
      assert (a + b)[|a| + n - 1] == b[n - 1];
    }
  }

  /** What is gathered section by section is what the entries of all dynamic sections say together. */
  lemma {:induction false} NotedTogether(sections: seq<Section>, n: nat)
    requires n <= |sections|
    ensures var entries := DynamicEntries(sections, n);
      NoteSections(sections, n) == NoteEntries(Found(None, false, []), entries, |entries|)
  {
    if n > 0 {
      NotedTogether(sections, n - 1);
      if sections[n - 1].Dynamic? {
        var a, b := DynamicEntries(sections, n - 1), sections[n - 1].entries;
        NoteConcat(Found(None, false, []), a, b, |b|);
      }
    }
  }

  /** DT_RUNPATH beats DT_RPATH wherever in the file the two stand, and the last of a kind counts. */
  lemma RunPathWins(sections: seq<Section>, k: nat)
    requires var entries := DynamicEntries(sections, |sections|);
      || LastRunPath(entries, |entries|, k)
      || (LastRPath(entries, |entries|, k) && forall j | 0 <= j < |entries| :: !entries[j].RunPath?)
    ensures NoteSections(sections, |sections|).libPath == Some(DynamicEntries(sections, |sections|)[k].dir)
  {
    var entries := DynamicEntries(sections, |sections|);
    NotedTogether(sections, |sections|);
    PathAmong(entries, |entries|, k);
  }

  lemma NoPathNoted(sections: seq<Section>)
    requires forall e | e in DynamicEntries(sections, |sections|) :: !e.RunPath? && !e.RPath?
    ensures NoteSections(sections, |sections|).libPath.None?
  {
    var entries := DynamicEntries(sections, |sections|);
    NotedTogether(sections, |sections|);
    NoPathAmong(entries, |entries|);
  }

  // ---------- the dependencies of a file ----------

  /** The indices of the DT_NEEDED entries among the first n, in order. */
  ghost predicate NeededAt(entries: seq<Dyn>, n: nat, ks: seq<nat>)
    requires n <= |entries|
  {
    && (forall i, j | 0 <= i < j < |ks| :: ks[i] < ks[j])
    && (forall i | 0 <= i < |ks| :: ks[i] < n && entries[ks[i]].Needed?)
    && (forall k: nat | k < n && entries[k].Needed? :: Occurs(ks, k))
  }

  lemma NeededOneMore(entries: seq<Dyn>, n: nat, ks: seq<nat>, ks': seq<nat>)
    requires 0 < n <= |entries| && NeededAt(entries, n - 1, ks)
    requires ks' == if entries[n - 1].Needed? then ks + [n - 1] else ks
    ensures NeededAt(entries, n, ks')
  {
    forall k: nat | k < n && entries[k].Needed? ensures Occurs(ks', k) {
      if k < n - 1 {
        assert Occurs(ks, k);
        var i :| 0 <= i < |ks| && ks[i] == k;
        assert ks'[i] == k;
      } else {
        assert ks'[|ks|] == k;
      }
    }
  }

  /** The names in the entries at the given indices. */
  ghost predicate NamesAt(entries: seq<Dyn>, ks: seq<nat>, names: seq<string>) {
    && |names| == |ks|
    && forall i | 0 <= i < |ks| :: ks[i] < |entries| && entries[ks[i]] == Needed(names[i])
  }

  lemma NamesOneMore(entries: seq<Dyn>, ks: seq<nat>, names: seq<string>, k: nat, name: string)
    requires NamesAt(entries, ks, names) && k < |entries| && entries[k] == Needed(name)
    ensures NamesAt(entries, ks + [k], names + [name])
  {
  }

  lemma NeededNext(entries: seq<Dyn>, n: nat, ks: seq<nat>, names: seq<string>, ks': seq<nat>, names': seq<string>)
    requires 0 < n <= |entries| && NeededAt(entries, n - 1, ks) && NamesAt(entries, ks, names)
    requires ks' == if entries[n - 1].Needed? then ks + [n - 1] else ks
    requires names' == if entries[n - 1].Needed? then names + [entries[n - 1].name] else names
    ensures NeededAt(entries, n, ks') && NamesAt(entries, ks', names')
  {
    NeededOneMore(entries, n, ks, ks');
    if entries[n - 1].Needed? { NamesOneMore(entries, ks, names, n - 1, entries[n - 1].name); }
  }

  lemma NoteNext(f: Found, entries: seq<Dyn>, n: nat)
    requires 0 < n <= |entries|
    ensures var names := NoteEntries(f, entries, n - 1).needed;
      NoteEntries(f, entries, n).needed ==
        if entries[n - 1].Needed? then names + [entries[n - 1].name] else names
  {
  }

  lemma {:induction false} NeededNoted(entries: seq<Dyn>, n: nat) returns (ks: seq<nat>, names: seq<string>)
    requires n <= |entries|
    ensures names == NoteEntries(Found(None, false, []), entries, n).needed
    ensures NeededAt(entries, n, ks) && NamesAt(entries, ks, names)
  {
    if n == 0 {
      ks, names := [], [];
    } else {
      var before, known := NeededNoted(entries, n - 1);
      NoteNext(Found(None, false, []), entries, n);
      var e := entries[n - 1];
      ks, names := if e.Needed? then before + [n - 1] else before, if e.Needed? then known + [e.name] else known;
      NeededNext(entries, n, before, known, ks, names);
    }
  }

  /** The directory in which the needed libraries of a file are looked for: that of its last DT_RUNPATH, without
      any that of its last DT_RPATH, and /lib/ without either. */
  ghost predicate LookedForIn(entries: seq<Dyn>, dir: string) {
    var n := |entries|;
    if exists k | 0 <= k < n :: entries[k].RunPath? then
      exists k: nat | LastRunPath(entries, n, k) :: dir == entries[k].dir
    else if exists k | 0 <= k < n :: entries[k].RPath? then
      exists k: nat | LastRPath(entries, n, k) :: dir == entries[k].dir
    else dir == "/lib/"
  }

  lemma DirectoryNoted(entries: seq<Dyn>, dir: string)
    requires LookedForIn(entries, dir)
    ensures forall name :: Resolve(NoteEntries(Found(None, false, []), entries, |entries|).libPath, name) == dir + name
  {
    var n := |entries|;
    if exists k | 0 <= k < n :: entries[k].RunPath? {
      var k: nat :| LastRunPath(entries, n, k) && dir == entries[k].dir;
      PathAmong(entries, n, k);
    } else if exists k | 0 <= k < n :: entries[k].RPath? {
      var k: nat :| LastRPath(entries, n, k) && dir == entries[k].dir;
      PathAmong(entries, n, k);
    } else {
      NoPathAmong(entries, n);
    }
  }

  /** A file that loads depends on its DT_NEEDED names, in their order over all dynamic sections, each with the
      directory put before it as it stands. */
  lemma DepsAre(fs: Files, p: Path, dir: string) returns (ks: seq<nat>)
    requires p in fs && fs[p].Shared? && fs[p].length > 0
    requires LookedForIn(DynamicEntries(fs[p].sections, |fs[p].sections|), dir)
    ensures var entries := DynamicEntries(fs[p].sections, |fs[p].sections|);
      && NeededAt(entries, |entries|, ks) && |Deps(fs, p)| == |ks|
      && forall i | 0 <= i < |ks| :: Deps(fs, p)[i] == dir + entries[ks[i]].name
  {
    var entries := DynamicEntries(fs[p].sections, |fs[p].sections|);
    NotedTogether(fs[p].sections, |fs[p].sections|);
    var names;
    ks, names := NeededNoted(entries, |entries|);
    DirectoryNoted(entries, dir);
  }

  /** Any other file has none. */
  lemma NoDeps(fs: Files, p: Path)
    requires p !in fs || fs[p].Rejected? || fs[p].length == 0
    ensures Deps(fs, p) == []
  {
  }

  /** There is one such directory. */
  lemma OneDirectory(entries: seq<Dyn>) returns (dir: string)
    ensures LookedForIn(entries, dir) && forall other | LookedForIn(entries, other) :: other == dir
  {
    var n := |entries|;
    if exists k | 0 <= k < n :: entries[k].RunPath? {
      var k :| 0 <= k < n && entries[k].RunPath?;
      while exists j :: k < j < n && entries[j].RunPath?
        invariant 0 <= k < n && entries[k].RunPath?
        decreases n - k
      {
        var j :| k < j < n && entries[j].RunPath?;
        k := j;
      }
      assert LastRunPath(entries, n, k);
      dir := entries[k].dir;
    } else if exists k | 0 <= k < n :: entries[k].RPath? {
      var k :| 0 <= k < n && entries[k].RPath?;
      while exists j :: k < j < n && entries[j].RPath?
        invariant 0 <= k < n && entries[k].RPath?
        decreases n - k
      {
        var j :| k < j < n && entries[j].RPath?;
        k := j;
      }
      assert LastRPath(entries, n, k);
      dir := entries[k].dir;
    } else {
      dir := "/lib/";
    }
  }
}
