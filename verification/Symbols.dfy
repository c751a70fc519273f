/** The symbol loader: one ELF mapping that every nested call replaces, the search list and the symbol list. */
module Symbols {
  import opened Libraries
  import opened Sequences

  // ---------- mappings ----------

  /** What the loader does with mappings. A failed mmap leaves nothing to unmap, and a munmap of its result fails. */
  datatype Access =
    | Mmap(path: Path, length: nat)
    | MmapFails(path: Path)
    | Munmap(path: Path, length: nat)
    | MunmapFails
    | Read(path: Path)

  datatype Ledger = Nothing | Holds(path: Path, length: nat) | Broken

  /** At most one mapping at a time, unmapped with the length it was mapped with, and read only while it is there. */
  function Record(l: Ledger, a: Access): Ledger {
    match (l, a)
    case (Nothing, Mmap(p, n)) => Holds(p, n)
    case (Nothing, MmapFails(_)) => Nothing
    case (Nothing, MunmapFails) => Nothing
    case (Holds(p, n), Munmap(q, k)) => if p == q && n == k then Nothing else Broken
    case (Holds(p, n), Read(q)) => if p == q then l else Broken
    case _ => Broken
  }

  function Balance(trace: seq<Access>): Ledger {
    if trace == [] then Nothing else Record(Balance(trace[..|trace| - 1]), trace[|trace| - 1])
  }

  lemma BalanceMore(trace: seq<Access>, a: Access)
    ensures Balance(trace + [a]) == Record(Balance(trace), a)
  {
  }

  /** m_mapping: the null pointer, MAP_FAILED, or a mapped file. */
  datatype Mapping = Null | Failed | Live(path: Path)

  class Elf {
    const fs: Files
    var mapping: Mapping
    /** m_size */
    var size: nat
    /** The file whose headers m_ehdr and m_shdr point to. */
    var header: Option<Path>
    ghost var trace: seq<Access>

    constructor (fs: Files)
      ensures this.fs == fs && Valid() && mapping.Null?
    {
      this.fs, mapping, size, header, trace := fs, Null, 0, None, [];
    }

    ghost predicate Valid()
      reads this
    {
      && Balance(trace) == (match mapping case Live(p) => Holds(p, size) case _ => Nothing)
      && (mapping.Live? ==> Loads(fs, mapping.path) && header == Some(mapping.path))
    }

    ghost method Log(a: Access)
      modifies `trace
      ensures Balance(trace) == Record(Balance(old(trace)), a) && old(trace) <= trace
    {
      BalanceMore(trace, a);
      trace := trace + [a];
    }

    method RemoveMap()
      requires Valid()
      modifies this
      ensures Valid() && mapping.Null? && old(trace) <= trace
    {
      if mapping != Null {
        Log(if mapping.Live? then Munmap(mapping.path, size) else MunmapFails);
      }
      mapping := Null;
    }

    method OpenElf(pathname: Path) returns (ok: bool)
      requires Valid() && mapping.Null?
      modifies this
      ensures Valid() && old(trace) <= trace
      ensures ok == Loads(fs, pathname)
      ensures ok ==> mapping == Live(pathname)
      ensures !ok ==> mapping == if pathname in fs && fs[pathname].length == 0 then Failed else Null
    {
      if pathname !in fs {
        return false;
      }
      size := fs[pathname].length;
      ok := LoadFile(pathname);
    }

    method LoadFile(pathname: Path) returns (ok: bool)
      requires Valid() && mapping.Null? && pathname in fs && size == fs[pathname].length
      modifies this
      ensures Valid() && old(trace) <= trace
      ensures ok == Loads(fs, pathname)
      ensures ok ==> mapping == Live(pathname)
      ensures !ok ==> mapping == if pathname in fs && fs[pathname].length == 0 then Failed else Null
    {
      if size == 0 {
        Log(MmapFails(pathname));
        mapping := Failed;
        return false;
      }
      Log(Mmap(pathname, size));
      mapping := Live(pathname);
      header := Some(pathname);
      Log(Read(pathname));
      match fs[pathname]
      case Rejected(_) =>
        // not an ELF file, or not ET_DYN
        Log(Munmap(pathname, size));
        mapping := Null;
        return false;
      case Shared(_, _) =>
        return true;
    }

    /** e_shnum */
    method SectionCount() returns (n: nat)
      requires Valid() && mapping.Live?
      modifies `trace
      ensures Valid() && old(trace) <= trace && n == |fs[mapping.path].sections|
    {
      Log(Read(header.value));
      n := |fs[header.value].sections|;
    }

    /** The section that m_shdr[i] describes. */
    method SectionAt(i: nat) returns (s: Section)
      requires Valid() && mapping.Live? && i < |fs[mapping.path].sections|
      modifies `trace
      ensures Valid() && old(trace) <= trace && s == fs[mapping.path].sections[i]
    {
      Log(Read(header.value));
      s := fs[header.value].sections[i];
    }
  }

  // ---------- the loader ----------

  /** A path in a buffer of its own: two buffers with the same text are different pointers. */
  class Buffer {
    const text: Path

    constructor (text: Path)
      ensures this.text == text
    {
      this.text := text;
    }
  }

  function Texts(list: seq<Buffer>): (ps: seq<Path>)
    ensures |ps| == |list| && forall i | 0 <= i < |ps| :: ps[i] == list[i].text
  {
    seq(|list|, i requires 0 <= i < |list| => list[i].text)
  }

  /** The search list once one dependency has been looked up, and opened if it was not found. */
  function VisitOne(fs: Files, byText: bool, d: nat, p: Path, list: seq<Path>): Option<seq<Path>> {
    if byText && p in list then Some(list) else Visit(fs, byText, d, p, list + [p])
  }

  lemma VisitAllUnfolds(fs: Files, byText: bool, d: nat, deps: seq<Path>, i: nat, list: seq<Path>)
    requires i < |deps|
    ensures VisitAll(fs, byText, d, deps[i..], list) ==
      match VisitOne(fs, byText, d, deps[i], list)
      case None => None
      case Some(list') => VisitAll(fs, byText, d, deps[i + 1..], list')
  {
  }

  /** The part of the loader's state that the files decide: the symbol list and the failure flag. */
  datatype Tally = Tally(symbols: seq<Syminfo>, failed: bool)

  /** `after` is `before` with the files of the search list from index n on opened, in their order. */
  ghost predicate Opened(fs: Files, base: nat, list: seq<Path>, n: nat, before: Tally, after: Tally)
    requires n <= |list|
  {
    && after.symbols == before.symbols + SymbolsOf(fs, base, list[n..])
    && after.failed == (before.failed || AnyFails(fs, list[n..]))
  }

  lemma OpenedNothing(fs: Files, base: nat, list: seq<Path>, t: Tally)
    ensures Opened(fs, base, list, |list|, t, t)
  {
  }

  lemma AnyFailsConcat(fs: Files, a: seq<Path>, b: seq<Path>)
    ensures AnyFails(fs, a + b) <==> AnyFails(fs, a) || AnyFails(fs, b)
  {
    forall i | 0 <= i < |a| ensures (a + b)[i] == a[i] {
    }
    forall i | 0 <= i < |b| ensures (a + b)[|a| + i] == b[i] {
    }
  }

  lemma OpenedTogether(fs: Files, base: nat, list: seq<Path>, longer: seq<Path>, n: nat)
    requires n <= |list| && list <= longer
    ensures SymbolsOf(fs, base, longer[n..]) == SymbolsOf(fs, base, list[n..]) + SymbolsOf(fs, base, longer[|list|..])
    ensures AnyFails(fs, longer[n..]) <==> AnyFails(fs, list[n..]) || AnyFails(fs, longer[|list|..])
  {
    var a, b := list[n..], longer[|list|..];
    assert longer[n..] == a + b;
    SymbolsConcat(fs, base, a, b);
    AnyFailsConcat(fs, a, b);
  }

  lemma OpenedMore(fs: Files, base: nat, list: seq<Path>, longer: seq<Path>, n: nat, t0: Tally, t1: Tally, t2: Tally)
    requires n <= |list| && list <= longer
    requires Opened(fs, base, list, n, t0, t1) && Opened(fs, base, longer, |list|, t1, t2)
    ensures Opened(fs, base, longer, n, t0, t2)
  {
    OpenedTogether(fs, base, list, longer, n);
    AppendAssociates(t0.symbols, SymbolsOf(fs, base, list[n..]), SymbolsOf(fs, base, longer[|list|..]));
  }

  lemma OpenedHead(fs: Files, base: nat, list: seq<Path>, n: nat, t0: Tally, t1: Tally, t2: Tally)
    requires n < |list| && Opened(fs, base, list, n + 1, t1, t2)
    requires t1 == Tally(t0.symbols + FileSymbols(fs, base, list[n]), t0.failed || !Loads(fs, list[n]))
    ensures Opened(fs, base, list, n, t0, t2)
  {
  }

  class Symbol {
    const elf: Elf
    const base: nat
    /** Whether SearchForPath compares texts, as it is meant to; as written it compares pointers. */
    const byText: bool
    /** P_list */
    var list: seq<Buffer>
    /** S_list */
    var symbols: seq<Syminfo>
    /** b_load_failed */
    var loadFailed: bool

    constructor (fs: Files, root: Path, base: nat, byText: bool)
      ensures elf.fs == fs && elf.Valid() && elf.mapping.Null? && fresh(elf)
      ensures this.base == base && this.byText == byText
      ensures Texts(list) == [root] && symbols == [] && !loadFailed
    {
      var b := new Buffer(root);
      elf := new Elf(fs);
      this.base, this.byText := base, byText;
      list, symbols, loadFailed := [b], [], false;
    }

    method SearchForPath(pathname: Buffer) returns (found: bool)
      ensures found == if byText then pathname.text in Texts(list) else pathname in list
    {
      for i := 0 to |list|
        invariant forall j | 0 <= j < i :: if byText then list[j].text != pathname.text else list[j] != pathname
      {
        if (if byText then list[i].text == pathname.text else list[i] == pathname) {
          assert Texts(list)[i] == list[i].text;
          return true;
        }
      }
      return false;
    }

    ghost function Loaded(): Tally
      reads this
    {
      Tally(symbols, loadFailed)
    }

    /** OpenFile on the path pushed last. */
    method OpenFile(index: nat, ghost d: nat) returns (ok: bool)
      requires elf.Valid() && elf.mapping.Null? && index + 1 == |list|
      requires Visit(elf.fs, byText, d, list[index].text, Texts(list)).Some?
      modifies this, elf
      ensures elf.Valid() && old(elf.trace) <= elf.trace
      ensures ok == Loads(elf.fs, old(list[index].text))
      ensures Some(Texts(list)) == Visit(elf.fs, byText, d, old(list[index].text), old(Texts(list)))
      ensures old(Texts(list)) <= Texts(list)
      ensures Opened(elf.fs, base, Texts(list), index, old(Loaded()), Loaded())
      decreases d, 1, 0
    {
      var pathname := list[index].text;
      ghost var before, t0 := Texts(list), Loaded();
      ghost var t1 := Tally(symbols + FileSymbols(elf.fs, base, pathname), loadFailed || !Loads(elf.fs, pathname));
      ok := elf.OpenElf(pathname);
      if !ok {
        loadFailed := true;
        OpenedNothing(elf.fs, base, before, t1);
      } else {
        LoadSymbols(d - 1);
      }
      assert before <= Texts(list) && Texts(list)[index] == pathname;
      OpenedHead(elf.fs, base, Texts(list), index, t0, t1, Loaded());
    }

    /** LoadSymbols on the file that is mapped. */
    method LoadSymbols(ghost d: nat)
      requires elf.Valid() && elf.mapping.Live?
      requires VisitAll(elf.fs, byText, d, Deps(elf.fs, elf.mapping.path), Texts(list)).Some?
      modifies this, elf
      ensures elf.Valid() && old(elf.trace) <= elf.trace
      ensures Some(Texts(list)) == VisitAll(elf.fs, byText, d, Deps(elf.fs, old(elf.mapping.path)), old(Texts(list)))
      ensures old(Texts(list)) <= Texts(list)
      ensures var own := FileSymbols(elf.fs, base, old(elf.mapping.path));
        Opened(elf.fs, base, Texts(list), |old(list)|, Tally(old(symbols) + own, old(loadFailed)), Loaded())
      decreases d, 4, 0
    {
      ghost var sections := elf.fs[elf.mapping.path].sections;
      var n := elf.SectionCount();
      for i := 0 to n
        invariant elf.Valid() && elf.mapping == old(elf.mapping) && old(elf.trace) <= elf.trace
        invariant list == old(list) && loadFailed == old(loadFailed)
        invariant symbols == old(symbols) + SymbolsIn(base, sections, i)
      {
        var section := elf.SectionAt(i);
        if section.SymTab? {
          LoadTable(section.syms);
        }
      }
      ParseDynamic(d);
    }

    /** The inner loop of LoadSymbols. */
    method LoadTable(syms: seq<Sym>)
      modifies `symbols
      ensures symbols == old(symbols) + FunctionsOf(base, syms, |syms|)
    {
      for j := 0 to |syms|
        invariant symbols == old(symbols) + FunctionsOf(base, syms, j)
      {
        if syms[j].isFunc && syms[j].value != 0 {
          symbols := symbols + [Syminfo((base + syms[j].value) % 0x1_0000_0000_0000_0000, syms[j].name)];
        }
      }
    }

    /** The first loops of ParseDynamic. */
    method Gather() returns (f: Found)
      requires elf.Valid() && elf.mapping.Live?
      modifies elf`trace
      ensures elf.Valid() && old(elf.trace) <= elf.trace
      ensures f == NoteSections(elf.fs[elf.mapping.path].sections, |elf.fs[elf.mapping.path].sections|)
    {
      ghost var sections := elf.fs[elf.mapping.path].sections;
      f := Found(None, false, []);
      var n := elf.SectionCount();
      for i := 0 to n
        invariant elf.Valid() && old(elf.trace) <= elf.trace
        invariant f == NoteSections(sections, i)
      {
        var section := elf.SectionAt(i);
        if section.Dynamic? {
          for j := 0 to |section.entries|
            invariant f == NoteEntries(NoteSections(sections, i), section.entries, j)
          {
            f := Note(f, section.entries[j]);
          }
        }
      }
    }

    /** The body of the last loop of ParseDynamic: look the path up, and open it if it is not listed. */
    method FollowPath(path: Path, ghost d: nat)
      requires elf.Valid()
      requires VisitOne(elf.fs, byText, d, path, Texts(list)).Some?
      modifies this, elf
      ensures elf.Valid() && old(elf.trace) <= elf.trace
      ensures Some(Texts(list)) == VisitOne(elf.fs, byText, d, path, old(Texts(list)))
      ensures old(Texts(list)) <= Texts(list)
      ensures Opened(elf.fs, base, Texts(list), |old(list)|, old(Loaded()), Loaded())
      decreases d, 2, 0
    {
      ghost var before := Texts(list);
      var pathname := new Buffer(path);
      var found := SearchForPath(pathname);
      if found {
        OpenedNothing(elf.fs, base, before, Loaded());
        return;
      }
      list := list + [pathname];
      assert Texts(list) == before + [path];
      elf.RemoveMap();
      var ok := OpenFile(|list| - 1, d);
    }

    method ParseDynamic(ghost d: nat)
      requires elf.Valid() && elf.mapping.Live?
      requires VisitAll(elf.fs, byText, d, Deps(elf.fs, elf.mapping.path), Texts(list)).Some?
      modifies this, elf
      ensures elf.Valid() && old(elf.trace) <= elf.trace
      ensures Some(Texts(list)) == VisitAll(elf.fs, byText, d, Deps(elf.fs, old(elf.mapping.path)), old(Texts(list)))
      ensures old(Texts(list)) <= Texts(list)
      ensures Opened(elf.fs, base, Texts(list), |old(list)|, old(Loaded()), Loaded())
      decreases d, 3, 0
    {
      var f := Gather();
      FollowAll(f, d);
    }

    /** The last loop of ParseDynamic. No header is read any more, so the mapping may be replaced. */
    method FollowAll(f: Found, ghost d: nat)
      requires elf.Valid()
      requires VisitAll(elf.fs, byText, d, ResolveAll(f), Texts(list)).Some?
      modifies this, elf
      ensures elf.Valid() && old(elf.trace) <= elf.trace
      ensures Some(Texts(list)) == VisitAll(elf.fs, byText, d, ResolveAll(f), old(Texts(list)))
      ensures old(Texts(list)) <= Texts(list)
      ensures Opened(elf.fs, base, Texts(list), |old(list)|, old(Loaded()), Loaded())
      decreases d, 2, 1
    {
      ghost var deps, start, t0 := ResolveAll(f), Texts(list), Loaded();
      ghost var ps := start;
      OpenedNothing(elf.fs, base, start, t0);
      assert deps[0..] == deps;
      for i := 0 to |f.needed|
        invariant elf.Valid() && old(elf.trace) <= elf.trace && ps == Texts(list)
        invariant VisitAll(elf.fs, byText, d, deps, start) == VisitAll(elf.fs, byText, d, deps[i..], ps)
        invariant start <= ps && Opened(elf.fs, base, ps, |start|, t0, Loaded())
      {
        ghost var t1 := Loaded();
        VisitAllUnfolds(elf.fs, byText, d, deps, i, ps);
        FollowPath(Resolve(f.libPath, f.needed[i]), d);
        OpenedMore(elf.fs, base, ps, Texts(list), |start|, t0, t1, Loaded());
        ps := Texts(list);
      }
      assert deps[|f.needed|..] == [];
    }
  }
}
