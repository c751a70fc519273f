/** The whole of symbol loading, as the debugger starts it. */
module Loader {
  import opened Libraries
  import opened Listing
  import opened Walks
  import opened Unfolding
  import opened Symbols

  /** A depth of calls that is enough on the given files, if any is. */
  ghost function EnoughDepth(fs: Files, root: Path, byText: bool): nat {
    if byText then |Unvisited(fs, [root])| + 1 else |Universe(fs) + {root}|
  }

  /** The search list as meant: everything that can be reached, each path once. As written: the unfolding tree in
      preorder. */
  ghost predicate Searched(fs: Files, root: Path, byText: bool, list: seq<Path>) {
    if byText then NoDuplicates(list) && forall q :: q in list <==> Reachable(fs, root, q)
    else
      var d := EnoughDepth(fs, root, byText);
      Fits(fs, d, root) && list == Tree(fs, d, root)
  }

  lemma WalkSearches(fs: Files, root: Path, byText: bool)
    requires byText || !Cyclic(fs, root)
    ensures var r := Visit(fs, byText, EnoughDepth(fs, root, byText), root, [root]);
      r.Some? && Searched(fs, root, byText, r.value)
  {
    var d := EnoughDepth(fs, root, byText);
    if byText {
      LoadsEachOnce(fs, root, d);
    } else {
      AcyclicFits(fs, root);
      PointerUnfolds(fs, d, root, []);
      assert [] + [root] == [root];
      assert [] + Tree(fs, d, root) == Tree(fs, d, root);
    }
  }

  /** Make the loader and open the program with it: what is searched, which symbols are listed and whether loading
      has failed. As written, comparing pointers, this ends only without a cycle of dependencies. */
  method LoadProgram(fs: Files, root: Path, base: nat, byText: bool) returns (loader: Symbol, ok: bool)
    requires byText || !Cyclic(fs, root)
    ensures fresh(loader) && loader.elf.fs == fs && loader.elf.Valid()
    ensures ok <==> root in fs && fs[root].Shared? && fs[root].length > 0
    ensures Searched(fs, root, byText, Texts(loader.list))
    ensures Lists(fs, base, Texts(loader.list), loader.symbols)
    ensures ListsOffered(fs, base, Texts(loader.list), loader.symbols)
    ensures loader.loadFailed <==>
      exists q | q in Texts(loader.list) :: q !in fs || fs[q].Rejected? || fs[q].length == 0
  {
    WalkSearches(fs, root, byText);
    loader := new Symbol(fs, root, base, byText);
    assert Texts(loader.list)[0] == root;
    ok := loader.OpenFile(0, EnoughDepth(fs, root, byText));
    var list := Texts(loader.list);
    assert list[0..] == list;
    assert [] + SymbolsOf(fs, base, list) == SymbolsOf(fs, base, list);
    SymbolsListed(fs, base, list);
    AllListed(fs, base, list, loader.symbols);
  }
}
