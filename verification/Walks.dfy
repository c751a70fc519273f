/** The dependency walk, with the comparison it has and the one it is meant to have. */
module Walks {
  import opened Libraries
  import opened Sequences

  /** A chain of dependencies. */
  ghost predicate Chain(fs: Files, c: seq<Path>) {
    c != [] && forall i | 0 <= i < |c| - 1 :: c[i + 1] in Deps(fs, c[i])
  }

  ghost predicate ChainFromTo(fs: Files, c: seq<Path>, p: Path, q: Path) {
    Chain(fs, c) && c[0] == p && c[|c| - 1] == q
  }

  ghost predicate Reachable(fs: Files, p: Path, q: Path) {
    exists c :: ChainFromTo(fs, c, p, q)
  }

  predicate NoDuplicates(list: seq<Path>) {
    forall i, j | 0 <= i < j < |list| :: list[i] != list[j]
  }

  /** Every path that is a file or a dependency of one. */
  function Universe(fs: Files): set<Path> {
    fs.Keys + set p, q | p in fs.Keys && q in Deps(fs, p) :: q
  }

  lemma DepsInUniverse(fs: Files, p: Path, q: Path)
    requires q in Deps(fs, p)
    ensures q in Universe(fs)
  {
  }

  function Unvisited(fs: Files, list: seq<Path>): set<Path> {
    set q | q in Universe(fs) && q !in list
  }

  // ---------- comparing texts: the walk as it is meant ----------

  lemma FewerUnvisited(fs: Files, list: seq<Path>, longer: seq<Path>)
    requires list <= longer
    ensures Unvisited(fs, longer) <= Unvisited(fs, list) && |Unvisited(fs, longer)| <= |Unvisited(fs, list)|
  {
    forall q | q in list ensures q in longer {
      var i :| 0 <= i < |list| && list[i] == q;
      assert longer[i] == q;
    }
    SubsetSmaller(Unvisited(fs, longer), Unvisited(fs, list));
  }

  lemma {:induction false} SubsetSmaller<T>(a: set<T>, b: set<T>)
    requires a <= b
    ensures |a| <= |b|
  {
    if a != {} {
      var x :| x in a;
      SubsetSmaller(a - {x}, b - {x});
    }
  }

  lemma OneFewerUnvisited(fs: Files, list: seq<Path>, q: Path)
    requires q in Universe(fs) && q !in list
    ensures |Unvisited(fs, list + [q])| < |Unvisited(fs, list)|
  {
    assert Unvisited(fs, list + [q]) == Unvisited(fs, list) - {q};
  }

  /** Nested calls are bounded by the number of paths not yet listed: the walk terminates on every graph. */
  lemma {:induction false} TextTerminates(fs: Files, d: nat, p: Path, list: seq<Path>)
    requires d > |Unvisited(fs, list)|
    ensures Visit(fs, true, d, p, list).Some?
    decreases d, 1, 0
  {
    AllFromFirst(fs, d - 1, Deps(fs, p), list);
    TextAllTerminates(fs, d - 1, p, 0, list);
  }

  lemma AllFromFirst(fs: Files, d: nat, deps: seq<Path>, list: seq<Path>)
    ensures VisitAll(fs, true, d, deps[0..], list) == VisitAll(fs, true, d, deps, list)
  {
    assert deps[0..] == deps;
  }

  /** For the dependencies of p from index i on. */
  lemma {:induction false} TextAllTerminates(fs: Files, d: nat, p: Path, i: nat, list: seq<Path>)
    requires d >= |Unvisited(fs, list)| && i <= |Deps(fs, p)|
    ensures VisitAll(fs, true, d, Deps(fs, p)[i..], list).Some?
    decreases d, 2, |Deps(fs, p)| - i
  {
    var deps := Deps(fs, p)[i..];
    if deps != [] {
      var q := deps[0];
      assert q == Deps(fs, p)[i] && deps[1..] == Deps(fs, p)[i + 1..];
      if q in list {
        TextAllTerminates(fs, d, p, i + 1, list);
      } else {
        DepsInUniverse(fs, p, q);
        OneFewerUnvisited(fs, list, q);
        TextTerminates(fs, d, q, list + [q]);
        VisitExtends(fs, true, d, q, list + [q]);
        var list' := Visit(fs, true, d, q, list + [q]).value;
        FewerUnvisited(fs, list, list');
        TextAllTerminates(fs, d, p, i + 1, list');
      }
    }
  }

  /** The entries from index n on have all their dependencies in the list. */
  ghost predicate ClosedFrom(fs: Files, list: seq<Path>, n: nat) {
    forall i, q | n <= i < |list| && q in Deps(fs, list[i]) :: q in list
  }

  lemma ClosedExtends(fs: Files, list: seq<Path>, n: nat, longer: seq<Path>)
    requires n <= |list| && list <= longer && ClosedFrom(fs, list, n) && ClosedFrom(fs, longer, |list|)
    ensures ClosedFrom(fs, longer, n)
  {
    forall i, q | n <= i < |longer| && q in Deps(fs, longer[i]) ensures q in longer {
      if i < |list| { assert longer[i] == list[i]; assert q in list; InLonger(list, longer, q); }
    }
  }

  lemma InLonger(list: seq<Path>, longer: seq<Path>, q: Path)
    requires list <= longer && q in list
    ensures q in longer
  {
  }

  /** A call of OpenFile on the last path of a duplicate-free list leaves it duplicate-free, with everything added
      and the path itself closed under dependency. */
  lemma {:induction false} TextCloses(fs: Files, d: nat, p: Path, list: seq<Path>)
    requires Visit(fs, true, d, p, list).Some? && NoDuplicates(list) && list != [] && list[|list| - 1] == p
    ensures var list' := Visit(fs, true, d, p, list).value;
      list <= list' && NoDuplicates(list') && ClosedFrom(fs, list', |list| - 1)
    decreases d, 1, 0
  {
    VisitExtends(fs, true, d, p, list);
    TextAllCloses(fs, d - 1, Deps(fs, p), list);
    var list' := Visit(fs, true, d, p, list).value;
    forall i, q | |list| - 1 <= i < |list'| && q in Deps(fs, list'[i]) ensures q in list' {
      if i == |list| - 1 { assert list'[i] == list[i] == p; }
    }
  }

  lemma {:induction false} TextAllCloses(fs: Files, d: nat, deps: seq<Path>, list: seq<Path>)
    requires VisitAll(fs, true, d, deps, list).Some? && NoDuplicates(list)
    ensures var list' := VisitAll(fs, true, d, deps, list).value;
      && list <= list' && NoDuplicates(list') && ClosedFrom(fs, list', |list|)
      && forall q | q in deps :: q in list'
    decreases d, 2, |deps|
  {
    VisitAllExtends(fs, true, d, deps, list);
    if deps != [] {
      var list1 := list;
      if deps[0] !in list {
        TextCloses(fs, d, deps[0], list + [deps[0]]);
        list1 := Visit(fs, true, d, deps[0], list + [deps[0]]).value;
        assert list <= list1;
        assert list1[|list|] == deps[0];
      }
      TextAllCloses(fs, d, deps[1..], list1);
      var list' := VisitAll(fs, true, d, deps, list).value;
      ClosedExtends(fs, list1, |list|, list');
      InLonger(list1, list', deps[0]);
    }
  }

  /** Whatever is added can be reached from the paths it is added for. */
  lemma {:induction false} TextReaches(fs: Files, d: nat, root: Path, p: Path, list: seq<Path>)
    requires Visit(fs, true, d, p, list).Some? && Reachable(fs, root, p)
    requires forall q | q in list :: Reachable(fs, root, q)
    ensures forall q | q in Visit(fs, true, d, p, list).value :: Reachable(fs, root, q)
    decreases d, 1, 0
  {
    forall q | q in Deps(fs, p) ensures Reachable(fs, root, q) { OneFurther(fs, root, p, q); }
    TextAllReaches(fs, d - 1, root, Deps(fs, p), list);
  }

  lemma {:induction false} TextAllReaches(fs: Files, d: nat, root: Path, deps: seq<Path>, list: seq<Path>)
    requires VisitAll(fs, true, d, deps, list).Some?
    requires (forall q | q in deps :: Reachable(fs, root, q)) && forall q | q in list :: Reachable(fs, root, q)
    ensures forall q | q in VisitAll(fs, true, d, deps, list).value :: Reachable(fs, root, q)
    decreases d, 2, |deps|
  {
    if deps != [] {
      if deps[0] in list {
        TextAllReaches(fs, d, root, deps[1..], list);
      } else {
        TextReaches(fs, d, root, deps[0], list + [deps[0]]);
        TextAllReaches(fs, d, root, deps[1..], Visit(fs, true, d, deps[0], list + [deps[0]]).value);
      }
    }
  }

  lemma OneFurther(fs: Files, root: Path, p: Path, q: Path)
    requires Reachable(fs, root, p) && q in Deps(fs, p)
    ensures Reachable(fs, root, q)
  {
    var c :| ChainFromTo(fs, c, root, p);
    assert ChainFromTo(fs, c + [q], root, q);
  }

  lemma {:induction false} ClosedContainsChain(fs: Files, list: seq<Path>, c: seq<Path>)
    requires ClosedFrom(fs, list, 0) && Chain(fs, c) && c[0] in list
    ensures c[|c| - 1] in list
  {
    if |c| > 1 {
      assert c[1] in Deps(fs, c[0]);
      var i :| 0 <= i < |list| && list[i] == c[0];
      assert c[1] in list;
      assert Chain(fs, c[1..]) by {
        forall j | 0 <= j < |c[1..]| - 1 ensures c[1..][j + 1] in Deps(fs, c[1..][j]) {
          assert c[j + 2] in Deps(fs, c[j + 1]);
        }
      }
      ClosedContainsChain(fs, list, c[1..]);
    }
  }

  /** Comparing texts, the walk ends on every graph, cyclic or not, and loads exactly what can be reached from the root,
      each path once. */
  lemma LoadsEachOnce(fs: Files, root: Path, d: nat)
    requires d > |Unvisited(fs, [root])|
    ensures var r := Visit(fs, true, d, root, [root]);
      && r.Some? && NoDuplicates(r.value)
      && forall q :: q in r.value <==> Reachable(fs, root, q)
  {
    TextTerminates(fs, d, root, [root]);
    TextCloses(fs, d, root, [root]);
    var list := Visit(fs, true, d, root, [root]).value;
    assert ChainFromTo(fs, [root], root, root);
    TextReaches(fs, d, root, root, [root]);
    assert list[0] == root;
    forall q | Reachable(fs, root, q) ensures q in list {
      var c :| ChainFromTo(fs, c, root, q);
      ClosedContainsChain(fs, list, c);
    }
  }

  // ---------- comparing pointers: the walk as it is ----------

  /** All chains from p have at most d members. */
  ghost predicate Fits(fs: Files, d: nat, p: Path)
    decreases d, 0
  {
    d > 0 && FitAll(fs, d - 1, Deps(fs, p))
  }

  ghost predicate FitAll(fs: Files, d: nat, deps: seq<Path>)
    decreases d, 1
  {
    forall q | q in deps :: Fits(fs, d, q)
  }

  lemma FitAllSplits(fs: Files, d: nat, deps: seq<Path>)
    requires deps != []
    ensures FitAll(fs, d, deps) <==> Fits(fs, d, deps[0]) && FitAll(fs, d, deps[1..])
  {
  }

  /** The preorder of the tree that the dependencies of p unfold to. */
  ghost function Tree(fs: Files, d: nat, p: Path): seq<Path>
    requires Fits(fs, d, p)
    decreases d, 1, 0
  {
    [p] + Forest(fs, d - 1, Deps(fs, p))
  }

  ghost function Forest(fs: Files, d: nat, deps: seq<Path>): seq<Path>
    requires FitAll(fs, d, deps)
    decreases d, 2, |deps|
  {
    if deps == [] then [] else Tree(fs, d, deps[0]) + Forest(fs, d, deps[1..])
  }

  /** As written, the walk lists the unfolding tree in preorder, if that is finite, and does not end otherwise. */
  lemma {:induction false} PointerUnfolds(fs: Files, d: nat, p: Path, list: seq<Path>)
    ensures var r := Visit(fs, false, d, p, list + [p]);
      (r.Some? <==> Fits(fs, d, p)) && (r.Some? ==> r.value == list + Tree(fs, d, p))
    decreases d, 1, 0
  {
    if d > 0 {
      PointerAllUnfolds(fs, d - 1, Deps(fs, p), list + [p]);
      if Fits(fs, d, p) { AppendAssociates(list, [p], Forest(fs, d - 1, Deps(fs, p))); }
    }
  }

  lemma {:induction false} PointerAllUnfolds(fs: Files, d: nat, deps: seq<Path>, list: seq<Path>)
    ensures var r := VisitAll(fs, false, d, deps, list);
      (r.Some? <==> FitAll(fs, d, deps)) && (r.Some? ==> r.value == list + Forest(fs, d, deps))
    decreases d, 2, |deps|
  {
    if deps != [] {
      PointerUnfolds(fs, d, deps[0], list);
      FitAllSplits(fs, d, deps);
      var r := Visit(fs, false, d, deps[0], list + [deps[0]]);
      if r.Some? { PointerAllUnfolds(fs, d, deps[1..], r.value); }
    }
  }
}
