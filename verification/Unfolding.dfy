/** When the walk as written ends, and how often it lists a path. */
module Unfolding {
  import opened Libraries
  import opened Walks

  // ---------- termination ----------

  lemma ChainTail(fs: Files, c: seq<Path>)
    requires Chain(fs, c) && |c| > 1
    ensures Chain(fs, c[1..]) && c[1] in Deps(fs, c[0])
  {
  }

  lemma {:induction false} ChainsFit(fs: Files, d: nat, c: seq<Path>)
    requires Chain(fs, c) && Fits(fs, d, c[0])
    ensures |c| <= d
    decreases d
  {
    if |c| > 1 {
      ChainTail(fs, c);
      ChainsFit(fs, d - 1, c[1..]);
    }
  }

  lemma {:induction false} LongChain(fs: Files, d: nat, p: Path) returns (c: seq<Path>)
    requires !Fits(fs, d, p)
    ensures Chain(fs, c) && c[0] == p && |c| == d + 1
  {
    if d == 0 {
      c := [p];
    } else {
      var q :| q in Deps(fs, p) && !Fits(fs, d - 1, q);
      var rest := LongChain(fs, d - 1, q);
      c := [p] + rest;
    }
  }

  lemma ChainsJoin(fs: Files, a: seq<Path>, b: seq<Path>)
    requires Chain(fs, a) && Chain(fs, b) && b[0] in Deps(fs, a[|a| - 1])
    ensures Chain(fs, a + b)
  {
  }

  /** Some chain from p comes back to a path it has passed. */
  ghost predicate Cyclic(fs: Files, p: Path) {
    exists c, i, j :: Loops(fs, c, i, j) && c[0] == p
  }

  ghost predicate Loops(fs: Files, c: seq<Path>, i: nat, j: nat) {
    Chain(fs, c) && i < j < |c| && c[i] == c[j]
  }

  lemma Segment(fs: Files, c: seq<Path>, i: nat, j: nat)
    requires Chain(fs, c) && i < j <= |c|
    ensures Chain(fs, c[i..j])
  {
  }

  /** Going round a loop often enough makes a chain of any length. */
  lemma {:induction false} Pump(fs: Files, c: seq<Path>, i: nat, j: nat, d: nat) returns (long: seq<Path>)
    requires Loops(fs, c, i, j)
    ensures Chain(fs, long) && long[0] == c[0] && long[|long| - 1] == c[j] && |long| > d
  {
    if d == 0 {
      long := c[..j + 1];
      Segment(fs, c, 0, j + 1);
      assert c[0..j + 1] == long;
    } else {
      var shorter := Pump(fs, c, i, j, d - 1);
      var round := c[i + 1..j + 1];
      Segment(fs, c, i + 1, j + 1);
      assert c[i + 1] in Deps(fs, c[i]);
      ChainsJoin(fs, shorter, round);
      long := shorter + round;
    }
  }

  lemma {:induction false} DistinctFit(c: seq<Path>, s: set<Path>)
    requires NoDuplicates(c) && forall x | x in c :: x in s
    ensures |c| <= |s|
  {
    if c != [] {
      var rest := c[1..];
      forall x | x in rest ensures x in s - {c[0]} {
        var i :| 0 <= i < |rest| && rest[i] == x;
        assert c[i + 1] == x && c[0] != c[i + 1];
      }
      DistinctFit(rest, s - {c[0]});
    }
  }

  /** Comparing pointers, the walk ends if and only if the dependencies of the root have no cycle. */
  lemma EndsIffAcyclic(fs: Files, root: Path)
    ensures (exists d :: Visit(fs, false, d, root, [root]).Some?) <==> !Cyclic(fs, root)
  {
    if Cyclic(fs, root) {
      var c, i, j :| Loops(fs, c, i, j) && c[0] == root;
      forall d: nat ensures Visit(fs, false, d, root, [root]).None? {
        PointerUnfolds(fs, d, root, []);
        assert [] + [root] == [root];
        if Fits(fs, d, root) {
          var long := Pump(fs, c, i, j, d);
          ChainsFit(fs, d, long);
        }
      }
    } else {
      AcyclicFits(fs, root);
      var d := |Universe(fs) + {root}|;
      PointerUnfolds(fs, d, root, []);
      assert [] + [root] == [root];
      assert Visit(fs, false, d, root, [root]).Some?;
    }
  }

  /** Two libraries that need each other. */
  function Mutual(): Files {
    map["/lib/a" := Shared(64, [Dynamic([Needed("b")])]), "/lib/b" := Shared(64, [Dynamic([Needed("a")])])]
  }

  /** On them the walk does not end, and it would if texts were compared. */
  lemma MutualNeverEnds()
    ensures forall d :: Visit(Mutual(), false, d, "/lib/a", ["/lib/a"]).None?
    ensures exists d :: Visit(Mutual(), true, d, "/lib/a", ["/lib/a"]).Some?
  {
    var fs := Mutual();
    NeedsOne(fs, "/lib/a", "b");
    NeedsOne(fs, "/lib/b", "a");
    assert "/lib/" + "a" == "/lib/a" && "/lib/" + "b" == "/lib/b";
    assert Loops(fs, ["/lib/a", "/lib/b", "/lib/a"], 0, 2);
    EndsIffAcyclic(fs, "/lib/a");
    var d := |Unvisited(fs, ["/lib/a"])| + 1;
    TextTerminates(fs, d, "/lib/a", ["/lib/a"]);
  }

  lemma NeedsOne(fs: Files, p: Path, name: string)
    requires Loads(fs, p) && fs[p].sections == [Dynamic([Needed(name)])]
    ensures Deps(fs, p) == ["/lib/" + name]
  {
    var f := Found(None, false, []);
    assert NoteSections(fs[p].sections, 1) == NoteEntries(f, [Needed(name)], 1);
    assert NoteEntries(f, [Needed(name)], 1) == Note(f, Needed(name));
  }

  lemma AcyclicFits(fs: Files, root: Path)
    requires !Cyclic(fs, root)
    ensures Fits(fs, |Universe(fs) + {root}|, root)
  {
    var all := Universe(fs) + {root};
    if !Fits(fs, |all|, root) {
      var c := LongChain(fs, |all|, root);
      forall i | 0 <= i < |c| ensures c[i] in all {
        if i > 0 { assert c[i - 1 + 1] in Deps(fs, c[i - 1]); DepsInUniverse(fs, c[i - 1], c[i]); }
      }
      forall i, j | 0 <= i < j < |c| ensures c[i] != c[j] {
        if c[i] == c[j] { assert Loops(fs, c, i, j); }
      }
      DistinctFit(c, all);
    }
  }

  // ---------- one entry for every chain of dependencies ----------

  /** Following a chain of positions in the dependency lists. */
  ghost function Follow(fs: Files, p: Path, route: seq<nat>): Option<Path>
    decreases |route|
  {
    if route == [] then Some(p)
    else if route[0] < |Deps(fs, p)| then Follow(fs, Deps(fs, p)[route[0]], route[1..])
    else None
  }

  /** The routes from p, those through the dependencies in order. */
  ghost function Routes(fs: Files, d: nat, p: Path): seq<seq<nat>>
    requires Fits(fs, d, p)
    decreases d, 1, 0
  {
    [[]] + RoutesFrom(fs, d - 1, Deps(fs, p), 0)
  }

  /** The routes that begin with dependency k or a later one. */
  ghost function RoutesFrom(fs: Files, d: nat, deps: seq<Path>, k: nat): seq<seq<nat>>
    requires k <= |deps| && FitAll(fs, d, deps)
    decreases d, 2, |deps| - k
  {
    if k == |deps| then []
    else Prefixed(k, Routes(fs, d, deps[k])) + RoutesFrom(fs, d, deps, k + 1)
  }

  ghost function Prefixed(k: nat, rs: seq<seq<nat>>): (r: seq<seq<nat>>)
    ensures |r| == |rs| && forall i | 0 <= i < |r| :: r[i] == [k] + rs[i]
  {
    seq(|rs|, i requires 0 <= i < |rs| => [k] + rs[i])
  }

  ghost predicate DistinctRoutes(rs: seq<seq<nat>>) {
    forall i, j | 0 <= i < j < |rs| :: rs[i] != rs[j]
  }

  /** The routes are those that can be followed from p, none twice, and entry i of the list is where route i leads. */
  ghost predicate AllRoutes(fs: Files, p: Path, rs: seq<seq<nat>>, t: seq<Path>) {
    && |rs| == |t| && DistinctRoutes(rs)
    && (forall i | 0 <= i < |rs| :: Follow(fs, p, rs[i]) == Some(t[i]))
    && (forall r :: r in rs <==> Follow(fs, p, r).Some?)
  }

  /** The same of the routes that begin with dependency k or a later one. */
  ghost predicate AllRoutesFrom(fs: Files, p: Path, k: nat, rs: seq<seq<nat>>, t: seq<Path>) {
    && |rs| == |t| && DistinctRoutes(rs)
    && (forall i | 0 <= i < |rs| :: Follow(fs, p, rs[i]) == Some(t[i]))
    && (forall r :: r in rs <==> r != [] && r[0] >= k && Follow(fs, p, r).Some?)
  }

  lemma {:induction false} RoutesOfTree(fs: Files, d: nat, p: Path)
    requires Fits(fs, d, p)
    ensures AllRoutes(fs, p, Routes(fs, d, p), Tree(fs, d, p))
    decreases d, 1, 0
  {
    var deps := Deps(fs, p);
    RoutesOfForest(fs, d - 1, p, 0);
    assert deps[0..] == deps;
    WithEmptyRoute(fs, p, RoutesFrom(fs, d - 1, deps, 0), Forest(fs, d - 1, deps));
  }

  lemma WithEmptyRoute(fs: Files, p: Path, rs: seq<seq<nat>>, t: seq<Path>)
    requires AllRoutesFrom(fs, p, 0, rs, t)
    ensures AllRoutes(fs, p, [[]] + rs, [p] + t)
  {
  }

  lemma {:induction false} RoutesOfForest(fs: Files, d: nat, p: Path, k: nat)
    requires k <= |Deps(fs, p)| && FitAll(fs, d, Deps(fs, p))
    ensures AllRoutesFrom(fs, p, k, RoutesFrom(fs, d, Deps(fs, p), k), Forest(fs, d, Deps(fs, p)[k..]))
    decreases d, 2, |Deps(fs, p)| - k
  {
    var deps := Deps(fs, p);
    if k < |deps| {
      RoutesOfTree(fs, d, deps[k]);
      RoutesOfForest(fs, d, p, k + 1);
      assert deps[k..][0] == deps[k] && deps[k..][1..] == deps[k + 1..];
      RoutesTogether(fs, p, k, Routes(fs, d, deps[k]), Tree(fs, d, deps[k]),
                     RoutesFrom(fs, d, deps, k + 1), Forest(fs, d, deps[k + 1..]));
    }
  }

  lemma RoutesTogether(fs: Files, p: Path, k: nat, first: seq<seq<nat>>, t: seq<Path>, rest: seq<seq<nat>>,
                       u: seq<Path>)
    requires k < |Deps(fs, p)| && AllRoutes(fs, Deps(fs, p)[k], first, t) && AllRoutesFrom(fs, p, k + 1, rest, u)
    ensures AllRoutesFrom(fs, p, k, Prefixed(k, first) + rest, t + u)
  {
    var rs := Prefixed(k, first) + rest;
    forall i | 0 <= i < |first| ensures Follow(fs, p, rs[i]) == Follow(fs, Deps(fs, p)[k], first[i]) {
      assert rs[i] == [k] + first[i] && rs[i][1..] == first[i];
    }
    DistinctTogether(k, first, rest);
    RoutesTogetherAll(fs, p, k, first, rest);
  }

  lemma RoutesTogetherAll(fs: Files, p: Path, k: nat, first: seq<seq<nat>>, rest: seq<seq<nat>>)
    requires k < |Deps(fs, p)|
    requires forall r :: r in first <==> Follow(fs, Deps(fs, p)[k], r).Some?
    requires forall r :: r in rest <==> r != [] && r[0] >= k + 1 && Follow(fs, p, r).Some?
    ensures forall r :: r in Prefixed(k, first) + rest <==> r != [] && r[0] >= k && Follow(fs, p, r).Some?
  {
    forall r ensures r in Prefixed(k, first) + rest <==> r != [] && r[0] >= k && Follow(fs, p, r).Some? {
      InPrefixed(k, first, r);
    }
  }

  lemma DistinctTogether(k: nat, first: seq<seq<nat>>, rest: seq<seq<nat>>)
    requires DistinctRoutes(first) && DistinctRoutes(rest) && forall r | r in rest :: r != [] && r[0] > k
    ensures DistinctRoutes(Prefixed(k, first) + rest)
  {
    var rs := Prefixed(k, first) + rest;
    forall i, j | 0 <= i < j < |rs| ensures rs[i] != rs[j] {
      if j < |first| { assert rs[i][1..] == first[i] && rs[j][1..] == first[j]; }
      else { assert rs[j] in rest; }
    }
  }

  lemma InPrefixed(k: nat, rs: seq<seq<nat>>, r: seq<nat>)
    ensures r in Prefixed(k, rs) <==> r != [] && r[0] == k && r[1..] in rs
  {
    if r != [] && r[0] == k && r[1..] in rs {
      var i :| 0 <= i < |rs| && rs[i] == r[1..];
      assert Prefixed(k, rs)[i] == [k] + r[1..] == r;
    }
    if r in Prefixed(k, rs) {
      var i :| 0 <= i < |rs| && Prefixed(k, rs)[i] == r;
      assert r[1..] == rs[i];
    }
  }

  /** A route comes before those that extend it and those that turn off later in a list of dependencies. */
  ghost predicate RouteBefore(a: seq<nat>, b: seq<nat>)
    decreases |a|
  {
    b != [] && (a == [] || a[0] < b[0] || (a[0] == b[0] && RouteBefore(a[1..], b[1..])))
  }

  ghost predicate InPreorder(rs: seq<seq<nat>>) {
    forall i, j | 0 <= i < j < |rs| :: RouteBefore(rs[i], rs[j])
  }

  lemma {:induction false} RoutesInPreorder(fs: Files, d: nat, p: Path)
    requires Fits(fs, d, p)
    ensures InPreorder(Routes(fs, d, p))
    decreases d, 1, 0
  {
    var deps := Deps(fs, p);
    RoutesFromInPreorder(fs, d - 1, deps, 0);
    EmptyRouteFirst(RoutesFrom(fs, d - 1, deps, 0), 0);
  }

  /** All routes begin with k or more. */
  ghost predicate BeginFrom(rs: seq<seq<nat>>, k: nat) {
    forall i | 0 <= i < |rs| :: rs[i] != [] && rs[i][0] >= k
  }

  lemma EmptyRouteFirst(rs: seq<seq<nat>>, k: nat)
    requires InPreorder(rs) && BeginFrom(rs, k)
    ensures InPreorder([[]] + rs)
  {
  }

  lemma {:induction false} RoutesFromInPreorder(fs: Files, d: nat, deps: seq<Path>, k: nat)
    requires k <= |deps| && FitAll(fs, d, deps)
    ensures InPreorder(RoutesFrom(fs, d, deps, k)) && BeginFrom(RoutesFrom(fs, d, deps, k), k)
    decreases d, 2, |deps| - k
  {
    if k < |deps| {
      RoutesInPreorder(fs, d, deps[k]);
      RoutesFromInPreorder(fs, d, deps, k + 1);
      PrefixedFirst(k, Routes(fs, d, deps[k]), RoutesFrom(fs, d, deps, k + 1));
    }
  }

  lemma PrefixedFirst(k: nat, first: seq<seq<nat>>, rest: seq<seq<nat>>)
    requires InPreorder(first) && InPreorder(rest) && BeginFrom(rest, k + 1)
    ensures InPreorder(Prefixed(k, first) + rest) && BeginFrom(Prefixed(k, first) + rest, k)
  {
    var rs := Prefixed(k, first) + rest;
    forall i, j | 0 <= i < j < |rs| ensures RouteBefore(rs[i], rs[j]) {
      if j < |first| {
        assert rs[i][1..] == first[i] && rs[j][1..] == first[j];
        assert RouteBefore(first[i], first[j]);
      }
    }
  }

  /** As written, the search list has one entry for every route of dependencies from the root. */
  lemma OneEntryPerRoute(fs: Files, root: Path, d: nat)
    requires Visit(fs, false, d, root, [root]).Some?
    ensures Fits(fs, d, root)
    ensures var list, rs := Visit(fs, false, d, root, [root]).value, Routes(fs, d, root);
      && list == Tree(fs, d, root) && |list| == |rs| && DistinctRoutes(rs) && InPreorder(rs)
      && (forall r :: r in rs <==> Follow(fs, root, r).Some?)
      && (forall i | 0 <= i < |rs| :: Follow(fs, root, rs[i]) == Some(list[i]))
  {
    PointerUnfolds(fs, d, root, []);
    assert [] + [root] == [root];
    RoutesOfTree(fs, d, root);
    RoutesInPreorder(fs, d, root);
  }
}
