/**
 Finite-branching graphs as the scheduler sees them: the dependency list of a
 node, in order and possibly with repetitions, and which calls can succeed.
 */
module Graphs {

  /**
   `deps(n)` is what FindDependencies(n) returns when it succeeds. A call may
   fail for reasons of its own at any time, but it can succeed only for a node
   satisfying `resolvable` (for FindDependencies) or `visitable` (for Visit).
   */
  datatype Graph<!N> = Graph(deps: N -> seq<N>, resolvable: N -> bool, visitable: N -> bool)

  ghost predicate IsPath<N>(g: Graph<N>, p: seq<N>) {
    && p != []
    && forall i :: 0 <= i < |p| - 1 ==> p[i + 1] in g.deps(p[i])
  }

  ghost predicate PathBetween<N>(g: Graph<N>, p: seq<N>, a: N, b: N) {
    IsPath(g, p) && p[0] == a && p[|p| - 1] == b
  }

  /** b is a, or a transitive dependency of a. */
  ghost predicate Reaches<N(!new)>(g: Graph<N>, a: N, b: N) {
    exists p :: PathBetween(g, p, a, b)
  }

  /** a is one of its own transitive dependencies. */
  ghost predicate OnCycle<N(!new)>(g: Graph<N>, a: N) {
    exists p :: PathBetween(g, p, a, a) && |p| >= 2
  }

  ghost predicate ReachesCycle<N(!new)>(g: Graph<N>, a: N) {
    exists c :: Reaches(g, a, c) && OnCycle(g, c)
  }

  /** n belongs to the union of the start nodes and their transitive dependencies. */
  ghost predicate Reachable<N(!new)>(g: Graph<N>, start: seq<N>, n: N) {
    exists s :: s in start && Reaches(g, s, n)
  }

  ghost predicate ClosedUnderDeps<N>(g: Graph<N>, s: set<N>) {
    forall n, m :: n in s && m in g.deps(n) ==> m in s
  }

  lemma ReachesSelf<N(!new)>(g: Graph<N>, a: N)
    ensures Reaches(g, a, a)
  {
    assert PathBetween(g, [a], a, a);
  }

  lemma JoinPaths<N(!new)>(g: Graph<N>, p: seq<N>, q: seq<N>, a: N, b: N, c: N)
    requires PathBetween(g, p, a, b) && PathBetween(g, q, b, c)
    ensures PathBetween(g, p + q[1..], a, c)
  {
    var r := p + q[1..];
    forall i | 0 <= i < |r| - 1
      ensures r[i + 1] in g.deps(r[i])
    {
      if i >= |p| - 1 {
        assert r[i] == q[i - (|p| - 1)];
        assert r[i + 1] == q[i - (|p| - 1) + 1];
      }
    }
  }

  lemma ReachesTransitive<N(!new)>(g: Graph<N>, a: N, b: N, c: N)
    requires Reaches(g, a, b) && Reaches(g, b, c)
    ensures Reaches(g, a, c)
  {
    var p :| PathBetween(g, p, a, b);
    var q :| PathBetween(g, q, b, c);
    JoinPaths(g, p, q, a, b, c);
  }

  lemma DepIsReached<N(!new)>(g: Graph<N>, a: N, b: N)
    requires b in g.deps(a)
    ensures Reaches(g, a, b)
  {
    assert PathBetween(g, [a, b], a, b);
  }

  lemma ReachableStep<N(!new)>(g: Graph<N>, start: seq<N>, n: N, m: N)
    requires Reachable(g, start, n) && m in g.deps(n)
    ensures Reachable(g, start, m)
  {
    var s :| s in start && Reaches(g, s, n);
    DepIsReached(g, n, m);
    ReachesTransitive(g, s, n, m);
  }

  lemma {:induction false} PathStaysIn<N>(g: Graph<N>, s: set<N>, p: seq<N>)
    requires ClosedUnderDeps(g, s) && IsPath(g, p) && p[0] in s
    ensures forall i :: 0 <= i < |p| ==> p[i] in s
    decreases |p|
  {
    if |p| > 1 {
      assert p[1] in g.deps(p[0]);
      forall i | 0 <= i < |p| - 2
        ensures p[1..][i + 1] in g.deps(p[1..][i])
      {
        assert p[(i + 1) + 1] in g.deps(p[i + 1]);
      }
      PathStaysIn(g, s, p[1..]);
      forall i | 0 <= i < |p|
        ensures p[i] in s
      {
        if i > 0 {
          assert p[1..][i - 1] in s;
        }
      }
    }
  }

  /** A set closed under dependencies contains everything its members reach. */
  lemma ClosedSetContains<N(!new)>(g: Graph<N>, s: set<N>, a: N, b: N)
    requires ClosedUnderDeps(g, s) && a in s && Reaches(g, a, b)
    ensures b in s
  {
    var p :| PathBetween(g, p, a, b);
    PathStaysIn(g, s, p);
  }

  lemma PathWithoutLast<N>(g: Graph<N>, p: seq<N>)
    requires IsPath(g, p) && |p| >= 2
    ensures IsPath(g, p[..|p| - 1]) && p[|p| - 1] in g.deps(p[|p| - 2])
  {
    assert p[|p| - 2 + 1] in g.deps(p[|p| - 2]);
  }

  lemma PathWithLast<N>(g: Graph<N>, p: seq<N>)
    requires |p| >= 2 && IsPath(g, p[..|p| - 1]) && p[|p| - 1] in g.deps(p[|p| - 2])
    ensures IsPath(g, p)
  {
    var init := p[..|p| - 1];
    forall i | 0 <= i < |p| - 1
      ensures p[i + 1] in g.deps(p[i])
    {
      if i < |p| - 2 {
        assert init[i + 1] in g.deps(init[i]);
      }
    }
  }

  /** What is reachable is a start node or a dependency of something reachable. */
  lemma ReachedFrom<N(!new)>(g: Graph<N>, start: seq<N>, n: N)
    requires Reachable(g, start, n)
    ensures n in start || exists m :: Reachable(g, start, m) && n in g.deps(m)
  {
    var a :| a in start && Reaches(g, a, n);
    var p :| PathBetween(g, p, a, n);
    if |p| > 1 {
      PathWithoutLast(g, p);
      assert PathBetween(g, p[..|p| - 1], a, p[|p| - 2]);
    }
  }

  ghost predicate AgreeOnReachable<N(!new)>(g: Graph<N>, h: Graph<N>, start: seq<N>) {
    forall n :: Reachable(g, start, n) ==> g.deps(n) == h.deps(n)
  }

  lemma {:induction false} PathFromReachable<N(!new)>(g: Graph<N>, h: Graph<N>, start: seq<N>, p: seq<N>)
    requires AgreeOnReachable(g, h, start) && p != [] && Reachable(g, start, p[0])
    requires IsPath(g, p) || IsPath(h, p)
    ensures IsPath(g, p) && IsPath(h, p) && Reachable(g, start, p[|p| - 1])
  {
    if |p| > 1 {
      PathWithoutLast(if IsPath(g, p) then g else h, p);
      PathFromReachable(g, h, start, p[..|p| - 1]);
      ReachableStep(g, start, p[|p| - 2], p[|p| - 1]);
      PathWithLast(g, p);
      PathWithLast(h, p);
    }
  }

  /** Graphs that agree wherever one of them leads have the same reachable nodes. */
  lemma AgreementOnReachable<N(!new)>(g: Graph<N>, h: Graph<N>, start: seq<N>, n: N)
    requires AgreeOnReachable(g, h, start)
    ensures Reachable(g, start, n) <==> Reachable(h, start, n)
  {
    forall a, p | a in start && (PathBetween(g, p, a, n) || PathBetween(h, p, a, n))
      ensures PathBetween(g, p, a, n) && PathBetween(h, p, a, n)
    {
      ReachesSelf(g, a);
      PathFromReachable(g, h, start, p);
    }
    if Reachable(g, start, n) {
      var a :| a in start && Reaches(g, a, n);
      var p :| PathBetween(g, p, a, n);
      assert PathBetween(h, p, a, n);
    }
    if Reachable(h, start, n) {
      var a :| a in start && Reaches(h, a, n);
      var p :| PathBetween(h, p, a, n);
      assert PathBetween(g, p, a, n);
    }
  }

  ghost predicate NoDuplicates<T>(p: seq<T>) {
    forall i, j :: 0 <= i < j < |p| ==> p[i] != p[j]
  }

  /** The pigeonhole principle for sequences drawn from a finite set. */
  lemma {:induction false} DistinctWithin<T>(p: seq<T>, s: set<T>)
    requires NoDuplicates(p) && forall i :: 0 <= i < |p| ==> p[i] in s
    ensures |p| <= |s|
  {
    if p != [] {
      var last := |p| - 1;
      DistinctWithin(p[..last], s - {p[last]});
    }
  }

  /** Every member of s has some dependency inside s. */
  ghost predicate Stuck<N(!new)>(g: Graph<N>, s: set<N>) {
    forall n {:trigger HasDepIn(g, s, n)} :: n in s ==> HasDepIn(g, s, n)
  }

  ghost predicate HasDepIn<N(!new)>(g: Graph<N>, s: set<N>, n: N) {
    exists m :: m in g.deps(n) && m in s
  }

  /** Walking inside a stuck finite set must revisit a node. */
  lemma {:induction false} StuckWalk<N(!new)>(g: Graph<N>, s: set<N>, p: seq<N>)
    requires Stuck(g, s) && IsPath(g, p) && NoDuplicates(p)
    requires forall i :: 0 <= i < |p| ==> p[i] in s
    ensures ReachesCycle(g, p[0])
    decreases |s| - |p|
  {
    DistinctWithin(p, s);
    var last := p[|p| - 1];
    assert last in s && HasDepIn(g, s, last);
    var m :| m in g.deps(last) && m in s;
    if m in p {
      var i :| 0 <= i < |p| && p[i] == m;
      assert PathBetween(g, p[..i + 1], p[0], m);
      var loop := p[i..] + [m];
      assert IsPath(g, loop);
      assert PathBetween(g, loop, m, m) && |loop| >= 2;
      assert Reaches(g, p[0], m) && OnCycle(g, m);
    } else {
      var q := p + [m];
      assert forall i :: 0 <= i < |q| ==> q[i] in s;
      DistinctWithin(q, s);
      StuckWalk(g, s, q);
    }
  }

  lemma StuckReachesCycle<N(!new)>(g: Graph<N>, s: set<N>, n: N)
    requires Stuck(g, s) && n in s
    ensures ReachesCycle(g, n)
  {
    StuckWalk(g, s, [n]);
  }
}
