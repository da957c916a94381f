/** Every update of the tables keeps the inductive invariant. */
module DagTablesProofs {
  import opened Graphs
  import opened DagTables

  // ---- Counting entries of lists ----

  lemma {:induction false} OccurrencesAbsent<T>(s: seq<T>, x: T)
    ensures Occurrences(s, x) > 0 <==> x in s
  {
    if s != [] {
      OccurrencesAbsent(s[..|s| - 1], x);
      assert s == s[..|s| - 1] + [s[|s| - 1]];
    }
  }

  lemma OccurrencesAppend<T>(s: seq<T>, y: T, x: T)
    ensures Occurrences(s + [y], x) == Occurrences(s, x) + if x == y then 1 else 0
  {
    assert (s + [y])[..|s|] == s;
  }

  lemma {:induction false} PendingVisit<N>(visited: set<N>, n: N, ds: seq<N>)
    requires n !in visited
    ensures Pending(visited + {n}, ds) == Pending(visited, ds) - Occurrences(ds, n)
  {
    if ds != [] {
      PendingVisit(visited, n, ds[..|ds| - 1]);
    }
  }

  lemma {:induction false} PendingZero<N>(visited: set<N>, ds: seq<N>)
    ensures Pending(visited, ds) == 0 <==> forall d :: d in ds ==> d in visited
  {
    if ds != [] {
      PendingZero(visited, ds[..|ds| - 1]);
      assert ds == ds[..|ds| - 1] + [ds[|ds| - 1]];
    }
  }

  lemma {:induction false} PendingSomeoneIsOut<N>(visited: set<N>, ds: seq<N>) returns (d: N)
    requires Pending(visited, ds) > 0
    ensures d in ds && d !in visited
  {
    var last := |ds| - 1;
    if ds[last] in visited {
      d := PendingSomeoneIsOut(visited, ds[..last]);
    } else {
      d := ds[last];
    }
  }

  lemma NoDuplicatesAppend<T>(s: seq<T>, x: T)
    requires NoDuplicates(s) && x !in s
    ensures NoDuplicates(s + [x])
  {
    forall i, j | 0 <= i < j < |s + [x]|
      ensures (s + [x])[i] != (s + [x])[j]
    {
      assert s[i] in s;
    }
  }

  // ---- addNodes ----

  ghost predicate Extends<N(!new)>(t: Tables<N>, r: Tables<N>) {
    && (forall n :: n in t.nodes ==> n in r.nodes && r.nodes[n] == t.nodes[n])
    && (forall n :: n in r.nodes && n !in t.nodes ==> r.nodes[n] == Info(DependenciesUnresolved, 0, []))
    && r.toVisit == t.toVisit && r.unsatisfied == t.unsatisfied
  }

  lemma AddNodeKeeps<N(!new)>(g: Graph<N>, t: Tables<N>, n: N, resolving: set<N>, visiting: set<N>)
    requires TablesInv(g, t, resolving, visiting)
    ensures TablesInv(g, AddNode(t, n), resolving, visiting)
    ensures Extends(t, AddNode(t, n))
  {
    if n !in t.nodes {
      var r := AddNode(t, n);
      NoDuplicatesAppend(t.toResolve, n);
      assert VisitedNodes(r) == VisitedNodes(t);
      forall m | m in r.nodes
        ensures NodeOk(g, r, m)
      {
        assert m in t.nodes ==> NodeOk(g, t, m);
      }
      forall m, k | m in r.nodes
        ensures Occurrences(r.nodes[m].dependants, k) == Links(g, r, m, k)
      {
        if m != n {
          assert Occurrences(t.nodes[m].dependants, k) == Links(g, t, m, k);
        } else if HasStatus(t, k, DependenciesUnsatisfied) {
          assert NodeOk(g, t, k);
          OccurrencesAbsent(g.deps(k), n);
        }
      }
    }
  }

  lemma {:induction false} AddNodesKeeps<N(!new)>(g: Graph<N>, t: Tables<N>, ns: seq<N>,
                                                 resolving: set<N>, visiting: set<N>)
    requires TablesInv(g, t, resolving, visiting)
    ensures TablesInv(g, AddNodes(t, ns), resolving, visiting)
    ensures Extends(t, AddNodes(t, ns))
  {
    if ns != [] {
      var last := |ns| - 1;
      AddNodesKeeps(g, t, ns[..last], resolving, visiting);
      AddNodeKeeps(g, AddNodes(t, ns[..last]), ns[last], resolving, visiting);
    }
  }

  // ---- resolveOne ----

  /** Exactly what noting the dependencies ds of n does to the record of m. */
  ghost predicate Noted<N(!new)>(t: Tables<N>, r: Tables<N>, n: N, ds: seq<N>, m: N)
    requires m in t.nodes && m in r.nodes
  {
    && r.nodes[m].status == t.nodes[m].status
    && r.nodes[m].depsUnsatisfied
       == t.nodes[m].depsUnsatisfied + (if m == n then Pending(VisitedNodes(t), ds) else 0)
    && forall k {:trigger Occurrences(r.nodes[m].dependants, k)} ::
         Occurrences(r.nodes[m].dependants, k)
         == Occurrences(t.nodes[m].dependants, k)
            + if k == n && t.nodes[m].status != Visited then Occurrences(ds, m) else 0
  }

  lemma {:induction false} NoteDepsEffect<N(!new)>(t: Tables<N>, n: N, ds: seq<N>)
    requires n in t.nodes && forall d :: d in ds ==> d in t.nodes
    ensures var r := NoteDeps(t, n, ds);
      && r.toResolve == t.toResolve && r.toVisit == t.toVisit && r.unsatisfied == t.unsatisfied
      && forall m :: m in t.nodes ==> Noted(t, r, n, ds, m)
  {
    if ds == [] {
      assert forall m :: Occurrences(ds, m) == 0;
    } else {
      var last := |ds| - 1;
      NoteDepsEffect(t, n, ds[..last]);
      var p := NoteDeps(t, n, ds[..last]);
      var r := NoteDeps(t, n, ds);
      forall m | m in t.nodes
        ensures Noted(t, r, n, ds, m)
      {
        assert Noted(t, p, n, ds[..last], m) && Noted(t, p, n, ds[..last], ds[last]);
        forall k
          ensures Occurrences(r.nodes[m].dependants, k)
               == Occurrences(t.nodes[m].dependants, k)
                  + if k == n && t.nodes[m].status != Visited then Occurrences(ds, m) else 0
        {
          assert Occurrences(p.nodes[m].dependants, k)
              == Occurrences(t.nodes[m].dependants, k)
                 + if k == n && t.nodes[m].status != Visited then Occurrences(ds[..last], m) else 0;
          OccurrencesAppend(p.nodes[m].dependants, n, k);
        }
      }
    }
  }

  /** r has the records of t and of ds, and n is the only one whose status differs from t's. */
  ghost predicate ResolvesOnly<N(!new)>(t: Tables<N>, r: Tables<N>, n: N, ds: seq<N>) {
    && (forall m :: m in r.nodes <==> m in t.nodes || m in ds)
    && (forall m :: m in t.nodes && m != n ==> r.nodes[m].status == t.nodes[m].status)
    && (forall m :: m in r.nodes && m !in t.nodes ==> r.nodes[m].status == DependenciesUnresolved)
    && n in t.nodes
    && (r.nodes[n].status == Unvisited || r.nodes[n].status == DependenciesUnsatisfied)
  }

  lemma FinishResolveKeeps<N(!new)>(g: Graph<N>, t: Tables<N>, n: N,
                                    resolving: set<N>, visiting: set<N>)
    requires TablesInv(g, t, resolving, visiting)
    requires n in resolving && g.resolvable(n)
    ensures TablesInv(g, FinishResolve(t, n, g.deps(n)), resolving - {n}, visiting)
    ensures ResolvesOnly(t, FinishResolve(t, n, g.deps(n)), n, g.deps(n))
  {
    var ds := g.deps(n);
    var a := AddNodes(t, ds);
    AddNodesKeeps(g, t, ds, resolving, visiting);
    var b := NoteDeps(a, n, ds);
    NoteDepsEffect(a, n, ds);
    var r := Settle(b, n);
    SettleCounts(g, a, b, n);
    SettleBacklinks(g, a, b, n);
    SettleLists(g, a, b, n, resolving, visiting);
    forall m | m in t.nodes && m != n
      ensures r.nodes[m].status == t.nodes[m].status
    {
      assert HasStatus(r, m, a.nodes[m].status);
    }
    forall m | m in r.nodes && m !in t.nodes
      ensures r.nodes[m].status == DependenciesUnresolved
    {
      assert HasStatus(r, m, a.nodes[m].status);
    }
  }

  lemma SettleLists<N(!new)>(g: Graph<N>, a: Tables<N>, b: Tables<N>, n: N,
                             resolving: set<N>, visiting: set<N>)
    requires TablesInv(g, a, resolving, visiting) && n in resolving
    requires a.nodes.Keys == b.nodes.Keys
    requires b.toResolve == a.toResolve && b.toVisit == a.toVisit && b.unsatisfied == a.unsatisfied
    requires forall m :: m in a.nodes ==> Noted(a, b, n, g.deps(n), m)
    ensures var r := Settle(b, n);
      && Worklist(r, r.toResolve, DependenciesUnresolved, resolving - {n})
      && Worklist(r, r.toVisit, Unvisited, visiting)
      && forall m :: m in r.unsatisfied <==> HasStatus(r, m, DependenciesUnsatisfied)
    ensures forall m, status :: m != n ==> (HasStatus(Settle(b, n), m, status) <==> HasStatus(a, m, status))
  {
    var r := Settle(b, n);
    assert HasStatus(a, n, DependenciesUnresolved);
    forall m, status | m != n
      ensures HasStatus(r, m, status) <==> HasStatus(a, m, status)
    {
      if m in a.nodes {
        assert Noted(a, b, n, g.deps(n), m);
      }
    }
    NoDuplicatesAppend(a.toVisit, n);
  }

  lemma SettleCounts<N(!new)>(g: Graph<N>, a: Tables<N>, b: Tables<N>, n: N)
    requires Counts(g, a) && HasStatus(a, n, DependenciesUnresolved) && g.resolvable(n)
    requires a.nodes.Keys == b.nodes.Keys
    requires forall d :: d in g.deps(n) ==> d in a.nodes
    requires forall m :: m in a.nodes ==> Noted(a, b, n, g.deps(n), m)
    ensures Counts(g, Settle(b, n))
  {
    var r := Settle(b, n);
    forall m | m in a.nodes
      ensures Noted(a, b, n, g.deps(n), m) && NodeOk(g, a, m)
    {
    }
    assert VisitedNodes(r) == VisitedNodes(a);
    forall m | m in r.nodes
      ensures NodeOk(g, r, m)
    {
      assert Noted(a, b, n, g.deps(n), m) && NodeOk(g, a, m);
    }
  }

  lemma SettleBacklinks<N(!new)>(g: Graph<N>, a: Tables<N>, b: Tables<N>, n: N)
    requires Counts(g, a) && Backlinks(g, a) && HasStatus(a, n, DependenciesUnresolved)
    requires a.nodes.Keys == b.nodes.Keys
    requires forall m :: m in a.nodes ==> Noted(a, b, n, g.deps(n), m)
    ensures Backlinks(g, Settle(b, n))
  {
    var ds := g.deps(n);
    var r := Settle(b, n);
    assert Noted(a, b, n, ds, n) && NodeOk(g, a, n);
    forall m, k | m in r.nodes
      ensures Occurrences(r.nodes[m].dependants, k) == Links(g, r, m, k)
    {
      assert Noted(a, b, n, ds, m);
      assert Occurrences(a.nodes[m].dependants, k) == Links(g, a, m, k);
      assert r.nodes[m].dependants == b.nodes[m].dependants;
      if k == n {
        if r.nodes[n].status != DependenciesUnsatisfied {
          PendingZero(VisitedNodes(a), ds);
          OccurrencesAbsent(ds, m);
        }
      } else if k in a.nodes {
        assert Noted(a, b, n, ds, k);
      }
    }
  }

  // ---- visitOne ----

  /** Exactly what telling the entries of ds about a visit does to the record of m. */
  ghost predicate Told<N(!new)>(t: Tables<N>, r: Tables<N>, ds: seq<N>, m: N)
    requires m in t.nodes && m in r.nodes
  {
    && r.nodes[m].depsUnsatisfied == t.nodes[m].depsUnsatisfied - Occurrences(ds, m)
    && r.nodes[m].dependants == t.nodes[m].dependants
    && r.nodes[m].status == if Freed(t, ds, m) then Unvisited else t.nodes[m].status
  }

  /** The entries of ds for m account for all it was waiting for. */
  predicate Freed<N(==)>(t: Tables<N>, ds: seq<N>, m: N) {
    m in t.nodes && m in ds && t.nodes[m].depsUnsatisfied == Occurrences(ds, m)
  }

  ghost predicate ToldLists<N(!new)>(t: Tables<N>, r: Tables<N>, ds: seq<N>) {
    && r.toResolve == t.toResolve
    && (forall m :: m in r.unsatisfied <==> m in t.unsatisfied && !Freed(t, ds, m))
    && (forall m :: m in r.toVisit <==> m in t.toVisit || Freed(t, ds, m))
    && NoDuplicates(r.toVisit)
  }

  ghost predicate EntriesWait<N(!new)>(t: Tables<N>, ds: seq<N>) {
    && NoDuplicates(t.toVisit)
    && forall d {:trigger Occurrences(ds, d)} :: d in ds ==>
        && d in t.nodes && d !in t.toVisit
        && Occurrences(ds, d) <= t.nodes[d].depsUnsatisfied
  }

  lemma {:induction false} SatisfyAllEffect<N(!new)>(t: Tables<N>, ds: seq<N>)
    requires forall d :: d in ds ==> d in t.nodes
    requires EntriesWait(t, ds)
    ensures var r := SatisfyAll(t, ds);
      ToldLists(t, r, ds) && forall m :: m in t.nodes ==> Told(t, r, ds, m)
  {
    if ds != [] {
      var last := |ds| - 1;
      var e := ds[last];
      var init := ds[..last];
      assert ds == init + [e];
      forall d | d in ds
        ensures d in t.nodes && d !in t.toVisit && Occurrences(init, d) <= Occurrences(ds, d) <= t.nodes[d].depsUnsatisfied
      {
        OccurrencesAppend(init, e, d);
      }
      SatisfyAllEffect(t, init);
      var p := SatisfyAll(t, init);
      var r := Satisfy(p, e);
      forall m
        ensures Freed(t, ds, m) <==> Freed(t, init, m) || (m == e && p.nodes[e].depsUnsatisfied == 1)
      {
        OccurrencesAppend(init, e, m);
        OccurrencesAbsent(init, m);
        assert Told(t, p, init, e);
      }
      assert !Freed(t, init, e) by {
        OccurrencesAppend(init, e, e);
      }
      forall m | m in t.nodes
        ensures Told(t, r, ds, m)
      {
        assert Told(t, p, init, m);
        OccurrencesAppend(init, e, m);
      }
    }
  }

  /** n is the only node that r has as visited and t has not, and nothing became unresolved. */
  ghost predicate VisitsOnly<N(!new)>(t: Tables<N>, r: Tables<N>, n: N) {
    && r.nodes.Keys == t.nodes.Keys
    && r.toResolve == t.toResolve
    && n in t.nodes && t.nodes[n].status == Unvisited
    && (forall m :: m in t.nodes ==>
          && (r.nodes[m].status == Visited <==> t.nodes[m].status == Visited || m == n)
          && (r.nodes[m].status == DependenciesUnresolved <==> t.nodes[m].status == DependenciesUnresolved))
  }

  lemma FinishVisitKeeps<N(!new)>(g: Graph<N>, t: Tables<N>, n: N,
                                  resolving: set<N>, visiting: set<N>)
    requires TablesInv(g, t, resolving, visiting)
    requires n in visiting && g.visitable(n)
    ensures forall d :: d in t.nodes[n].dependants ==> HasStatus(t, d, DependenciesUnsatisfied)
    ensures TablesInv(g, FinishVisit(t, n), resolving, visiting - {n})
    ensures VisitsOnly(t, FinishVisit(t, n), n)
  {
    assert HasStatus(t, n, Unvisited);
    var ds := t.nodes[n].dependants;
    DependantsWait(g, t, n);
    forall d | d in ds
      ensures d !in t.toVisit
    {
      assert HasStatus(t, d, DependenciesUnsatisfied);
    }
    SatisfyAllEffect(t, ds);
    var s := SatisfyAll(t, ds);
    VisitCounts(g, t, s, n);
    VisitBacklinks(g, t, s, n);
    VisitLists(g, t, s, n, resolving, visiting);
    VisitStatuses(g, t, s, n);
  }

  lemma VisitStatuses<N(!new)>(g: Graph<N>, t: Tables<N>, s: Tables<N>, n: N)
    requires AllTold(g, t, s, n) && s.toResolve == t.toResolve
    ensures VisitsOnly(t, MarkVisited(s, n), n)
  {
    var r := MarkVisited(s, n);
    forall m | m in t.nodes
      ensures r.nodes[m].status == Visited <==> t.nodes[m].status == Visited || m == n
      ensures r.nodes[m].status == DependenciesUnresolved <==> t.nodes[m].status == DependenciesUnresolved
    {
      assert Told(t, s, t.nodes[n].dependants, m);
    }
  }

  lemma DependantsWait<N(!new)>(g: Graph<N>, t: Tables<N>, n: N)
    requires Counts(g, t) && Backlinks(g, t) && HasStatus(t, n, Unvisited)
    ensures var ds := t.nodes[n].dependants;
      forall d {:trigger Occurrences(ds, d)} ::
        && Occurrences(ds, d) == Links(g, t, n, d)
        && (d in t.nodes ==> Occurrences(ds, d) <= t.nodes[d].depsUnsatisfied)
    ensures forall d :: d in t.nodes[n].dependants ==> HasStatus(t, d, DependenciesUnsatisfied)
  {
    var ds := t.nodes[n].dependants;
    forall d
      ensures Occurrences(ds, d) == Links(g, t, n, d)
      ensures d in ds ==> HasStatus(t, d, DependenciesUnsatisfied)
      ensures d in t.nodes ==> Occurrences(ds, d) <= t.nodes[d].depsUnsatisfied
    {
      OccurrencesAbsent(ds, d);
      if d in t.nodes {
        assert NodeOk(g, t, d);
        PendingVisit(VisitedNodes(t), n, g.deps(d));
      }
    }
  }

  /** r is s with n itself recorded as visited: the last step of FinishVisit. */
  function MarkVisited<N(==)>(s: Tables<N>, n: N): Tables<N>
    requires n in s.nodes
  {
    s.(nodes := s.nodes[n := s.nodes[n].(dependants := [], status := Visited)])
  }

  ghost predicate AllTold<N(!new)>(g: Graph<N>, t: Tables<N>, s: Tables<N>, n: N) {
    && HasStatus(t, n, Unvisited)
    && s.nodes.Keys == t.nodes.Keys
    && Counts(g, t)
    && (forall d {:trigger Occurrences(t.nodes[n].dependants, d)} ::
          Occurrences(t.nodes[n].dependants, d) == Links(g, t, n, d))
    && (forall d :: d in t.nodes[n].dependants ==> HasStatus(t, d, DependenciesUnsatisfied))
    && (forall m :: m in t.nodes ==> Told(t, s, t.nodes[n].dependants, m))
  }

  lemma VisitCounts<N(!new)>(g: Graph<N>, t: Tables<N>, s: Tables<N>, n: N)
    requires AllTold(g, t, s, n) && g.visitable(n)
    ensures Counts(g, MarkVisited(s, n))
  {
    var ds := t.nodes[n].dependants;
    var r := MarkVisited(s, n);
    forall m | m in t.nodes
      ensures Told(t, s, ds, m) && NodeOk(g, t, m)
    {
    }
    assert VisitedNodes(r) == VisitedNodes(t) + {n};
    forall m | m in r.nodes
      ensures NodeOk(g, r, m)
    {
      assert Told(t, s, ds, m) && NodeOk(g, t, m);
      assert Occurrences(ds, m) == Links(g, t, n, m);
      PendingVisit(VisitedNodes(t), n, g.deps(m));
      OccurrencesAbsent(ds, m);
    }
  }

  lemma VisitBacklinks<N(!new)>(g: Graph<N>, t: Tables<N>, s: Tables<N>, n: N)
    requires AllTold(g, t, s, n) && Backlinks(g, t)
    ensures Backlinks(g, MarkVisited(s, n))
  {
    var ds := t.nodes[n].dependants;
    var r := MarkVisited(s, n);
    forall m, k | m in r.nodes
      ensures Occurrences(r.nodes[m].dependants, k) == Links(g, r, m, k)
    {
      if m != n {
        assert Told(t, s, ds, m);
        assert Occurrences(t.nodes[m].dependants, k) == Links(g, t, m, k);
        if k in t.nodes {
          assert Told(t, s, ds, k) && NodeOk(g, t, k);
          if Freed(t, ds, k) {
            assert Occurrences(ds, k) == Links(g, t, n, k);
            PendingVisit(VisitedNodes(t), n, g.deps(k));
            PendingZero(VisitedNodes(t) + {n}, g.deps(k));
            OccurrencesAbsent(g.deps(k), m);
          }
        }
      }
    }
  }

  lemma VisitLists<N(!new)>(g: Graph<N>, t: Tables<N>, s: Tables<N>, n: N,
                            resolving: set<N>, visiting: set<N>)
    requires AllTold(g, t, s, n) && TablesInv(g, t, resolving, visiting) && n in visiting
    requires ToldLists(t, s, t.nodes[n].dependants)
    ensures var r := MarkVisited(s, n);
      && Worklist(r, r.toResolve, DependenciesUnresolved, resolving)
      && Worklist(r, r.toVisit, Unvisited, visiting - {n})
      && forall m :: m in r.unsatisfied <==> HasStatus(r, m, DependenciesUnsatisfied)
  {
    var ds := t.nodes[n].dependants;
    var r := MarkVisited(s, n);
    forall m | m != n
      ensures HasStatus(r, m, DependenciesUnresolved) <==> HasStatus(t, m, DependenciesUnresolved)
      ensures HasStatus(r, m, DependenciesUnsatisfied)
         <==> HasStatus(t, m, DependenciesUnsatisfied) && !Freed(t, ds, m)
      ensures HasStatus(r, m, Unvisited) <==> HasStatus(t, m, Unvisited) || Freed(t, ds, m)
    {
      if m in t.nodes {
        assert Told(t, s, ds, m);
      }
    }
  }
}
