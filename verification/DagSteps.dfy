/** The invariant holds at the start and is kept by every step of every worker. */
module DagSteps {
  import opened Wrappers
  import opened Graphs
  import opened DagTables
  import opened DagTablesProofs
  import opened DagState
  import opened DagInvariant

  lemma InitTables<N(!new)>(g: Graph<N>, start: seq<N>)
    ensures var t := AddNodes(EmptyShared<N>().tables, start); TablesInv(g, t, {}, {}) && Origin(g, start, t)
  {
    AddNodesKeeps(g, EmptyShared<N>().tables, start, {}, {});
    forall n | n in start
      ensures Reachable(g, start, n)
    {
      ReachesSelf(g, n);
    }
  }

  lemma InitLog<N(!new)>(g: Graph<N>, start: seq<N>, resolverParallelism: nat, visitorParallelism: nat)
    ensures var s := Init(start, resolverParallelism, visitorParallelism);
      LogOk(g, s.log) && LogAgrees(s) && Begun(s, Resolve) == {} && Begun(s, Visit) == {}
  {
    AddNodesKeeps(g, EmptyShared<N>().tables, start, {}, {});
  }

  lemma InitWorkers<N(!new)>(start: seq<N>, resolverParallelism: nat, visitorParallelism: nat)
    ensures WorkersOk(Init(start, resolverParallelism, visitorParallelism))
  {
    var s := Init(start, resolverParallelism, visitorParallelism);
    CountCallingZero(s.resolvers);
    CountCallingZero(s.visitors);
    forall kind, n
      ensures !InFlight(s.log, kind, n) && Calling(n) !in s.Workers(kind)
    {
    }
  }

  lemma InitInv<N(!new)>(g: Graph<N>, start: seq<N>, resolverParallelism: nat, visitorParallelism: nat)
    ensures SysInv(g, start, Init(start, resolverParallelism, visitorParallelism))
  {
    InitTables(g, start);
    InitLog(g, start, resolverParallelism, visitorParallelism);
    InitWorkers(start, resolverParallelism, visitorParallelism);
  }

  // ---- A call begins ----

  lemma PopWorklist<N(!new)>(t: Tables<N>, list: seq<N>, status: Status, begun: set<N>)
    requires Worklist(t, list, status, begun) && list != []
    ensures Worklist(t, list[..|list| - 1], status, begun + {list[|list| - 1]})
  {
    var last := |list| - 1;
    assert list == list[..last] + [list[last]];
  }

  lemma OtherKind<N(!new)>(pcs: seq<Pc<N>>, busy: int, log: seq<Event<N>>, kind: Kind, e: Event<N>)
    requires CallsMatch(pcs, busy, log, kind) && e.kind != kind
    ensures CallsMatch(pcs, busy, log + [e], kind)
  {
    forall n
      ensures InFlight(log + [e], kind, n) <==> InFlight(log, kind, n)
    {
    }
  }

  /** Tables that differ only in their worklists satisfy the same counts and links. */
  lemma SameNodes<N(!new)>(g: Graph<N>, t: Tables<N>, t': Tables<N>)
    requires Counts(g, t) && Backlinks(g, t) && t'.nodes == t.nodes
    ensures Counts(g, t') && Backlinks(g, t')
  {
    assert VisitedNodes(t') == VisitedNodes(t);
    forall n | n in t'.nodes
      ensures NodeOk(g, t', n)
    {
      assert NodeOk(g, t, n);
    }
    forall m, n | m in t'.nodes
      ensures Occurrences(t'.nodes[m].dependants, n) == Links(g, t', m, n)
    {
      assert Occurrences(t.nodes[m].dependants, n) == Links(g, t, m, n);
    }
  }

  lemma PopToResolve<N(!new)>(g: Graph<N>, t: Tables<N>, resolving: set<N>, visiting: set<N>)
    requires TablesInv(g, t, resolving, visiting) && t.toResolve != []
    ensures var last := |t.toResolve| - 1;
      TablesInv(g, t.(toResolve := t.toResolve[..last]), resolving + {t.toResolve[last]}, visiting)
  {
    var last := |t.toResolve| - 1;
    var t' := t.(toResolve := t.toResolve[..last]);
    PopWorklist(t, t.toResolve, DependenciesUnresolved, resolving);
    SameNodes(g, t, t');
  }

  lemma PopToVisit<N(!new)>(g: Graph<N>, t: Tables<N>, resolving: set<N>, visiting: set<N>)
    requires TablesInv(g, t, resolving, visiting) && t.toVisit != []
    ensures var last := |t.toVisit| - 1;
      TablesInv(g, t.(toVisit := t.toVisit[..last]), resolving, visiting + {t.toVisit[last]})
  {
    var last := |t.toVisit| - 1;
    var t' := t.(toVisit := t.toVisit[..last]);
    PopWorklist(t, t.toVisit, Unvisited, visiting);
    SameNodes(g, t, t');
  }

  /** The next node on a worklist has not been called before. */
  lemma NextIsFresh<N(!new)>(g: Graph<N>, s: Sys<N>, kind: Kind, n: N)
    requires LogOk(g, s.log) && LogAgrees(s)
    requires HasStatus(s.shared.tables, n, if kind == Resolve then DependenciesUnresolved else Unvisited)
    requires n !in Begun(s, kind)
    ensures forall phase :: Event(kind, phase, n) !in s.log
  {
    assert Event(kind, Done, n) !in s.log;
    assert Event(kind, Began, n) !in s.log;
    LogConsistent(g, s.log, kind, n);
    forall phase
      ensures Event(kind, phase, n) !in s.log
    {
      match phase case Began => case Done => case Failed =>
    }
  }

  ghost predicate Begins<N>(s: Sys<N>, s': Sys<N>, kind: Kind, n: N) {
    && s'.log == s.log + [Event(kind, Began, n)]
    && s'.shared.tables.nodes == s.shared.tables.nodes
    && s'.shared.firstErr == s.shared.firstErr
    && n in s.shared.tables.nodes
  }

  lemma BeginBegun<N(!new)>(s: Sys<N>, s': Sys<N>, kind: Kind, n: N)
    requires Begins(s, s', kind, n) && Event(kind, Done, n) !in s.log
    ensures Begun(s', kind) == Begun(s, kind) + {n}
    ensures forall other :: other != kind ==> Begun(s', other) == Begun(s, other)
  {
  }

  lemma BeginLog<N(!new)>(g: Graph<N>, s: Sys<N>, s': Sys<N>, kind: Kind, n: N)
    requires LogOk(g, s.log) && LogAgrees(s) && Begins(s, s', kind, n)
    requires s.shared.firstErr.None? && Event(kind, Began, n) !in s.log
    requires kind == Visit ==> Counts(g, s.shared.tables) && HasStatus(s.shared.tables, n, Unvisited)
    ensures LogOk(g, s'.log) && LogAgrees(s')
  {
    if kind == Visit {
      assert NodeOk(g, s.shared.tables, n);
      PendingZero(VisitedNodes(s.shared.tables), g.deps(n));
    }
    LogAppend(g, s.log, Event(kind, Began, n));
  }

  ghost predicate AboutToBegin<N(!new)>(s: Sys<N>, kind: Kind, w: nat) {
    && w < |s.Workers(kind)| && s.Workers(kind)[w] == AtHead && w !in s.Asleep(kind)
    && s.ShouldWake(kind) && !s.ShouldExit(kind)
  }

  lemma BeginResolveWorkers<N(!new)>(s: Sys<N>, w: nat)
    requires WorkersOk(s) && AboutToBegin(s, Resolve, w)
    requires forall phase :: Event(Resolve, phase, s.shared.NextToResolve()) !in s.log
    ensures WorkersOk(Begin(s, Resolve, w))
  {
    var n := s.shared.NextToResolve();
    BeginCall(s.resolvers, s.shared.busyResolvers, s.log, Resolve, w, n);
    OtherKind(s.visitors, s.shared.busyVisitors, s.log, Visit, Event(Resolve, Began, n));
    BeginResolveWakes(s.shared);
  }

  lemma BeginVisitWorkers<N(!new)>(s: Sys<N>, w: nat)
    requires WorkersOk(s) && AboutToBegin(s, Visit, w)
    requires forall phase :: Event(Visit, phase, s.shared.NextToVisit()) !in s.log
    ensures WorkersOk(Begin(s, Visit, w))
  {
    var n := s.shared.NextToVisit();
    BeginCall(s.visitors, s.shared.busyVisitors, s.log, Visit, w, n);
    OtherKind(s.resolvers, s.shared.busyResolvers, s.log, Resolve, Event(Visit, Began, n));
    BeginVisitWakes(s.shared);
  }

  lemma BeginResolveFresh<N(!new)>(g: Graph<N>, s: Sys<N>, w: nat)
    requires TablesInv(g, s.shared.tables, Begun(s, Resolve), Begun(s, Visit))
    requires LogOk(g, s.log) && LogAgrees(s) && AboutToBegin(s, Resolve, w)
    ensures HasStatus(s.shared.tables, s.shared.NextToResolve(), DependenciesUnresolved)
    ensures forall phase :: Event(Resolve, phase, s.shared.NextToResolve()) !in s.log
  {
    var n := s.shared.NextToResolve();
    assert n in s.shared.tables.toResolve;
    NextIsFresh(g, s, Resolve, n);
  }

  lemma BeginResolveTables<N(!new)>(g: Graph<N>, s: Sys<N>, w: nat)
    requires TablesInv(g, s.shared.tables, Begun(s, Resolve), Begun(s, Visit)) && AboutToBegin(s, Resolve, w)
    requires s.shared.NextToResolve() in s.shared.tables.nodes
    requires forall phase :: Event(Resolve, phase, s.shared.NextToResolve()) !in s.log
    ensures var s' := Begin(s, Resolve, w);
      TablesInv(g, s'.shared.tables, Begun(s', Resolve), Begun(s', Visit))
  {
    PopToResolve(g, s.shared.tables, Begun(s, Resolve), Begun(s, Visit));
    BeginBegun(s, Begin(s, Resolve, w), Resolve, s.shared.NextToResolve());
  }

  lemma BeginResolveLog<N(!new)>(g: Graph<N>, s: Sys<N>, w: nat)
    requires LogOk(g, s.log) && LogAgrees(s) && AboutToBegin(s, Resolve, w)
    requires s.shared.NextToResolve() in s.shared.tables.nodes
    requires forall phase :: Event(Resolve, phase, s.shared.NextToResolve()) !in s.log
    ensures LogOk(g, Begin(s, Resolve, w).log) && LogAgrees(Begin(s, Resolve, w))
  {
    BeginLog(g, s, Begin(s, Resolve, w), Resolve, s.shared.NextToResolve());
  }

  lemma BeginResolveKeeps<N(!new)>(g: Graph<N>, start: seq<N>, s: Sys<N>, w: nat)
    requires SysInv(g, start, s) && AboutToBegin(s, Resolve, w)
    ensures SysInv(g, start, Begin(s, Resolve, w))
  {
    BeginResolveFresh(g, s, w);
    BeginResolveTables(g, s, w);
    BeginResolveLog(g, s, w);
    BeginResolveWorkers(s, w);
  }

  lemma BeginVisitFresh<N(!new)>(g: Graph<N>, s: Sys<N>, w: nat)
    requires TablesInv(g, s.shared.tables, Begun(s, Resolve), Begun(s, Visit))
    requires LogOk(g, s.log) && LogAgrees(s) && AboutToBegin(s, Visit, w)
    ensures HasStatus(s.shared.tables, s.shared.NextToVisit(), Unvisited)
    ensures forall phase :: Event(Visit, phase, s.shared.NextToVisit()) !in s.log
  {
    var n := s.shared.NextToVisit();
    assert n in s.shared.tables.toVisit;
    NextIsFresh(g, s, Visit, n);
  }

  lemma BeginVisitTables<N(!new)>(g: Graph<N>, s: Sys<N>, w: nat)
    requires TablesInv(g, s.shared.tables, Begun(s, Resolve), Begun(s, Visit)) && AboutToBegin(s, Visit, w)
    requires s.shared.NextToVisit() in s.shared.tables.nodes
    requires forall phase :: Event(Visit, phase, s.shared.NextToVisit()) !in s.log
    ensures var s' := Begin(s, Visit, w);
      TablesInv(g, s'.shared.tables, Begun(s', Resolve), Begun(s', Visit))
  {
    PopToVisit(g, s.shared.tables, Begun(s, Resolve), Begun(s, Visit));
    BeginBegun(s, Begin(s, Visit, w), Visit, s.shared.NextToVisit());
  }

  lemma BeginVisitLog<N(!new)>(g: Graph<N>, s: Sys<N>, w: nat)
    requires LogOk(g, s.log) && LogAgrees(s) && AboutToBegin(s, Visit, w)
    requires Counts(g, s.shared.tables) && HasStatus(s.shared.tables, s.shared.NextToVisit(), Unvisited)
    requires forall phase :: Event(Visit, phase, s.shared.NextToVisit()) !in s.log
    ensures LogOk(g, Begin(s, Visit, w).log) && LogAgrees(Begin(s, Visit, w))
  {
    BeginLog(g, s, Begin(s, Visit, w), Visit, s.shared.NextToVisit());
  }

  lemma BeginVisitKeeps<N(!new)>(g: Graph<N>, start: seq<N>, s: Sys<N>, w: nat)
    requires SysInv(g, start, s) && AboutToBegin(s, Visit, w)
    ensures SysInv(g, start, Begin(s, Visit, w))
  {
    BeginVisitFresh(g, s, w);
    BeginVisitTables(g, s, w);
    BeginVisitLog(g, s, w);
    BeginVisitWorkers(s, w);
  }

  // ---- A call returns successfully ----

  /** A worker in a call is in one that has begun and has not ended. */
  lemma CallInProgress<N(!new)>(s: Sys<N>, kind: Kind, w: nat)
    requires LogAgrees(s) && WorkersOk(s) && w < |s.Workers(kind)| && s.Workers(kind)[w].Calling?
    ensures InFlight(s.log, kind, s.Workers(kind)[w].node)
    ensures s.Workers(kind)[w].node in Begun(s, kind)
    ensures kind == Resolve ==> s.shared.busyResolvers > 0
    ensures kind == Visit ==> s.shared.busyVisitors > 0
  {
    assert s.Workers(kind)[w] in s.Workers(kind);
    CountCallingZero(s.Workers(kind));
  }

  lemma EndBegun<N(!new)>(s: Sys<N>, s': Sys<N>, kind: Kind, n: N)
    requires LogAgrees(s) && s'.log == s.log + [Event(kind, Done, n)]
    requires s.shared.tables.nodes.Keys <= s'.shared.tables.nodes.Keys
    ensures Begun(s', kind) == Begun(s, kind) - {n}
    ensures forall other :: other != kind ==> Begun(s', other) == Begun(s, other)
  {
    forall k: Kind, m | Event(k, Began, m) in s'.log
      ensures m in s.shared.tables.nodes
    {
      assert Event(k, Began, m) in s.log;
    }
  }

  lemma EndLog<N(!new)>(g: Graph<N>, log: seq<Event<N>>, kind: Kind, n: N)
    requires LogOk(g, log) && InFlight(log, kind, n)
    ensures LogOk(g, log + [Event(kind, Done, n)])
    ensures LogOk(g, log + [Event(kind, Failed, n)])
  {
    LogAppend(g, log, Event(kind, Done, n));
    LogAppend(g, log, Event(kind, Failed, n));
  }

  lemma EndResolveAgrees<N(!new)>(s: Sys<N>, s': Sys<N>, n: N, ds: seq<N>)
    requires LogAgrees(s) && s'.log == s.log + [Event(Resolve, Done, n)]
    requires s'.shared.firstErr == s.shared.firstErr
    requires ResolvesOnly(s.shared.tables, s'.shared.tables, n, ds)
    requires HasStatus(s.shared.tables, n, DependenciesUnresolved)
    ensures LogAgrees(s')
  {
    var nodes := s'.shared.tables.nodes;
    forall m | m in nodes
      ensures Event(Resolve, Done, m) in s'.log <==> nodes[m].status != DependenciesUnresolved
      ensures Event(Visit, Done, m) in s'.log <==> nodes[m].status == Visited
    {
      if m !in s.shared.tables.nodes {
        assert Event(Resolve, Done, m) !in s.log && Event(Visit, Done, m) !in s.log;
      }
    }
    assert NoFailure(s'.log) <==> NoFailure(s.log);
  }

  lemma EndVisitAgrees<N(!new)>(s: Sys<N>, s': Sys<N>, n: N)
    requires LogAgrees(s) && s'.log == s.log + [Event(Visit, Done, n)]
    requires s'.shared.firstErr == s.shared.firstErr
    requires VisitsOnly(s.shared.tables, s'.shared.tables, n)
    ensures LogAgrees(s')
  {
    assert NoFailure(s'.log) <==> NoFailure(s.log);
  }

  lemma ResolveOrigin<N(!new)>(g: Graph<N>, start: seq<N>, t: Tables<N>, r: Tables<N>, n: N)
    requires Origin(g, start, t) && ResolvesOnly(t, r, n, g.deps(n))
    ensures Origin(g, start, r)
  {
    forall m | m in g.deps(n)
      ensures Reachable(g, start, m)
    {
      ReachableStep(g, start, n, m);
    }
  }

  /** What is left of the shared state after two updates, but for who is asleep. */
  lemma EndResolveWakes<N>(sh: Shared<N>, n: N, ds: seq<N>)
    requires NobodyOversleeps(sh) && n in sh.tables.nodes
    ensures var sh' := EndResolve(sh, n, ds);
      && NobodyOversleeps(sh') && FewerAsleep(sh, sh')
      && sh'.tables == FinishResolve(sh.tables, n, ds) && sh'.firstErr == sh.firstErr
      && sh'.busyResolvers == sh.busyResolvers - 1 && sh'.busyVisitors == sh.busyVisitors
  {
    var after := sh.(tables := FinishResolve(sh.tables, n, ds));
    UpdateWakes(sh, after);
    NoLongerBusyWakes(sh.Update(after));
  }

  lemma EndVisitWakes<N>(sh: Shared<N>, n: N)
    requires NobodyOversleeps(sh) && n in sh.tables.nodes
    requires forall d :: d in sh.tables.nodes[n].dependants ==> d in sh.tables.nodes
    ensures var sh' := EndVisit(sh, n);
      && NobodyOversleeps(sh') && FewerAsleep(sh, sh')
      && sh'.tables == FinishVisit(sh.tables, n) && sh'.firstErr == sh.firstErr
      && sh'.busyResolvers == sh.busyResolvers && sh'.busyVisitors == sh.busyVisitors - 1
  {
    var after := sh.(tables := FinishVisit(sh.tables, n));
    UpdateWakes(sh, after);
    NoLongerBusyWakes(sh.Update(after));
  }

  lemma DependantsExist<N(!new)>(g: Graph<N>, t: Tables<N>, n: N)
    requires Backlinks(g, t) && n in t.nodes
    ensures forall d :: d in t.nodes[n].dependants ==> d in t.nodes
  {
    forall d | d in t.nodes[n].dependants
      ensures d in t.nodes
    {
      OccurrencesAbsent(t.nodes[n].dependants, d);
      assert Occurrences(t.nodes[n].dependants, d) == Links(g, t, n, d);
    }
  }

  /** The tables and worklists can be updated without following a missing pointer. */
  lemma CallsAreDefined<N(!new)>(g: Graph<N>, start: seq<N>, s: Sys<N>, a: Action)
    requires SysInv(g, start, s) && Enabled(g, s, a)
    ensures Defined(s, a)
  {
    if a.Return? {
      CallInProgress(s, a.kind, a.w);
      DependantsExist(g, s.shared.tables, s.Workers(a.kind)[a.w].node);
    }
  }

  lemma EndResolveWorkers<N(!new)>(g: Graph<N>, s: Sys<N>, w: nat)
    requires LogAgrees(s) && WorkersOk(s) && Enabled(g, s, Return(Resolve, w, None))
    requires Defined(s, Return(Resolve, w, None))
    ensures WorkersOk(End(g, s, Resolve, w))
  {
    var n := s.resolvers[w].node;
    CallInProgress(s, Resolve, w);
    EndResolveWakes(s.shared, n, g.deps(n));
    EndCall(s.resolvers, s.shared.busyResolvers, s.log, Resolve, w, AtHead, Done);
    OtherKind(s.visitors, s.shared.busyVisitors, s.log, Visit, Event(Resolve, Done, n));
  }

  lemma EndVisitWorkers<N(!new)>(g: Graph<N>, s: Sys<N>, w: nat)
    requires LogAgrees(s) && WorkersOk(s) && Enabled(g, s, Return(Visit, w, None))
    requires Defined(s, Return(Visit, w, None))
    requires FinishVisit(s.shared.tables, s.visitors[w].node).toResolve == s.shared.tables.toResolve
    ensures WorkersOk(End(g, s, Visit, w))
  {
    var n := s.visitors[w].node;
    CallInProgress(s, Visit, w);
    EndVisitWakes(s.shared, n);
    EndCall(s.visitors, s.shared.busyVisitors, s.log, Visit, w, AtHead, Done);
    OtherKind(s.resolvers, s.shared.busyResolvers, s.log, Resolve, Event(Visit, Done, n));
  }

  lemma EndResolveTables<N(!new)>(g: Graph<N>, start: seq<N>, s: Sys<N>, w: nat)
    requires TablesInv(g, s.shared.tables, Begun(s, Resolve), Begun(s, Visit))
    requires Origin(g, start, s.shared.tables) && NobodyOversleeps(s.shared)
    requires Enabled(g, s, Return(Resolve, w, None)) && Defined(s, Return(Resolve, w, None))
    requires s.resolvers[w].node in Begun(s, Resolve)
    ensures var n, r := s.resolvers[w].node, End(g, s, Resolve, w).shared.tables;
      && TablesInv(g, r, Begun(s, Resolve) - {n}, Begun(s, Visit))
      && Origin(g, start, r)
      && ResolvesOnly(s.shared.tables, r, n, g.deps(n))
      && HasStatus(s.shared.tables, n, DependenciesUnresolved)
  {
    var n := s.resolvers[w].node;
    EndResolveWakes(s.shared, n, g.deps(n));
    FinishResolveKeeps(g, s.shared.tables, n, Begun(s, Resolve), Begun(s, Visit));
    ResolveOrigin(g, start, s.shared.tables, FinishResolve(s.shared.tables, n, g.deps(n)), n);
  }

  lemma EndVisitTables<N(!new)>(g: Graph<N>, start: seq<N>, s: Sys<N>, w: nat)
    requires TablesInv(g, s.shared.tables, Begun(s, Resolve), Begun(s, Visit))
    requires Origin(g, start, s.shared.tables) && NobodyOversleeps(s.shared)
    requires Enabled(g, s, Return(Visit, w, None)) && Defined(s, Return(Visit, w, None))
    requires s.visitors[w].node in Begun(s, Visit)
    ensures var n, r := s.visitors[w].node, End(g, s, Visit, w).shared.tables;
      && TablesInv(g, r, Begun(s, Resolve), Begun(s, Visit) - {n})
      && Origin(g, start, r)
      && VisitsOnly(s.shared.tables, r, n)
  {
    var n := s.visitors[w].node;
    EndVisitWakes(s.shared, n);
    FinishVisitKeeps(g, s.shared.tables, n, Begun(s, Resolve), Begun(s, Visit));
  }

  lemma EndResolveLog<N(!new)>(g: Graph<N>, s: Sys<N>, w: nat)
    requires LogOk(g, s.log) && LogAgrees(s) && NobodyOversleeps(s.shared)
    requires Enabled(g, s, Return(Resolve, w, None)) && Defined(s, Return(Resolve, w, None))
    requires var n := s.resolvers[w].node;
      && InFlight(s.log, Resolve, n) && HasStatus(s.shared.tables, n, DependenciesUnresolved)
      && ResolvesOnly(s.shared.tables, End(g, s, Resolve, w).shared.tables, n, g.deps(n))
    ensures var s' := End(g, s, Resolve, w);
      && LogOk(g, s'.log) && LogAgrees(s')
      && Begun(s', Resolve) == Begun(s, Resolve) - {s.resolvers[w].node}
      && Begun(s', Visit) == Begun(s, Visit)
  {
    var s' := End(g, s, Resolve, w);
    var n := s.resolvers[w].node;
    EndResolveWakes(s.shared, n, g.deps(n));
    EndLog(g, s.log, Resolve, n);
    EndResolveAgrees(s, s', n, g.deps(n));
    EndBegun(s, s', Resolve, n);
  }

  lemma EndVisitLog<N(!new)>(g: Graph<N>, s: Sys<N>, w: nat)
    requires LogOk(g, s.log) && LogAgrees(s) && NobodyOversleeps(s.shared)
    requires Enabled(g, s, Return(Visit, w, None)) && Defined(s, Return(Visit, w, None))
    requires var n := s.visitors[w].node;
      && InFlight(s.log, Visit, n)
      && VisitsOnly(s.shared.tables, End(g, s, Visit, w).shared.tables, n)
    ensures var s' := End(g, s, Visit, w);
      && LogOk(g, s'.log) && LogAgrees(s')
      && Begun(s', Resolve) == Begun(s, Resolve)
      && Begun(s', Visit) == Begun(s, Visit) - {s.visitors[w].node}
  {
    var s' := End(g, s, Visit, w);
    var n := s.visitors[w].node;
    EndVisitWakes(s.shared, n);
    EndLog(g, s.log, Visit, n);
    EndVisitAgrees(s, s', n);
    EndBegun(s, s', Visit, n);
  }

  lemma EndResolveKeeps<N(!new)>(g: Graph<N>, start: seq<N>, s: Sys<N>, w: nat)
    requires SysInv(g, start, s) && Enabled(g, s, Return(Resolve, w, None))
    requires Defined(s, Return(Resolve, w, None))
    ensures SysInv(g, start, End(g, s, Resolve, w))
  {
    CallInProgress(s, Resolve, w);
    EndResolveTables(g, start, s, w);
    EndResolveLog(g, s, w);
    EndResolveWorkers(g, s, w);
  }

  lemma EndVisitKeeps<N(!new)>(g: Graph<N>, start: seq<N>, s: Sys<N>, w: nat)
    requires SysInv(g, start, s) && Enabled(g, s, Return(Visit, w, None))
    requires Defined(s, Return(Visit, w, None))
    ensures SysInv(g, start, End(g, s, Visit, w))
  {
    CallInProgress(s, Visit, w);
    EndVisitTables(g, start, s, w);
    EndVisitLog(g, s, w);
    EndVisitWakes(s.shared, s.visitors[w].node);
    EndVisitWorkers(g, s, w);
  }

  // ---- A call fails; a worker sleeps or leaves ----

  lemma FailEffect<N>(sh: Shared<N>, e: Error)
    requires NobodyOversleeps(sh)
    ensures forall sh' :: sh' == FailResolve(sh, e) || sh' == FailVisit(sh, e) ==>
      && NobodyOversleeps(sh') && FewerAsleep(sh, sh')
      && sh'.tables == sh.tables
      && sh'.firstErr == (if sh.firstErr.Some? then sh.firstErr else Some(e))
    ensures FailResolve(sh, e).busyResolvers == sh.busyResolvers - 1
    ensures FailResolve(sh, e).busyVisitors == sh.busyVisitors
    ensures FailVisit(sh, e).busyResolvers == sh.busyResolvers
    ensures FailVisit(sh, e).busyVisitors == sh.busyVisitors - 1
  {
    NoLongerBusyWakes(sh);
    FailWakes(NoLongerResolving(sh), e);
    FailWakes(NoLongerVisiting(sh), e);
  }

  lemma FailWorkers<N(!new)>(s: Sys<N>, kind: Kind, w: nat, e: Error)
    requires WorkersOk(s) && w < |s.Workers(kind)| && s.Workers(kind)[w].Calling?
    ensures WorkersOk(EndWithError(s, kind, w, e))
  {
    FailEffect(s.shared, e);
    match kind
    case Resolve =>
      EndCall(s.resolvers, s.shared.busyResolvers, s.log, Resolve, w, Returned, Failed);
      OtherKind(s.visitors, s.shared.busyVisitors, s.log, Visit, Event(Resolve, Failed, s.resolvers[w].node));
    case Visit =>
      EndCall(s.visitors, s.shared.busyVisitors, s.log, Visit, w, Returned, Failed);
      OtherKind(s.resolvers, s.shared.busyResolvers, s.log, Resolve, Event(Visit, Failed, s.visitors[w].node));
  }

  lemma FailAgrees<N(!new)>(s: Sys<N>, s': Sys<N>, kind: Kind, n: N)
    requires LogAgrees(s) && n in s.shared.tables.nodes
    requires s'.log == s.log + [Event(kind, Failed, n)]
    requires s'.shared.tables == s.shared.tables && s'.shared.firstErr.Some?
    ensures LogAgrees(s')
    ensures Begun(s', Resolve) == Begun(s, Resolve) && Begun(s', Visit) == Begun(s, Visit)
  {
    assert Event(kind, Failed, n) in s'.log;
  }

  lemma FailLog<N(!new)>(g: Graph<N>, s: Sys<N>, kind: Kind, w: nat, e: Error)
    requires LogOk(g, s.log) && LogAgrees(s) && NobodyOversleeps(s.shared)
    requires w < |s.Workers(kind)| && s.Workers(kind)[w].Calling?
    requires InFlight(s.log, kind, s.Workers(kind)[w].node)
    requires s.Workers(kind)[w].node in s.shared.tables.nodes
    ensures var s' := EndWithError(s, kind, w, e);
      && LogOk(g, s'.log) && LogAgrees(s')
      && Begun(s', Resolve) == Begun(s, Resolve) && Begun(s', Visit) == Begun(s, Visit)
      && s'.shared.tables == s.shared.tables
  {
    FailEffect(s.shared, e);
    EndLog(g, s.log, kind, s.Workers(kind)[w].node);
    FailAgrees(s, EndWithError(s, kind, w, e), kind, s.Workers(kind)[w].node);
  }

  lemma FailKeeps<N(!new)>(g: Graph<N>, start: seq<N>, s: Sys<N>, kind: Kind, w: nat, e: Error)
    requires SysInv(g, start, s) && Enabled(g, s, Return(kind, w, Some(e)))
    ensures SysInv(g, start, EndWithError(s, kind, w, e))
  {
    CallInProgress(s, kind, w);
    FailLog(g, s, kind, w, e);
    FailWorkers(s, kind, w, e);
  }

  lemma SleepWorkers<N(!new)>(s: Sys<N>, kind: Kind, w: nat)
    requires WorkersOk(s) && w < |s.Workers(kind)| && s.Workers(kind)[w] == AtHead && !s.ShouldWake(kind)
    ensures WorkersOk(s.Sleep(kind, w))
  {
  }

  lemma LeaveWorkers<N(!new)>(s: Sys<N>, kind: Kind, w: nat)
    requires WorkersOk(s) && w < |s.Workers(kind)| && s.Workers(kind)[w] == AtHead
    requires w !in s.Asleep(kind) && s.ShouldExit(kind)
    ensures WorkersOk(s.SetWorker(kind, w, Returned))
  {
    match kind
    case Resolve => IdleChange(s.resolvers, s.shared.busyResolvers, s.log, Resolve, w);
    case Visit => IdleChange(s.visitors, s.shared.busyVisitors, s.log, Visit, w);
  }

  lemma QuietKeeps<N(!new)>(g: Graph<N>, start: seq<N>, s: Sys<N>, s': Sys<N>)
    requires SysInv(g, start, s) && WorkersOk(s')
    requires s'.log == s.log && s'.shared.tables == s.shared.tables && s'.shared.firstErr == s.shared.firstErr
    ensures SysInv(g, start, s')
  {
    assert Begun(s', Resolve) == Begun(s, Resolve) && Begun(s', Visit) == Begun(s, Visit);
  }

  /** Every step that a worker can take is defined and keeps the invariant. */
  lemma StepKeepsInv<N(!new)>(g: Graph<N>, start: seq<N>, s: Sys<N>, a: Action)
    requires SysInv(g, start, s) && Enabled(g, s, a)
    ensures Defined(s, a) && SysInv(g, start, Apply(g, s, a))
  {
    CallsAreDefined(g, start, s, a);
    match a
    case Look(kind, w) =>
      if !s.ShouldWake(kind) {
        SleepWorkers(s, kind, w);
        QuietKeeps(g, start, s, s.Sleep(kind, w));
      } else if s.ShouldExit(kind) {
        LeaveWorkers(s, kind, w);
        QuietKeeps(g, start, s, s.SetWorker(kind, w, Returned));
      } else if kind == Resolve {
        BeginResolveKeeps(g, start, s, w);
      } else {
        BeginVisitKeeps(g, start, s, w);
      }
    case Return(kind, w, None) =>
      if kind == Resolve {
        EndResolveKeeps(g, start, s, w);
      } else {
        EndVisitKeeps(g, start, s, w);
      }
    case Return(kind, w, Some(e)) =>
      FailKeeps(g, start, s, kind, w, e);
  }
}
