/** What a traversal guarantees over whole runs, for any schedule of the workers. */
module DagTheorems {
  import opened Wrappers
  import opened Graphs
  import opened DagTables
  import opened DagTablesProofs
  import opened DagState
  import opened DagInvariant
  import opened DagSteps

  /** Every state of every run satisfies the invariant. */
  lemma {:induction false} RunKeepsInv<N(!new)>(g: Graph<N>, start: seq<N>, r: nat, v: nat,
                                                states: seq<Sys<N>>, actions: seq<Action>, i: nat)
    requires IsRun(g, start, r, v, states, actions) && i < |states|
    ensures SysInv(g, start, states[i])
    ensures |states[i].resolvers| == r && |states[i].visitors| == v
  {
    if i == 0 {
      InitInv(g, start, r, v);
    } else {
      RunKeepsInv(g, start, r, v, states, actions, i - 1);
      assert StepAt(g, states, actions, i - 1);
      StepKeepsInv(g, start, states[i - 1], actions[i - 1]);
    }
  }

  lemma ReachedInv<N(!new)>(g: Graph<N>, start: seq<N>, s: Sys<N>)
    requires Reached(g, start, s)
    ensures SysInv(g, start, s)
  {
    var r: nat, v: nat, states, actions :| IsRun(g, start, r, v, states, actions) && states[|actions|] == s;
    RunKeepsInv(g, start, r, v, states, actions, |actions|);
  }

  lemma ReachedLog<N(!new)>(g: Graph<N>, start: seq<N>, s: Sys<N>)
    requires Reached(g, start, s)
    ensures LogOk(g, s.log)
  {
    ReachedInv(g, start, s);
  }

  /** Every state of a run is the last one of another. */
  lemma EveryStateIsReached<N(!new)>(g: Graph<N>, start: seq<N>, r: nat, v: nat,
                                     states: seq<Sys<N>>, actions: seq<Action>, i: nat)
    requires IsRun(g, start, r, v, states, actions) && i < |states|
    ensures Reached(g, start, states[i])
  {
    var before, taken := states[..i + 1], actions[..i];
    forall k | 0 <= k < i
      ensures StepAt(g, before, taken, k)
    {
      assert StepAt(g, states, actions, k);
    }
    assert IsRun(g, start, r, v, before, taken) && before[|taken|] == states[i];
  }

  lemma RunLonger<N>(g: Graph<N>, start: seq<N>, r: nat, v: nat, states: seq<Sys<N>>, actions: seq<Action>,
                     a: Action, s: Sys<N>)
    requires IsRun(g, start, r, v, states, actions) && Step(g, states[|actions|], a, s)
    ensures IsRun(g, start, r, v, states + [s], actions + [a])
  {
    forall i | 0 <= i < |actions| + 1
      ensures StepAt(g, states + [s], actions + [a], i)
    {
      if i < |actions| {
        assert StepAt(g, states, actions, i);
      }
    }
  }

  lemma ReachedFirst<N(!new)>(g: Graph<N>, start: seq<N>, r: nat, v: nat)
    ensures Reached(g, start, Init(start, r, v))
  {
    var states, actions: seq<Action> := [Init(start, r, v)], [];
    assert IsRun(g, start, r, v, states, actions);
  }

  lemma ReachedNext<N(!new)>(g: Graph<N>, start: seq<N>, s: Sys<N>, a: Action)
    requires Reached(g, start, s) && Enabled(g, s, a) && Defined(s, a)
    ensures Reached(g, start, Apply(g, s, a))
  {
    var r: nat, v: nat, states, actions :| IsRun(g, start, r, v, states, actions) && states[|actions|] == s;
    var states', actions' := states + [Apply(g, s, a)], actions + [a];
    RunLonger(g, start, r, v, states, actions, a, Apply(g, s, a));
    assert IsRun(g, start, r, v, states', actions');
  }

  // ---- What the source checks at run time, and the count it does not check ----

  /** The checkInvariants method of a node record. */
  ghost predicate NodeInvariants<N>(t: Tables<N>, n: N)
    requires n in t.nodes
  {
    var ni := t.nodes[n];
    && ni.depsUnsatisfied >= 0
    && (ni.depsUnsatisfied > 0 <==> ni.status == DependenciesUnsatisfied)
    && (ni.dependants != [] ==> ni.status != Visited)
    && (forall d :: d in ni.dependants ==> HasStatus(t, d, DependenciesUnsatisfied))
  }

  /** The checkInvariants method of the shared state, run at every lock and unlock. */
  ghost predicate SourceInvariants<N(!new)>(sh: Shared<N>) {
    var t := sh.tables;
    && (forall n :: n in t.nodes ==> NodeInvariants(t, n))
    && (forall n :: n in t.toResolve ==> HasStatus(t, n, DependenciesUnresolved))
    && (forall n :: n in t.unsatisfied <==> HasStatus(t, n, DependenciesUnsatisfied))
    && (forall n :: n in t.toVisit ==> HasStatus(t, n, Unvisited))
    && sh.busyResolvers >= 0
    && sh.busyVisitors >= 0
  }

  lemma NodeInvariantsHold<N(!new)>(g: Graph<N>, t: Tables<N>, n: N)
    requires Counts(g, t) && Backlinks(g, t) && n in t.nodes
    ensures NodeInvariants(t, n)
  {
    assert NodeOk(g, t, n);
    var ds := t.nodes[n].dependants;
    forall d | d in ds
      ensures HasStatus(t, d, DependenciesUnsatisfied) && t.nodes[n].status != Visited
    {
      OccurrencesAbsent(ds, d);
      assert Occurrences(ds, d) == Links(g, t, n, d);
    }
    if ds != [] {
      assert ds[0] in ds;
    }
  }

  lemma CheckInvariantsHolds<N(!new)>(g: Graph<N>, start: seq<N>, s: Sys<N>)
    requires Reached(g, start, s)
    ensures SourceInvariants(s.shared)
  {
    ReachedInv(g, start, s);
    var t := s.shared.tables;
    forall n | n in t.nodes
      ensures NodeInvariants(t, n)
    {
      NodeInvariantsHold(g, t, n);
    }
  }

  /** The number of back-pointers to n in the records of the nodes in `among`. */
  ghost function BackPointers<N(!new)>(t: Tables<N>, among: set<N>, n: N): nat
    requires among <= t.nodes.Keys
  {
    if among == {} then 0
    else
      var m :| m in among;
      Occurrences(t.nodes[m].dependants, n) + BackPointers(t, among - {m}, n)
  }

  lemma {:induction false} BackPointersCount<N(!new)>(g: Graph<N>, t: Tables<N>, among: set<N>, n: N)
    requires Backlinks(g, t) && HasStatus(t, n, DependenciesUnsatisfied) && among <= t.nodes.Keys
    ensures BackPointers(t, among, n)
         == Pending(VisitedNodes(t), g.deps(n)) - Pending(VisitedNodes(t) + among, g.deps(n))
  {
    var visited, ds := VisitedNodes(t), g.deps(n);
    if among == {} {
      assert visited + among == visited;
    } else {
      var m :| m in among
        && BackPointers(t, among, n)
           == Occurrences(t.nodes[m].dependants, n) + BackPointers(t, among - {m}, n);
      BackPointersCount(g, t, among - {m}, n);
      assert Occurrences(t.nodes[m].dependants, n) == Links(g, t, m, n);
      if m in visited {
        assert visited + (among - {m}) == visited + among;
      } else {
        PendingVisit(visited + (among - {m}), m, ds);
        assert visited + (among - {m}) + {m} == visited + among;
      }
    }
  }

  /**
   The counter of a waiting node is the number of entries of its dependency
   list that have not been visited, and also the number of back-pointers to it
   in the whole table.
   */
  lemma CounterIsExact<N(!new)>(g: Graph<N>, start: seq<N>, s: Sys<N>, n: N)
    requires Reached(g, start, s) && HasStatus(s.shared.tables, n, DependenciesUnsatisfied)
    ensures var t := s.shared.tables;
      && t.nodes[n].depsUnsatisfied == Pending(VisitedNodes(t), g.deps(n))
      && t.nodes[n].depsUnsatisfied == BackPointers(t, t.nodes.Keys, n)
  {
    ReachedInv(g, start, s);
    var t := s.shared.tables;
    assert NodeOk(g, t, n);
    BackPointersCount(g, t, t.nodes.Keys, n);
    PendingZero(VisitedNodes(t) + t.nodes.Keys, g.deps(n));
  }

  // ---- Order ----

  lemma DirectOrder<N(!new)>(g: Graph<N>, log: seq<Event<N>>, i: nat, n: N, m: N)
    requires LogOk(g, log) && i < |log| && m in g.deps(n)
    requires log[i] == Event(Visit, Began, n) || log[i] == Event(Visit, Done, n)
    ensures Event(Visit, Done, m) in log[..i]
  {
    assert Justified(g, log[..i], log[i]);
    if log[i].phase == Done {
      var j :| 0 <= j < i && log[..i][j] == Event(Visit, Began, n);
      assert Justified(g, log[..j], log[j]);
      assert log[..j] <= log[..i];
    }
  }

  lemma {:induction false} PathOrder<N(!new)>(g: Graph<N>, log: seq<Event<N>>, i: nat, p: seq<N>)
    requires LogOk(g, log) && i < |log| && IsPath(g, p) && |p| >= 2
    requires log[i] == Event(Visit, Began, p[0]) || log[i] == Event(Visit, Done, p[0])
    ensures Event(Visit, Done, p[|p| - 1]) in log[..i]
    decreases |p|
  {
    assert p[0 + 1] in g.deps(p[0]);
    DirectOrder(g, log, i, p[0], p[1]);
    if |p| > 2 {
      var j :| 0 <= j < i && log[..i][j] == Event(Visit, Done, p[1]);
      var q := p[1..];
      forall k | 0 <= k < |q| - 1
        ensures q[k + 1] in g.deps(q[k])
      {
        assert p[(k + 1) + 1] in g.deps(p[k + 1]);
      }
      PathOrder(g, log, j, q);
      assert log[..j] <= log[..i];
    }
  }

  /**
   Visit(n) begins only after FindDependencies(n), and the visit of everything
   that n transitively depends on, have returned successfully; no call begins
   twice, and none begins once some call has failed.
   */
  lemma CallsAreOrdered<N(!new)>(g: Graph<N>, start: seq<N>, s: Sys<N>, i: nat)
    requires Reached(g, start, s) && i < |s.log| && s.log[i].phase == Began
    ensures s.log[i] !in s.log[..i] && NoFailure(s.log[..i])
    ensures s.log[i].kind == Visit ==>
      && Event(Resolve, Done, s.log[i].node) in s.log[..i]
      && forall p :: IsPath(g, p) && |p| >= 2 && p[0] == s.log[i].node ==>
           Event(Visit, Done, p[|p| - 1]) in s.log[..i]
  {
    ReachedLog(g, start, s);
    assert Justified(g, s.log[..i], s.log[i]);
    if s.log[i].kind == Visit {
      forall p | IsPath(g, p) && |p| >= 2 && p[0] == s.log[i].node
        ensures Event(Visit, Done, p[|p| - 1]) in s.log[..i]
      {
        PathOrder(g, s.log, i, p);
      }
    }
  }

  lemma VisitOffCycles<N(!new)>(g: Graph<N>, log: seq<Event<N>>, i: nat)
    requires LogOk(g, log) && i < |log| && log[i].kind == Visit && log[i].phase == Done
    ensures !OnCycle(g, log[i].node)
  {
    var c := log[i].node;
    assert Justified(g, log[..i], log[i]);
    if OnCycle(g, c) {
      var q :| PathBetween(g, q, c, c) && |q| >= 2;
      PathOrder(g, log, i, q);
    }
  }

  /** Nothing that reaches a cycle is ever visited. */
  lemma VisitedReachesNoCycle<N(!new)>(g: Graph<N>, log: seq<Event<N>>, n: N)
    requires LogOk(g, log) && Event(Visit, Done, n) in log
    ensures !ReachesCycle(g, n)
  {
    if ReachesCycle(g, n) {
      var c :| Reaches(g, n, c) && OnCycle(g, c);
      var p :| PathBetween(g, p, n, c);
      var i :| 0 <= i < |log| && log[i] == Event(Visit, Done, n);
      if |p| >= 2 {
        PathOrder(g, log, i, p);
        var j :| 0 <= j < i && log[..i][j] == Event(Visit, Done, c);
        VisitOffCycles(g, log, j);
      } else {
        VisitOffCycles(g, log, i);
      }
    }
  }

  // ---- Verdicts ----

  /** When no worker is in a call and none has failed, every call that has begun has succeeded. */
  lemma NoCallIsOpen<N(!new)>(pcs: seq<Pc<N>>, busy: int, log: seq<Event<N>>, kind: Kind, n: N)
    requires CallsMatch(pcs, busy, log, kind) && NoFailure(log)
    requires forall w :: 0 <= w < |pcs| ==> pcs[w] == Returned
    ensures Event(kind, Began, n) in log ==> Event(kind, Done, n) in log
  {
    assert Calling(n) !in pcs;
    assert Event(kind, Failed, n) !in log;
  }

  lemma WorkListsAreEmpty<N(!new)>(s: Sys<N>)
    requires WorkersOk(s) && AllReturned(s) && s.shared.firstErr.None?
    requires s.resolvers != [] && s.visitors != []
    ensures s.shared.tables.toResolve == [] && s.shared.tables.toVisit == []
  {
    assert s.resolvers[0] in s.resolvers && s.visitors[0] in s.visitors;
  }

  lemma EmptyWorklist<N(!new)>(t: Tables<N>, list: seq<N>, status: Status, begun: set<N>, n: N)
    requires Worklist(t, list, status, begun) && list == [] && n !in begun
    ensures !HasStatus(t, n, status)
  {
  }

  lemma NothingToCall<N(!new)>(s: Sys<N>, n: N)
    requires WorkersOk(s) && NoFailure(s.log) && AllReturned(s)
    requires Worklist(s.shared.tables, [], DependenciesUnresolved, Begun(s, Resolve))
    requires Worklist(s.shared.tables, [], Unvisited, Begun(s, Visit))
    ensures !HasStatus(s.shared.tables, n, DependenciesUnresolved) && !HasStatus(s.shared.tables, n, Unvisited)
  {
    NoCallIsOpen(s.resolvers, s.shared.busyResolvers, s.log, Resolve, n);
    NoCallIsOpen(s.visitors, s.shared.busyVisitors, s.log, Visit, n);
    EmptyWorklist(s.shared.tables, [], DependenciesUnresolved, Begun(s, Resolve), n);
    EmptyWorklist(s.shared.tables, [], Unvisited, Begun(s, Visit), n);
  }

  lemma NothingIsLeft<N(!new)>(g: Graph<N>, s: Sys<N>)
    requires TablesInv(g, s.shared.tables, Begun(s, Resolve), Begun(s, Visit)) && WorkersOk(s) && LogAgrees(s)
    requires AllReturned(s) && s.resolvers != [] && s.visitors != [] && s.shared.firstErr.None?
    ensures forall n :: n in s.shared.tables.nodes ==>
      s.shared.tables.nodes[n].status in {DependenciesUnsatisfied, Visited}
  {
    WorkListsAreEmpty(s);
    forall n | n in s.shared.tables.nodes
      ensures s.shared.tables.nodes[n].status in {DependenciesUnsatisfied, Visited}
    {
      NothingToCall(s, n);
    }
  }

  /** In an error-free state with every worker gone, only waiting nodes are left unvisited. */
  lemma NothingLeftToDo<N(!new)>(g: Graph<N>, start: seq<N>, s: Sys<N>)
    requires Quiescent(g, start, s) && s.shared.firstErr.None?
    ensures forall n :: n in s.shared.tables.nodes ==>
      s.shared.tables.nodes[n].status in {DependenciesUnsatisfied, Visited}
  {
    ReachedInv(g, start, s);
    NothingIsLeft(g, s);
  }

  /** The nodes found are then exactly the union of the start nodes and all their dependencies. */
  lemma NodesAreReachable<N(!new)>(g: Graph<N>, start: seq<N>, s: Sys<N>, n: N)
    requires Quiescent(g, start, s) && s.shared.firstErr.None?
    ensures n in s.shared.tables.nodes <==> Reachable(g, start, n)
  {
    ReachedInv(g, start, s);
    var t := s.shared.tables;
    NothingLeftToDo(g, start, s);
    if Reachable(g, start, n) {
      forall a, b | a in t.nodes.Keys && b in g.deps(a)
        ensures b in t.nodes.Keys
      {
        assert NodeOk(g, t, a);
      }
      var a :| a in start && Reaches(g, a, n);
      ClosedSetContains(g, t.nodes.Keys, a, n);
    }
  }

  lemma {:induction false} NoDuplicatesOccurOnce<T>(p: seq<T>, x: T)
    requires NoDuplicates(p)
    ensures Occurrences(p, x) == if x in p then 1 else 0
  {
    if p != [] {
      var last := |p| - 1;
      NoDuplicatesOccurOnce(p[..last], x);
      assert p == p[..last] + [p[last]];
    }
  }

  lemma OccursOnce<N(!new)>(g: Graph<N>, log: seq<Event<N>>, e: Event<N>)
    requires LogOk(g, log)
    ensures Occurrences(log, e) == if e in log then 1 else 0
  {
    forall i, j | 0 <= i < j < |log|
      ensures log[i] != log[j]
    {
      assert Justified(g, log[..j], log[j]);
      assert log[..j][i] == log[i];
    }
    NoDuplicatesOccurOnce(log, e);
  }

  lemma SuccessLog<N(!new)>(g: Graph<N>, start: seq<N>, s: Sys<N>, kind: Kind, n: N)
    requires Quiescent(g, start, s) && VisitReturns(s, Finished)
    ensures Event(kind, Done, n) in s.log <==> Reachable(g, start, n)
    ensures Reachable(g, start, n) ==> g.resolvable(n) && g.visitable(n)
  {
    ReachedInv(g, start, s);
    var t := s.shared.tables;
    NothingLeftToDo(g, start, s);
    NodesAreReachable(g, start, s, n);
    if n in t.nodes {
      assert !HasStatus(t, n, DependenciesUnsatisfied);
      assert NodeOk(g, t, n);
    }
  }

  lemma LoggedIsKnown<N(!new)>(s: Sys<N>, kind: Kind, n: N)
    requires LogAgrees(s) && s.shared.firstErr.None?
    ensures Event(kind, Failed, n) !in s.log
    ensures Event(kind, Began, n) in s.log ==> n in s.shared.tables.nodes
  {
  }

  lemma SuccessLogHasNoStrays<N(!new)>(g: Graph<N>, start: seq<N>, s: Sys<N>, kind: Kind, n: N)
    requires Quiescent(g, start, s) && VisitReturns(s, Finished)
    ensures Event(kind, Failed, n) !in s.log
    ensures Event(kind, Began, n) in s.log ==> Reachable(g, start, n)
  {
    ReachedInv(g, start, s);
    LoggedIsKnown(s, kind, n);
    NodesAreReachable(g, start, s, n);
  }

  /**
   Success means full coverage: every node reachable from the start nodes was
   resolved once and visited once, both successfully, and no other was called.
   */
  lemma SuccessCoversAll<N(!new)>(g: Graph<N>, start: seq<N>, s: Sys<N>, kind: Kind, n: N)
    requires Quiescent(g, start, s) && VisitReturns(s, Finished)
    ensures Occurrences(s.log, Event(kind, Began, n)) == if Reachable(g, start, n) then 1 else 0
    ensures Occurrences(s.log, Event(kind, Done, n)) == if Reachable(g, start, n) then 1 else 0
    ensures Occurrences(s.log, Event(kind, Failed, n)) == 0
    ensures Reachable(g, start, n) ==> g.resolvable(n) && g.visitable(n)
  {
    ReachedLog(g, start, s);
    SuccessLog(g, start, s, kind, n);
    SuccessLogHasNoStrays(g, start, s, kind, n);
    OccursOnce(g, s.log, Event(kind, Began, n));
    OccursOnce(g, s.log, Event(kind, Done, n));
    OccursOnce(g, s.log, Event(kind, Failed, n));
    LogConsistent(g, s.log, kind, n);
  }

  lemma WaitingNodesAreStuck<N(!new)>(g: Graph<N>, start: seq<N>, s: Sys<N>)
    requires Quiescent(g, start, s) && s.shared.firstErr.None?
    ensures Stuck(g, s.shared.tables.unsatisfied)
  {
    ReachedInv(g, start, s);
    var t := s.shared.tables;
    NothingLeftToDo(g, start, s);
    forall n | n in t.unsatisfied
      ensures HasDepIn(g, t.unsatisfied, n)
    {
      assert NodeOk(g, t, n);
      var d := PendingSomeoneIsOut(VisitedNodes(t), g.deps(n));
      assert HasStatus(t, d, DependenciesUnsatisfied);
    }
  }

  lemma WaitingIffCyclic<N(!new)>(g: Graph<N>, start: seq<N>, s: Sys<N>, n: N)
    requires Quiescent(g, start, s) && s.shared.firstErr.None?
    ensures n in s.shared.tables.unsatisfied <==> Reachable(g, start, n) && ReachesCycle(g, n)
  {
    ReachedInv(g, start, s);
    var t := s.shared.tables;
    NothingLeftToDo(g, start, s);
    NodesAreReachable(g, start, s, n);
    if n in t.unsatisfied {
      WaitingNodesAreStuck(g, start, s);
      StuckReachesCycle(g, t.unsatisfied, n);
    } else if n in t.nodes {
      assert t.nodes[n].status == Visited;
      VisitedReachesNoCycle(g, s.log, n);
    }
  }

  ghost predicate CycleWithin<N(!new)>(g: Graph<N>, start: seq<N>) {
    exists c :: Reachable(g, start, c) && OnCycle(g, c)
  }

  /** A set that is exactly the reachable nodes that reach a cycle is empty just when there is no cycle. */
  lemma EmptyIffAcyclic<N(!new)>(g: Graph<N>, start: seq<N>, waiting: set<N>)
    requires forall n :: n in waiting <==> Reachable(g, start, n) && ReachesCycle(g, n)
    ensures waiting != {} <==> CycleWithin(g, start)
  {
    forall c | Reachable(g, start, c) && OnCycle(g, c)
      ensures c in waiting
    {
      ReachesSelf(g, c);
    }
    if waiting != {} {
      var n :| n in waiting;
      var c :| Reaches(g, n, c) && OnCycle(g, c);
      var a :| a in start && Reaches(g, a, n);
      ReachesTransitive(g, a, n, c);
      assert Reachable(g, start, c);
    }
  }

  /**
   The cycle verdict is exact: when no call has failed, nodes are left waiting
   if and only if the reachable graph has a cycle, and each of them reaches one.
   */
  lemma CycleVerdictIsExact<N(!new)>(g: Graph<N>, start: seq<N>, s: Sys<N>)
    requires Quiescent(g, start, s) && s.shared.firstErr.None?
    ensures s.shared.tables.unsatisfied != {} <==> CycleWithin(g, start)
    ensures forall n :: n in s.shared.tables.unsatisfied <==> Reachable(g, start, n) && ReachesCycle(g, n)
  {
    forall n
      ensures n in s.shared.tables.unsatisfied <==> Reachable(g, start, n) && ReachesCycle(g, n)
    {
      WaitingIffCyclic(g, start, s, n);
    }
    EmptyIffAcyclic(g, start, s.shared.tables.unsatisfied);
  }

  /** Every failed call failed because it could not succeed. */
  ghost predicate NoChanceFailures<N(!new)>(g: Graph<N>, log: seq<Event<N>>) {
    forall e :: e in log && e.phase == Failed ==>
      if e.kind == Resolve then !g.resolvable(e.node) else !g.visitable(e.node)
  }

  ghost predicate AllCanSucceed<N(!new)>(g: Graph<N>, start: seq<N>) {
    forall n :: Reachable(g, start, n) ==> g.resolvable(n) && g.visitable(n)
  }

  lemma OnlyReachableFail<N(!new)>(g: Graph<N>, start: seq<N>, s: Sys<N>)
    requires Reached(g, start, s) && NoChanceFailures(g, s.log) && AllCanSucceed(g, start)
    ensures s.shared.firstErr.None?
  {
    ReachedInv(g, start, s);
    assert NoFailure(s.log);
  }

  lemma FinishedIsEarned<N(!new)>(g: Graph<N>, start: seq<N>, s: Sys<N>)
    requires Quiescent(g, start, s) && VisitReturns(s, Finished)
    ensures AllCanSucceed(g, start) && !CycleWithin(g, start)
  {
    CycleVerdictIsExact(g, start, s);
    forall n | Reachable(g, start, n)
      ensures g.resolvable(n) && g.visitable(n)
    {
      SuccessLog(g, start, s, Visit, n);
    }
  }

  /**
   When calls fail only if they must, the traversal succeeds if and only if
   every call for a reachable node can succeed and no reachable node is on a cycle.
   */
  lemma OutcomeIsExact<N(!new)>(g: Graph<N>, start: seq<N>, s: Sys<N>)
    requires Quiescent(g, start, s) && NoChanceFailures(g, s.log)
    ensures VisitReturns(s, Finished) <==> AllCanSucceed(g, start) && !CycleWithin(g, start)
  {
    if VisitReturns(s, Finished) {
      FinishedIsEarned(g, start, s);
    }
    if AllCanSucceed(g, start) && !CycleWithin(g, start) {
      OnlyReachableFail(g, start, s);
      CycleVerdictIsExact(g, start, s);
    }
  }

  // ---- Errors ----

  /** The log only grows, the first error stays, and no call begins once it is set. */
  ghost predicate Later<N>(s: Sys<N>, s': Sys<N>) {
    && s.log <= s'.log
    && (s.shared.firstErr.Some? ==>
          && s'.shared.firstErr == s.shared.firstErr
          && forall k :: |s.log| <= k < |s'.log| ==> s'.log[k].phase != Began)
  }

  lemma StepIsLater<N>(g: Graph<N>, s: Sys<N>, a: Action)
    requires Enabled(g, s, a) && Defined(s, a)
    ensures Later(s, Apply(g, s, a))
  {
    match a
    case Look(kind, w) =>
    case Return(kind, w, None) =>
    case Return(kind, w, Some(e)) =>
  }

  lemma LaterIsTransitive<N>(s: Sys<N>, s': Sys<N>, s'': Sys<N>)
    requires Later(s, s') && Later(s', s'')
    ensures Later(s, s'')
  {
    assert forall k :: 0 <= k < |s'.log| ==> s''.log[k] == s'.log[k];
  }

  /** The first error is never replaced, and once it is set no further call begins. */
  lemma {:induction false} FirstErrorIsFinal<N(!new)>(
    g: Graph<N>, start: seq<N>, r: nat, v: nat,
    states: seq<Sys<N>>, actions: seq<Action>, i: nat, j: nat)
    requires IsRun(g, start, r, v, states, actions) && i <= j < |states|
    ensures Later(states[i], states[j])
    decreases j - i
  {
    if i < j {
      FirstErrorIsFinal(g, start, r, v, states, actions, i, j - 1);
      assert StepAt(g, states, actions, j - 1);
      StepIsLater(g, states[j - 1], actions[j - 1]);
      LaterIsTransitive(states[i], states[j - 1], states[j]);
    }
  }

  function ErrorOf(a: Action): Option<Error> {
    if a.Return? then a.err else None
  }

  /** The k-th action is a call failing, and no call has failed before it. */
  ghost predicate FirstFailure(actions: seq<Action>, k: int) {
    && 0 <= k < |actions| && ErrorOf(actions[k]).Some?
    && forall j :: 0 <= j < k ==> ErrorOf(actions[j]).None?
  }

  lemma StepError<N>(g: Graph<N>, s: Sys<N>, a: Action)
    requires Enabled(g, s, a) && Defined(s, a)
    ensures Apply(g, s, a).shared.firstErr == if s.shared.firstErr.Some? then s.shared.firstErr else ErrorOf(a)
  {
    match a
    case Look(kind, w) =>
    case Return(kind, w, None) =>
    case Return(kind, w, Some(e)) =>
  }

  lemma {:induction false} ErrorIsOfFailure<N>(
    g: Graph<N>, start: seq<N>, r: nat, v: nat, states: seq<Sys<N>>, actions: seq<Action>, i: nat)
    requires IsRun(g, start, r, v, states, actions) && i <= |actions|
    ensures states[i].shared.firstErr == None ==> forall j :: 0 <= j < i ==> ErrorOf(actions[j]).None?
    ensures states[i].shared.firstErr.Some? ==>
      exists k :: k < i && FirstFailure(actions, k) && ErrorOf(actions[k]) == states[i].shared.firstErr
  {
    if i > 0 {
      ErrorIsOfFailure(g, start, r, v, states, actions, i - 1);
      assert StepAt(g, states, actions, i - 1);
      StepError(g, states[i - 1], actions[i - 1]);
      if states[i - 1].shared.firstErr == None && ErrorOf(actions[i - 1]).Some? {
        assert FirstFailure(actions, i - 1);
      }
    }
  }

  /** The error recorded in a run is the one that the first call to fail has failed with, if any has. */
  lemma FirstErrorIsFirstFailure<N>(
    g: Graph<N>, start: seq<N>, r: nat, v: nat, states: seq<Sys<N>>, actions: seq<Action>, e: Error)
    requires IsRun(g, start, r, v, states, actions)
    ensures states[|actions|].shared.firstErr == Some(e) <==>
      exists k :: FirstFailure(actions, k) && ErrorOf(actions[k]) == Some(e)
  {
    ErrorIsOfFailure(g, start, r, v, states, actions, |actions|);
    forall k, k' | FirstFailure(actions, k) && FirstFailure(actions, k')
      ensures k == k'
    {
    }
  }
}
