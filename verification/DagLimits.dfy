/** Why a traversal needs at least one resolver and one visitor (internal/dag/visit.go:43-50). */
module DagLimits {
  import opened Wrappers
  import opened Graphs
  import opened DagTables
  import opened DagTablesProofs
  import opened DagState
  import opened DagInvariant
  import opened DagTheorems

  lemma ResolveAlone<N(!new)>(g: Graph<N>, n: N) returns (s1: Sys<N>, s2: Sys<N>)
    requires g.deps(n) == [] && g.resolvable(n)
    ensures Step(g, Init([n], 1, 0), Look(Resolve, 0), s1) && Step(g, s1, Return(Resolve, 0, None), s2)
    ensures s2.shared == EmptyShared<N>().(tables := s2.shared.tables)
    ensures s2.shared.tables.toResolve == [] && s2.shared.tables.unsatisfied == {}
    ensures s2.resolvers == [AtHead] && s2.visitors == []
    ensures Event(Visit, Began, n) !in s2.log
  {
    var s0 := Init([n], 1, 0);
    assert AddNodes(EmptyShared<N>().tables, [n][..0]) == EmptyShared<N>().tables;
    assert s0.shared.tables == Tables(map[n := Info(DependenciesUnresolved, 0, [])], [n], {}, []);
    s1 := Apply(g, s0, Look(Resolve, 0));
    assert s1.resolvers == [Calling(n)] && s1.shared.tables.toResolve == [];
    s2 := Apply(g, s1, Return(Resolve, 0, None));
  }

  lemma ThreeSteps<N>(g: Graph<N>, states: seq<Sys<N>>, actions: seq<Action>)
    requires |states| == 4 && |actions| == 3
    requires Step(g, states[0], actions[0], states[1]) && Step(g, states[1], actions[1], states[2])
    requires Step(g, states[2], actions[2], states[3])
    ensures forall i {:trigger StepAt(g, states, actions, i)} :: 0 <= i < 3 ==> StepAt(g, states, actions, i)
  {
  }

  lemma ResolverLeaves<N(!new)>(g: Graph<N>, s: Sys<N>)
    requires s.shared == EmptyShared<N>().(tables := s.shared.tables) && s.shared.tables.toResolve == []
    requires s.resolvers == [AtHead]
    ensures Step(g, s, Look(Resolve, 0), s.(resolvers := [Returned]))
  {
  }

  /** Without visitors, a node that depends on nothing is reported as success and never visited. */
  lemma NoVisitorsFalseSuccess<N(!new)>(g: Graph<N>, n: N) returns (states: seq<Sys<N>>, actions: seq<Action>)
    requires g.deps(n) == [] && g.resolvable(n)
    ensures IsRun(g, [n], 1, 0, states, actions)
    ensures var s := states[|actions|];
      AllReturned(s) && VisitReturns(s, Finished) && Event(Visit, Began, n) !in s.log
  {
    var s1, s2 := ResolveAlone(g, n);
    var s3 := s2.(resolvers := [Returned]);
    ResolverLeaves(g, s2);
    states := [Init([n], 1, 0), s1, s2, s3];
    actions := [Look(Resolve, 0), Return(Resolve, 0, None), Look(Resolve, 0)];
    ThreeSteps(g, states, actions);
  }

  // ---- Exactly when visitors are missed ----

  lemma {:induction false} OnlyResolveEvents<N(!new)>(g: Graph<N>, start: seq<N>, r: nat,
                                                      states: seq<Sys<N>>, actions: seq<Action>, i: nat)
    requires IsRun(g, start, r, 0, states, actions) && i < |states|
    ensures states[i].visitors == [] && forall e :: e in states[i].log ==> e.kind == Resolve
  {
    if i > 0 {
      OnlyResolveEvents(g, start, r, states, actions, i - 1);
      assert StepAt(g, states, actions, i - 1);
    }
  }

  lemma NoVisitorsNoVisits<N(!new)>(g: Graph<N>, start: seq<N>, s: Sys<N>)
    requires Reached(g, start, s) && s.visitors == []
    ensures forall e :: e in s.log ==> e.kind == Resolve
  {
    var r: nat, v: nat, states, actions :| IsRun(g, start, r, v, states, actions) && states[|actions|] == s;
    RunKeepsInv(g, start, r, v, states, actions, |actions|);
    OnlyResolveEvents(g, start, r, states, actions, |actions|);
  }

  ghost predicate CoversAll<N(!new)>(g: Graph<N>, start: seq<N>, s: Sys<N>) {
    forall n :: Reachable(g, start, n) ==> Event(Visit, Done, n) in s.log
  }

  /** Without visitors, whatever the number of resolvers, everything reachable is visited just when there is nothing. */
  lemma NoVisitorsCoverIff<N(!new)>(g: Graph<N>, start: seq<N>, s: Sys<N>)
    requires Reached(g, start, s) && s.visitors == []
    ensures CoversAll(g, start, s) <==> start == []
  {
    NoVisitorsNoVisits(g, start, s);
    if start != [] {
      ReachesSelf(g, start[0]);
      assert start[0] in start && Reachable(g, start, start[0]);
    }
  }

  lemma NothingVisited<N(!new)>(g: Graph<N>, start: seq<N>, s: Sys<N>)
    requires Reached(g, start, s) && s.visitors == []
    ensures VisitedNodes(s.shared.tables) == {}
  {
    NoVisitorsNoVisits(g, start, s);
    ReachedInv(g, start, s);
  }

  lemma SettledWithoutVisitors<N(!new)>(g: Graph<N>, s: Sys<N>, n: N)
    requires Counts(g, s.shared.tables) && n in s.shared.tables.nodes && VisitedNodes(s.shared.tables) == {}
    requires !HasStatus(s.shared.tables, n, DependenciesUnresolved)
    ensures g.resolvable(n)
    ensures HasStatus(s.shared.tables, n, DependenciesUnsatisfied) <==> g.deps(n) != []
  {
    assert NodeOk(g, s.shared.tables, n);
    PendingZero(VisitedNodes(s.shared.tables), g.deps(n));
    if g.deps(n) != [] {
      assert g.deps(n)[0] in g.deps(n);
    }
  }

  lemma ResolversAreThrough<N(!new)>(s: Sys<N>)
    requires WorkersOk(s) && AllReturned(s) && s.resolvers != [] && s.shared.firstErr.None?
    ensures s.shared.tables.toResolve == []
  {
    assert s.resolvers[0] in s.resolvers;
  }

  /** All resolvers have returned, and no call has failed: every node is resolved. */
  lemma AllResolved<N(!new)>(g: Graph<N>, start: seq<N>, s: Sys<N>, n: N)
    requires Reached(g, start, s) && AllReturned(s) && s.resolvers != [] && s.shared.firstErr.None?
    ensures !HasStatus(s.shared.tables, n, DependenciesUnresolved)
  {
    ReachedInv(g, start, s);
    ResolversAreThrough(s);
    NoCallIsOpen(s.resolvers, s.shared.busyResolvers, s.log, Resolve, n);
    EmptyWorklist(s.shared.tables, s.shared.tables.toResolve, DependenciesUnresolved, Begun(s, Resolve), n);
  }

  /** A start node that depends on something is waiting for ever. */
  lemma NoVisitorsSuccess<N(!new)>(g: Graph<N>, start: seq<N>, s: Sys<N>)
    requires Reached(g, start, s) && AllReturned(s) && s.resolvers != [] && s.visitors == []
    requires VisitReturns(s, Finished)
    ensures forall n :: n in start ==> g.resolvable(n) && g.deps(n) == []
  {
    NothingVisited(g, start, s);
    ReachedInv(g, start, s);
    forall n | n in start
      ensures g.resolvable(n) && g.deps(n) == []
    {
      AllResolved(g, start, s, n);
      SettledWithoutVisitors(g, s, n);
    }
  }

  lemma OnlyStartIsReachable<N(!new)>(g: Graph<N>, start: seq<N>, n: N)
    requires (forall m :: m in start ==> g.deps(m) == []) && Reachable(g, start, n)
    ensures n in start
  {
    var starts := set m | m in start;
    var a :| a in start && Reaches(g, a, n);
    ClosedSetContains(g, starts, a, n);
  }

  /**
   Without visitors, when calls fail only if they must, success is reported if
   and only if every start node can be resolved and depends on nothing; nothing
   is visited all the same.
   */
  lemma NoVisitorsVerdict<N(!new)>(g: Graph<N>, start: seq<N>, s: Sys<N>)
    requires Reached(g, start, s) && AllReturned(s) && s.resolvers != [] && s.visitors == []
    requires NoChanceFailures(g, s.log)
    ensures VisitReturns(s, Finished) <==> forall n :: n in start ==> g.resolvable(n) && g.deps(n) == []
  {
    if VisitReturns(s, Finished) {
      NoVisitorsSuccess(g, start, s);
    }
    if forall n :: n in start ==> g.resolvable(n) && g.deps(n) == [] {
      NoVisitorsNoVisits(g, start, s);
      NothingVisited(g, start, s);
      ReachedInv(g, start, s);
      forall e | e in s.log
        ensures e.phase != Failed
      {
        OnlyStartIsReachable(g, start, e.node);
      }
      assert NoFailure(s.log);
      forall n | n in s.shared.tables.nodes
        ensures !HasStatus(s.shared.tables, n, DependenciesUnsatisfied)
      {
        OnlyStartIsReachable(g, start, n);
        AllResolved(g, start, s, n);
        SettledWithoutVisitors(g, s, n);
      }
    }
  }

  // ---- Exactly when resolvers are missed ----

  ghost predicate GetsStuck<N(!new)>(g: Graph<N>, start: seq<N>, r: nat, v: nat) {
    exists states: seq<Sys<N>>, actions: seq<Action> ::
      && IsRun(g, start, r, v, states, actions)
      && !AllReturned(states[|actions|]) && forall a :: !Enabled(g, states[|actions|], a)
  }

  function Below(k: nat): (s: set<nat>)
    ensures forall i: nat :: i in s <==> i < k
  {
    if k == 0 then {} else Below(k - 1) + {k - 1}
  }

  /** The first k visitors asleep. */
  function Sleeping<N(==)>(start: seq<N>, v: nat, k: nat): Sys<N> {
    var s := Init(start, 0, v);
    s.(shared := s.shared.(visitorsAsleep := Below(k)))
  }

  lemma StartHasWork<N>(start: seq<N>)
    requires start != []
    ensures AddNodes(EmptyShared<N>().tables, start).toResolve != []
    ensures AddNodes(EmptyShared<N>().tables, start).toVisit == []
    decreases |start|
  {
    var init := start[..|start| - 1];
    if init == [] {
      assert AddNodes(EmptyShared<N>().tables, init) == EmptyShared<N>().tables;
    } else {
      StartHasWork(init);
    }
  }

  lemma {:induction false} VisitorsFallAsleep<N(!new)>(g: Graph<N>, start: seq<N>, v: nat, k: nat)
    returns (states: seq<Sys<N>>, actions: seq<Action>)
    requires start != [] && k <= v
    ensures IsRun(g, start, 0, v, states, actions) && states[|actions|] == Sleeping(start, v, k)
  {
    if k == 0 {
      states, actions := [Init(start, 0, v)], [];
      assert Sleeping(start, v, 0) == Init(start, 0, v);
    } else {
      var before, taken := VisitorsFallAsleep(g, start, v, k - 1);
      StartHasWork(start);
      OneMoreAsleep(g, start, v, k - 1);
      states, actions := before + [Sleeping(start, v, k)], taken + [Look(Visit, k - 1)];
      RunLonger(g, start, 0, v, before, taken, Look(Visit, k - 1), Sleeping(start, v, k));
    }
  }

  lemma OneMoreAsleep<N(!new)>(g: Graph<N>, start: seq<N>, v: nat, k: nat)
    requires start != [] && k < v
    ensures Step(g, Sleeping(start, v, k), Look(Visit, k), Sleeping(start, v, k + 1))
  {
    StartHasWork(start);
  }

  lemma NobodyCalls<N(!new)>(pcs: seq<Pc<N>>, busy: int, log: seq<Event<N>>, kind: Kind)
    requires CallsMatch(pcs, busy, log, kind) && log == []
    ensures busy == 0 && forall w :: 0 <= w < |pcs| ==> !pcs[w].Calling?
  {
    forall w | 0 <= w < |pcs|
      ensures !pcs[w].Calling?
    {
      assert pcs[w] in pcs;
      assert pcs[w].Calling? ==> InFlight(log, kind, pcs[w].node);
    }
    CountCallingZero(pcs);
  }

  lemma NoNodes<N(!new)>(g: Graph<N>, s: Sys<N>)
    requires SysInv(g, [], s)
    ensures s.log == [] && s.shared.tables.toResolve == [] && s.shared.tables.toVisit == []
  {
    assert forall n :: n !in s.shared.tables.nodes;
    NoMembers(s.shared.tables.toResolve);
    NoMembers(s.shared.tables.toVisit);
    forall e
      ensures e !in s.log
    {
    }
    NoMembers(s.log);
  }

  lemma FirstMember<T>(list: seq<T>)
    ensures list == [] || list[0] in list
  {
  }

  lemma NoMembers<T(!new)>(list: seq<T>)
    requires forall x :: x !in list
    ensures list == []
  {
    FirstMember(list);
  }

  lemma NothingToStart<N(!new)>(g: Graph<N>, s: Sys<N>)
    requires Reached(g, [], s)
    ensures s.shared.visitorsAsleep == {} && forall w :: 0 <= w < |s.visitors| ==> !s.visitors[w].Calling?
  {
    ReachedInv(g, [], s);
    NoNodes(g, s);
    NobodyCalls(s.resolvers, s.shared.busyResolvers, s.log, Resolve);
    NobodyCalls(s.visitors, s.shared.busyVisitors, s.log, Visit);
  }

  /** Without resolvers, some run gets stuck if and only if there is something to start with, and a visitor to wait. */
  lemma NoResolversStuckIff<N(!new)>(g: Graph<N>, start: seq<N>, v: nat)
    ensures GetsStuck(g, start, 0, v) <==> start != [] && v >= 1
  {
    if start != [] && v >= 1 {
      var states, actions := VisitorsFallAsleep(g, start, v, v);
      var s := states[|actions|];
      assert s.visitors[0] == AtHead;
      assert forall a :: !Enabled(g, s, a);
    } else if GetsStuck(g, start, 0, v) && v >= 1 {
      var states: seq<Sys<N>>, actions: seq<Action> :| IsRun(g, start, 0, v, states, actions)
        && !AllReturned(states[|actions|]) && forall a :: !Enabled(g, states[|actions|], a);
      var s := states[|actions|];
      RunKeepsInv(g, start, 0, v, states, actions, |actions|);
      assert Reached(g, start, s);
      NothingToStart(g, s);
      var w :| 0 <= w < |s.visitors| && s.visitors[w] != Returned;
      assert Enabled(g, s, Look(Visit, w));
    } else if GetsStuck(g, start, 0, v) {
      var states: seq<Sys<N>>, actions: seq<Action> :| IsRun(g, start, 0, v, states, actions)
        && !AllReturned(states[|actions|]) && forall a :: !Enabled(g, states[|actions|], a);
      NobodyActs(g, start, states, actions);
    }
  }

  lemma NobodyActs<N(!new)>(g: Graph<N>, start: seq<N>, states: seq<Sys<N>>, actions: seq<Action>)
    requires IsRun(g, start, 0, 0, states, actions)
    ensures actions == []
  {
    assert actions != [] ==> StepAt(g, states, actions, 0);
  }

  /** Without either, success is reported at once, with nothing resolved or visited. */
  lemma NobodySucceeds<N(!new)>(g: Graph<N>, start: seq<N>, states: seq<Sys<N>>, actions: seq<Action>)
    requires IsRun(g, start, 0, 0, states, actions)
    ensures var s := states[|actions|]; actions == [] && AllReturned(s) && VisitReturns(s, Finished) && s.log == []
  {
    NobodyActs(g, start, states, actions);
    NothingIsWaitingAtFirst(start);
  }

  lemma {:induction false} NothingIsWaitingAtFirst<N>(start: seq<N>)
    ensures AddNodes(EmptyShared<N>().tables, start).unsatisfied == {}
  {
    if start != [] {
      NothingIsWaitingAtFirst(start[..|start| - 1]);
    }
  }

  // ---- A whole run, step by step ----

  /** A node alone, with one worker of each kind. */
  function Alone<N(==)>(n: N, status: Status, toResolve: seq<N>, toVisit: seq<N>, busyResolvers: int, busyVisitors: int,
                        resolver: Pc<N>, visitor: Pc<N>, log: seq<Event<N>>): Sys<N>
  {
    Sys(Shared(Tables(map[n := Info(status, 0, [])], toResolve, {}, toVisit), None, busyResolvers, busyVisitors, {}, {}),
        [resolver], [visitor], log)
  }

  lemma AloneIsResolved<N(!new)>(g: Graph<N>, n: N) returns (s: Sys<N>)
    requires g.deps(n) == [] && g.resolvable(n)
    ensures Reached(g, [n], s)
    ensures s == Alone(n, Unvisited, [], [n], 0, 0, AtHead, AtHead, [Event(Resolve, Began, n), Event(Resolve, Done, n)])
  {
    var s0 := Init([n], 1, 1);
    ReachedFirst(g, [n], 1, 1);
    assert AddNodes(EmptyShared<N>().tables, [n][..0]) == EmptyShared<N>().tables;
    assert s0 == Alone(n, DependenciesUnresolved, [n], [], 0, 0, AtHead, AtHead, []);
    var s1 := Apply(g, s0, Look(Resolve, 0));
    assert s1 == Alone(n, DependenciesUnresolved, [], [], 1, 0, Calling(n), AtHead, [Event(Resolve, Began, n)]);
    ReachedNext(g, [n], s0, Look(Resolve, 0));
    s := Apply(g, s1, Return(Resolve, 0, None));
    ReachedNext(g, [n], s1, Return(Resolve, 0, None));
  }

  lemma AloneIsVisited<N(!new)>(g: Graph<N>, n: N, s: Sys<N>, log: seq<Event<N>>) returns (s': Sys<N>)
    requires Reached(g, [n], s) && g.visitable(n)
    requires s == Alone(n, Unvisited, [], [n], 0, 0, AtHead, AtHead, log)
    ensures Reached(g, [n], s')
    ensures s' == Alone(n, Visited, [], [], 0, 0, AtHead, AtHead, log + [Event(Visit, Began, n), Event(Visit, Done, n)])
  {
    var s1 := Apply(g, s, Look(Visit, 0));
    assert s1 == Alone(n, Unvisited, [], [], 0, 1, AtHead, Calling(n), log + [Event(Visit, Began, n)]);
    ReachedNext(g, [n], s, Look(Visit, 0));
    s' := Apply(g, s1, Return(Visit, 0, None));
    ReachedNext(g, [n], s1, Return(Visit, 0, None));
    assert SatisfyAll(s1.shared.tables, []) == s1.shared.tables;
  }

  lemma AloneEnds<N(!new)>(g: Graph<N>, n: N, s: Sys<N>, log: seq<Event<N>>) returns (s': Sys<N>)
    requires Reached(g, [n], s) && s == Alone(n, Visited, [], [], 0, 0, AtHead, AtHead, log)
    ensures Reached(g, [n], s') && s' == Alone(n, Visited, [], [], 0, 0, Returned, Returned, log)
  {
    var s1 := Apply(g, s, Look(Resolve, 0));
    ReachedNext(g, [n], s, Look(Resolve, 0));
    s' := Apply(g, s1, Look(Visit, 0));
    ReachedNext(g, [n], s1, Look(Visit, 0));
  }

  lemma AloneFails<N(!new)>(g: Graph<N>, n: N, s: Sys<N>, log: seq<Event<N>>, e: Error) returns (s': Sys<N>)
    requires Reached(g, [n], s) && s == Alone(n, Unvisited, [], [n], 0, 0, AtHead, AtHead, log)
    ensures Quiescent(g, [n], s') && VisitReturns(s', StoppedBy(e))
    ensures s'.log == log + [Event(Visit, Began, n), Event(Visit, Failed, n)]
  {
    var s1 := Apply(g, s, Look(Visit, 0));
    assert s1 == Alone(n, Unvisited, [], [], 0, 1, AtHead, Calling(n), log + [Event(Visit, Began, n)]);
    ReachedNext(g, [n], s, Look(Visit, 0));
    var s2 := Apply(g, s1, Return(Visit, 0, Some(e)));
    ReachedNext(g, [n], s1, Return(Visit, 0, Some(e)));
    assert s2.visitors == [Returned] && s2.resolvers == [AtHead] && s2.shared.resolversAsleep == {};
    s' := Apply(g, s2, Look(Resolve, 0));
    ReachedNext(g, [n], s2, Look(Resolve, 0));
  }

  /** A node that depends on nothing, and whose calls can succeed, has a run that succeeds. */
  lemma LoneNodeSucceeds<N(!new)>(g: Graph<N>, n: N) returns (s: Sys<N>)
    requires g.deps(n) == [] && g.resolvable(n) && g.visitable(n)
    ensures Quiescent(g, [n], s) && VisitReturns(s, Finished)
    ensures s.log == [Event(Resolve, Began, n), Event(Resolve, Done, n), Event(Visit, Began, n), Event(Visit, Done, n)]
  {
    s := AloneIsResolved(g, n);
    s := AloneIsVisited(g, n, s, s.log);
    s := AloneEnds(g, n, s, s.log);
  }

  /** It also has one in which its visit fails. */
  lemma LoneNodeFails<N(!new)>(g: Graph<N>, n: N, e: Error) returns (s: Sys<N>)
    requires g.deps(n) == [] && g.resolvable(n)
    ensures Quiescent(g, [n], s) && VisitReturns(s, StoppedBy(e))
    ensures s.log == [Event(Resolve, Began, n), Event(Resolve, Done, n), Event(Visit, Began, n), Event(Visit, Failed, n)]
  {
    s := AloneIsResolved(g, n);
    s := AloneFails(g, n, s, s.log, e);
  }
}
