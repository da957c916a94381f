/**
 The scheduler of internal/dag/visit.go over mutable records, each method
 proved to change the shared state exactly as the transition system says.
 The lock is held throughout each of the methods.
 */
module DagHeap {
  import opened Wrappers
  import opened Graphs
  import DagTables
  import opened DagState
  import opened DagSteps
  import opened DagTheorems
  import opened DagProgress

  type Status = DagTables.Status

  class NodeInfo<N(==)> {
    const node: N
    var status: Status
    var depsUnsatisfied: int
    var dependants: seq<NodeInfo<N>>

    constructor (n: N)
      ensures node == n && status == DagTables.DependenciesUnresolved
      ensures depsUnsatisfied == 0 && dependants == []
    {
      node := n;
      status := DagTables.DependenciesUnresolved;
      depsUnsatisfied := 0;
      dependants := [];
    }
  }

  function Names<N>(infos: seq<NodeInfo<N>>): seq<N> {
    seq(|infos|, i requires 0 <= i < |infos| => infos[i].node)
  }

  class VisitState<N(==)> {
    var nodes: map<N, NodeInfo<N>>
    var toResolve: seq<NodeInfo<N>>
    var unsatisfied: set<NodeInfo<N>>
    var toVisit: seq<NodeInfo<N>>
    var firstErr: Option<Error>
    var busyResolvers: int
    var busyVisitors: int
    // The condition variables: who is waiting on each.
    var wakeResolvers: set<nat>
    var wakeVisitors: set<nat>

    ghost predicate Known(ni: NodeInfo<N>)
      reads this
    {
      ni.node in nodes && nodes[ni.node] == ni
    }

    ghost predicate AllKnown(infos: seq<NodeInfo<N>>)
      reads this
    {
      forall i :: 0 <= i < |infos| ==> Known(infos[i])
    }

    ghost predicate Valid()
      reads this, nodes.Values
    {
      && (forall n :: n in nodes ==> nodes[n].node == n && AllKnown(nodes[n].dependants))
      && AllKnown(toResolve) && AllKnown(toVisit)
      && (forall ni :: ni in unsatisfied ==> Known(ni))
    }

    function Info(n: N): DagTables.Info<N>
      requires n in nodes
      reads this, nodes[n]
    {
      DagTables.Info(nodes[n].status, nodes[n].depsUnsatisfied, Names(nodes[n].dependants))
    }

    function AbsTables(): DagTables.Tables<N>
      reads this, nodes.Values
    {
      DagTables.Tables(
        map n | n in nodes :: Info(n),
        Names(toResolve),
        set ni | ni in unsatisfied :: ni.node,
        Names(toVisit))
    }

    function Abs(): Shared<N>
      reads this, nodes.Values
    {
      Shared(AbsTables(), firstErr, busyResolvers, busyVisitors, wakeResolvers, wakeVisitors)
    }

    constructor ()
      ensures Valid() && Abs() == EmptyShared() && nodes == map[]
    {
      nodes := map[];
      toResolve, unsatisfied, toVisit := [], {}, [];
      firstErr := None;
      busyResolvers, busyVisitors := 0, 0;
      wakeResolvers, wakeVisitors := {}, {};
    }

    // ---- Exit and wake-up conditions ----

    predicate ResolversShouldExit()
      reads this
    {
      if firstErr.Some? then true
      else if |toResolve| != 0 then false
      else if busyResolvers != 0 then false
      else true
    }

    predicate VisitorsShouldExit()
      reads this
    {
      if firstErr.Some? then true
      else if |toVisit| != 0 then false
      else if busyVisitors != 0 then false
      else if !ResolversShouldExit() then false
      else true
    }

    predicate ResolversShouldWake()
      reads this
    {
      |toResolve| != 0 || ResolversShouldExit()
    }

    predicate VisitorsShouldWake()
      reads this
    {
      |toVisit| != 0 || VisitorsShouldExit()
    }

    lemma ConditionsAgree()
      ensures ResolversShouldExit() == Abs().ResolversShouldExit()
      ensures VisitorsShouldExit() == Abs().VisitorsShouldExit()
      ensures ResolversShouldWake() == Abs().ResolversShouldWake()
      ensures VisitorsShouldWake() == Abs().VisitorsShouldWake()
    {
      assert |Abs().tables.toResolve| == |toResolve|;
      assert |Abs().tables.toVisit| == |toVisit|;
    }

    /** The end of `update`: broadcast to whom the change has given something to do. */
    method Broadcast(resolversAwakeBefore: bool, visitorsAwakeBefore: bool, ghost before: Shared<N>)
      requires resolversAwakeBefore == before.ResolversShouldWake()
      requires visitorsAwakeBefore == before.VisitorsShouldWake()
      requires Valid()
      modifies this`wakeResolvers, this`wakeVisitors
      ensures Valid()
      ensures Abs() == before.Update(old(Abs()))
    {
      ConditionsAgree();
      if !resolversAwakeBefore && ResolversShouldWake() {
        wakeResolvers := {};
      }
      if !visitorsAwakeBefore && VisitorsShouldWake() {
        wakeVisitors := {};
      }
      assert Abs().tables == old(Abs().tables);
    }

    // ---- addNodes and reinsert ----

    method Reinsert(ni: NodeInfo<N>)
      requires Valid() && Known(ni)
      modifies this`toResolve, this`unsatisfied, this`toVisit
      ensures Valid()
      ensures AbsTables() == DagTables.Reinsert(old(AbsTables()), ni.node)
    {
      match ni.status {
        case DependenciesUnresolved => toResolve := toResolve + [ni];
        case DependenciesUnsatisfied => unsatisfied := unsatisfied + {ni};
        case Unvisited => toVisit := toVisit + [ni];
        case Visited =>
      }
      assert AbsTables().nodes == old(AbsTables().nodes);
      assert Names(old(toResolve) + [ni]) == Names(old(toResolve)) + [ni.node];
      assert Names(old(toVisit) + [ni]) == Names(old(toVisit)) + [ni.node];
    }

    /** Everything but the tables stays as it was. */
    twostate predicate OnlyTables()
      reads this
    {
      && firstErr == old(firstErr)
      && busyResolvers == old(busyResolvers) && busyVisitors == old(busyVisitors)
      && wakeResolvers == old(wakeResolvers) && wakeVisitors == old(wakeVisitors)
    }

    method InsertNode(ni: NodeInfo<N>)
      requires Valid() && ni.node !in nodes
      requires ni.status == DagTables.DependenciesUnresolved && ni.depsUnsatisfied == 0 && ni.dependants == []
      modifies this`nodes
      ensures Valid() && nodes == old(nodes)[ni.node := ni]
      ensures AbsTables() == old(AbsTables()).(nodes :=
                old(AbsTables()).nodes[ni.node := DagTables.Info(DagTables.DependenciesUnresolved, 0, [])])
    {
      nodes := nodes[ni.node := ni];
      assert Info(ni.node) == DagTables.Info(DagTables.DependenciesUnresolved, 0, []);
      assert AbsTables().nodes ==
          old(AbsTables()).nodes[ni.node := DagTables.Info(DagTables.DependenciesUnresolved, 0, [])];
    }

    method AddNode(n: N)
      requires Valid()
      modifies this`nodes, this`toResolve, this`unsatisfied, this`toVisit
      ensures Valid() && OnlyTables()
      ensures AbsTables() == DagTables.AddNode(old(AbsTables()), n)
      ensures n in nodes && forall m :: m in old(nodes) ==> m in nodes && nodes[m] == old(nodes[m])
      ensures forall m :: m in nodes && m !in old(nodes) ==> fresh(nodes[m])
    {
      if n !in nodes {
        var ni := new NodeInfo(n);
        InsertNode(ni);
        Reinsert(ni);
      }
    }

    method AddNodes(ns: seq<N>)
      requires Valid()
      modifies this`nodes, this`toResolve, this`unsatisfied, this`toVisit
      ensures Valid() && OnlyTables()
      ensures AbsTables() == DagTables.AddNodes(old(AbsTables()), ns)
      ensures forall n :: n in ns ==> n in nodes
      ensures forall m :: m in old(nodes) ==> m in nodes && nodes[m] == old(nodes[m])
      ensures forall m :: m in nodes && m !in old(nodes) ==> fresh(nodes[m])
    {
      for i := 0 to |ns|
        invariant Valid() && OnlyTables()
        invariant AbsTables() == DagTables.AddNodes(old(AbsTables()), ns[..i])
        invariant forall m :: m in old(nodes) ==> m in nodes && nodes[m] == old(nodes[m])
        invariant forall m :: m in nodes && m !in old(nodes) ==> fresh(nodes[m])
      {
        DagTables.AddNodesStep(old(AbsTables()), ns, i);
        AddNode(ns[i]);
      }
      assert ns[..|ns|] == ns;
      assert nodes.Keys == AbsTables().nodes.Keys;
    }

    // ---- resolveOne ----

    method BeginResolve() returns (ni: NodeInfo<N>)
      requires Valid() && |toResolve| > 0
      modifies this`busyResolvers, this`toResolve, this`wakeResolvers, this`wakeVisitors
      ensures Valid() && Known(ni)
      ensures ni.node == old(Abs()).NextToResolve()
      ensures Abs() == old(Abs()).BeginResolve()
    {
      busyResolvers := busyResolvers + 1;
      ghost var busy := Abs();
      ConditionsAgree();
      var r, v := ResolversShouldWake(), VisitorsShouldWake();
      var l := |toResolve|;
      ni := toResolve[l - 1];
      toResolve := toResolve[..l - 1];
      assert busy == old(Abs()).(busyResolvers := old(busyResolvers) + 1);
      assert Abs() == busy.(tables := busy.tables.(toResolve := busy.tables.toResolve[..l - 1]));
      Broadcast(r, v, busy);
    }

    method NoteDep(ni: NodeInfo<N>, depNi: NodeInfo<N>)
      requires Valid() && Known(ni) && Known(depNi)
      modifies ni`depsUnsatisfied, depNi`dependants
      ensures Valid()
      ensures AbsTables() == DagTables.NoteDep(old(AbsTables()), ni.node, depNi.node)
    {
      if depNi.status == DagTables.Visited {
        return;
      }
      ni.depsUnsatisfied := ni.depsUnsatisfied + 1;
      depNi.dependants := depNi.dependants + [ni];
      assert Names(depNi.dependants) == Names(old(depNi.dependants)) + [ni.node];
      assert AbsTables().nodes == DagTables.NoteDep(old(AbsTables()), ni.node, depNi.node).nodes;
    }

    /** Notes each of the dependencies, in order. */
    method NoteDeps(ni: NodeInfo<N>, deps: seq<N>)
      requires Valid() && Known(ni) && forall d :: d in deps ==> d in nodes
      modifies nodes.Values
      ensures Valid()
      ensures AbsTables() == DagTables.NoteDeps(old(AbsTables()), ni.node, deps)
    {
      for i := 0 to |deps|
        invariant Valid()
        invariant AbsTables() == DagTables.NoteDeps(old(AbsTables()), ni.node, deps[..i])
      {
        DagTables.NoteDepsStep(old(AbsTables()), ni.node, deps, i);
        NoteDep(ni, nodes[deps[i]]);
      }
      assert deps[..|deps|] == deps;
    }

    method Settle(ni: NodeInfo<N>)
      requires Valid() && Known(ni)
      modifies ni`status, this`toResolve, this`unsatisfied, this`toVisit
      ensures Valid()
      ensures AbsTables() == DagTables.Settle(old(AbsTables()), ni.node)
    {
      if ni.depsUnsatisfied > 0 {
        ni.status := DagTables.DependenciesUnsatisfied;
      } else {
        ni.status := DagTables.Unvisited;
      }
      assert AbsTables().nodes ==
          old(AbsTables()).nodes[ni.node := old(AbsTables()).nodes[ni.node].(status := ni.status)];
      Reinsert(ni);
    }

    method NoteAndSettle(ni: NodeInfo<N>, deps: seq<N>)
      requires Valid() && Known(ni) && forall d :: d in deps ==> d in nodes
      modifies nodes.Values, this`toResolve, this`unsatisfied, this`toVisit
      ensures Valid()
      ensures AbsTables() == DagTables.Settle(DagTables.NoteDeps(old(AbsTables()), ni.node, deps), ni.node)
    {
      NoteDeps(ni, deps);
      Settle(ni);
    }

    method FinishResolve(ni: NodeInfo<N>, deps: seq<N>)
      requires Valid() && Known(ni)
      modifies this, nodes.Values
      ensures Valid() && OnlyTables()
      ensures AbsTables() == DagTables.FinishResolve(old(AbsTables()), ni.node, deps)
      ensures NoneForgotten()
    {
      AddNodes(deps);
      NoteAndSettle(ni, deps);
    }

    /** Known records stay known, and the others are new. */
    twostate predicate NoneForgotten()
      reads this
    {
      && (forall m :: m in old(nodes) ==> m in nodes && nodes[m] == old(nodes[m]))
      && (forall m :: m in nodes && m !in old(nodes) ==> fresh(nodes[m]))
    }

    method UpdateForResolved(ni: NodeInfo<N>, deps: seq<N>)
      requires Valid() && Known(ni)
      modifies this, nodes.Values
      ensures Valid() && NoneForgotten()
      ensures Abs() == old(Abs()).Update(
        old(Abs()).(tables := DagTables.FinishResolve(old(Abs()).tables, ni.node, deps)))
    {
      ghost var before := Abs();
      ConditionsAgree();
      var r, v := ResolversShouldWake(), VisitorsShouldWake();
      FinishResolve(ni, deps);
      Broadcast(r, v, before);
    }

    /** What resolveOne does once FindDependencies(ni.node) has returned deps. */
    method EndResolve(ni: NodeInfo<N>, deps: seq<N>)
      requires Valid() && Known(ni)
      modifies this, nodes.Values
      ensures Valid() && NoneForgotten()
      ensures Abs() == DagState.EndResolve(old(Abs()), ni.node, deps)
    {
      UpdateForResolved(ni, deps);
      NoLongerResolving();
    }

    method NoLongerResolving()
      requires Valid()
      modifies this`busyResolvers, this`wakeResolvers, this`wakeVisitors
      ensures Valid() && Abs() == DagState.NoLongerResolving(old(Abs()))
    {
      ConditionsAgree();
      var r, v := ResolversShouldWake(), VisitorsShouldWake();
      busyResolvers := busyResolvers - 1;
      assert Abs() == old(Abs()).(busyResolvers := busyResolvers);
      Broadcast(r, v, old(Abs()));
    }

    /** resolveOne and runAction when FindDependencies has failed. */
    method FailResolve(e: Error)
      requires Valid()
      modifies this`busyResolvers, this`firstErr, this`wakeResolvers, this`wakeVisitors
      ensures Valid() && Abs() == DagState.FailResolve(old(Abs()), e)
    {
      NoLongerResolving();
      Fail(e);
    }

    /** The part of runAction that follows a failed action. */
    method Fail(e: Error)
      requires Valid()
      modifies this`firstErr, this`wakeResolvers, this`wakeVisitors
      ensures Valid() && Abs() == old(Abs()).Fail(e)
    {
      if firstErr == None {
        ConditionsAgree();
        var r, v := ResolversShouldWake(), VisitorsShouldWake();
        firstErr := Some(e);
        assert Abs() == old(Abs()).(firstErr := Some(e));
        Broadcast(r, v, old(Abs()));
      }
    }

    // ---- visitOne ----

    method BeginVisit() returns (ni: NodeInfo<N>)
      requires Valid() && |toVisit| > 0
      modifies this`busyVisitors, this`toVisit, this`wakeResolvers, this`wakeVisitors
      ensures Valid() && Known(ni)
      ensures ni.node == old(Abs()).NextToVisit()
      ensures Abs() == old(Abs()).BeginVisit()
    {
      busyVisitors := busyVisitors + 1;
      ghost var busy := Abs();
      ConditionsAgree();
      var r, v := ResolversShouldWake(), VisitorsShouldWake();
      var l := |toVisit|;
      ni := toVisit[l - 1];
      toVisit := toVisit[..l - 1];
      assert busy == old(Abs()).(busyVisitors := old(busyVisitors) + 1);
      assert Abs() == busy.(tables := busy.tables.(toVisit := busy.tables.toVisit[..l - 1]));
      Broadcast(r, v, busy);
    }

    method Satisfy(dep: NodeInfo<N>)
      requires Valid() && Known(dep)
      modifies dep`depsUnsatisfied, dep`status, this`toResolve, this`unsatisfied, this`toVisit
      ensures Valid()
      ensures AbsTables() == DagTables.Satisfy(old(AbsTables()), dep.node)
    {
      dep.depsUnsatisfied := dep.depsUnsatisfied - 1;
      ghost var left := old(AbsTables()).nodes[dep.node].(depsUnsatisfied := dep.depsUnsatisfied);
      if dep.depsUnsatisfied == 0 {
        dep.status := DagTables.Unvisited;
        unsatisfied := unsatisfied - {dep};
        assert AbsTables().nodes == old(AbsTables()).nodes[dep.node := left.(status := DagTables.Unvisited)];
        assert AbsTables().unsatisfied == old(AbsTables()).unsatisfied - {dep.node};
        Reinsert(dep);
      } else {
        assert AbsTables().nodes == old(AbsTables()).nodes[dep.node := left];
      }
    }

    method SatisfyAll(dependants: seq<NodeInfo<N>>)
      requires Valid() && AllKnown(dependants)
      modifies nodes.Values, this`toResolve, this`unsatisfied, this`toVisit
      ensures Valid()
      ensures forall d :: d in Names(dependants) ==> d in nodes
      ensures AbsTables() == DagTables.SatisfyAll(old(AbsTables()), Names(dependants))
    {
      var names := Names(dependants);
      for i := 0 to |dependants|
        invariant Valid() && AllKnown(dependants)
        invariant AbsTables() == DagTables.SatisfyAll(old(AbsTables()), names[..i])
      {
        DagTables.SatisfyAllStep(old(AbsTables()), names, i);
        Satisfy(dependants[i]);
      }
      assert names[..|names|] == names;
    }

    method MarkVisited(ni: NodeInfo<N>)
      requires Valid() && Known(ni)
      modifies ni`dependants, ni`status, this`toResolve, this`unsatisfied, this`toVisit
      ensures Valid()
      ensures var t := old(AbsTables());
        AbsTables() == DagTables.Reinsert(
          t.(nodes := t.nodes[ni.node := t.nodes[ni.node].(dependants := [], status := DagTables.Visited)]),
          ni.node)
    {
      ni.dependants := [];
      ni.status := DagTables.Visited;
      ghost var t := old(AbsTables());
      assert AbsTables().nodes ==
          t.nodes[ni.node := t.nodes[ni.node].(dependants := [], status := DagTables.Visited)];
      Reinsert(ni);
    }

    method FinishVisit(ni: NodeInfo<N>)
      requires Valid() && Known(ni)
      modifies nodes.Values, this`toResolve, this`unsatisfied, this`toVisit
      ensures Valid()
      ensures forall d :: d in old(AbsTables()).nodes[ni.node].dependants ==> d in nodes
      ensures AbsTables() == DagTables.FinishVisit(old(AbsTables()), ni.node)
    {
      SatisfyAll(ni.dependants);
      MarkVisited(ni);
    }

    method UpdateForVisited(ni: NodeInfo<N>)
      requires Valid() && Known(ni)
      modifies nodes.Values, this`toResolve, this`unsatisfied, this`toVisit,
               this`wakeResolvers, this`wakeVisitors
      ensures Valid()
      ensures forall d :: d in old(Abs()).tables.nodes[ni.node].dependants ==> d in nodes
      ensures Abs() == old(Abs()).Update(
        old(Abs()).(tables := DagTables.FinishVisit(old(Abs()).tables, ni.node)))
    {
      ghost var before := Abs();
      ConditionsAgree();
      var r, v := ResolversShouldWake(), VisitorsShouldWake();
      FinishVisit(ni);
      Broadcast(r, v, before);
    }

    /** What visitOne does once Visit(ni.node) has returned. */
    method EndVisit(ni: NodeInfo<N>)
      requires Valid() && Known(ni)
      modifies nodes.Values, this`toResolve, this`unsatisfied, this`toVisit,
               this`busyVisitors, this`wakeResolvers, this`wakeVisitors
      ensures Valid()
      ensures forall d :: d in old(Abs()).tables.nodes[ni.node].dependants ==> d in nodes
      ensures Abs() == DagState.EndVisit(old(Abs()), ni.node)
    {
      UpdateForVisited(ni);
      NoLongerVisiting();
    }

    method NoLongerVisiting()
      requires Valid()
      modifies this`busyVisitors, this`wakeResolvers, this`wakeVisitors
      ensures Valid() && Abs() == DagState.NoLongerVisiting(old(Abs()))
    {
      ConditionsAgree();
      var r, v := ResolversShouldWake(), VisitorsShouldWake();
      busyVisitors := busyVisitors - 1;
      assert Abs() == old(Abs()).(busyVisitors := busyVisitors);
      Broadcast(r, v, old(Abs()));
    }

    /** visitOne and runAction when Visit has failed. */
    method FailVisit(e: Error)
      requires Valid()
      modifies this`busyVisitors, this`firstErr, this`wakeResolvers, this`wakeVisitors
      ensures Valid() && Abs() == DagState.FailVisit(old(Abs()), e)
    {
      NoLongerVisiting();
      Fail(e);
    }

    // ---- The worker loops ----

    /** Go to sleep on a condition variable. */
    method Wait(kind: Kind, w: nat)
      requires Valid()
      modifies this`wakeResolvers, this`wakeVisitors
      ensures Valid()
      ensures Abs() == if kind == Resolve
        then old(Abs()).(resolversAsleep := old(Abs()).resolversAsleep + {w})
        else old(Abs()).(visitorsAsleep := old(Abs()).visitorsAsleep + {w})
    {
      if kind == Resolve {
        wakeResolvers := wakeResolvers + {w};
      } else {
        wakeVisitors := wakeVisitors + {w};
      }
      assert Abs().tables == old(Abs()).tables;
    }

    /** One turn of resolveNodes or visitNodes, up to where it lets go of the lock. */
    method Look(s: Sys<N>, kind: Kind, w: nat) returns (pc: Pc<N>, began: seq<Event<N>>)
      requires Valid() && Abs() == s.shared && w < |s.Workers(kind)| && s.Workers(kind)[w] == AtHead
      modifies this
      ensures Valid() && nodes == old(nodes)
      ensures s.(shared := Abs()).SetWorker(kind, w, pc).(log := s.log + began)
           == if !s.ShouldWake(kind) then s.Sleep(kind, w)
              else if s.ShouldExit(kind) then s.SetWorker(kind, w, Returned)
              else Begin(s, kind, w)
    {
      ConditionsAgree();
      pc, began := AtHead, [];
      if kind == Resolve {
        if !ResolversShouldWake() {
          Wait(kind, w);
        } else if ResolversShouldExit() {
          pc := Returned;
        } else {
          var ni := BeginResolve();
          pc, began := Calling(ni.node), [Event(kind, Began, ni.node)];
        }
      } else {
        if !VisitorsShouldWake() {
          Wait(kind, w);
        } else if VisitorsShouldExit() {
          pc := Returned;
        } else {
          var ni := BeginVisit();
          pc, began := Calling(ni.node), [Event(kind, Began, ni.node)];
        }
      }
    }

    /** What a worker does when its call returns. */
    method Return(g: Graph<N>, kind: Kind, n: N, err: Option<Error>)
      requires Valid() && n in nodes
      modifies this, nodes.Values
      ensures Valid() && NoneForgotten()
      ensures forall d :: d in old(Abs()).tables.nodes[n].dependants ==> d in old(Abs()).tables.nodes
      ensures Abs() == match err
        case None => if kind == Resolve then DagState.EndResolve(old(Abs()), n, g.deps(n)) else DagState.EndVisit(old(Abs()), n)
        case Some(e) => if kind == Resolve then DagState.FailResolve(old(Abs()), e) else DagState.FailVisit(old(Abs()), e)
    {
      match err {
        case None =>
          if kind == Resolve {
            EndResolve(nodes[n], g.deps(n));
          } else {
            EndVisit(nodes[n]);
          }
        case Some(e) =>
          if kind == Resolve {
            FailResolve(e);
          } else {
            FailVisit(e);
          }
      }
    }

    method TakeStep(g: Graph<N>, s: Sys<N>, a: Action) returns (s': Sys<N>)
      requires Valid() && Abs() == s.shared && Enabled(g, s, a) && Defined(s, a)
      modifies this, nodes.Values
      ensures Valid() && NoneForgotten()
      ensures s' == Apply(g, s, a) && s'.shared == Abs()
    {
      match a {
        case Look(kind, w) =>
          var pc, began := Look(s, kind, w);
          s' := s.(shared := Abs()).SetWorker(kind, w, pc).(log := s.log + began);
        case Return(kind, w, err) =>
          var n := s.Workers(kind)[w].node;
          Return(g, kind, n, err);
          s' := s.(shared := Abs())
                 .SetWorker(kind, w, if err.None? then AtHead else Returned)
                 .Record(Event(kind, if err.None? then Done else Failed, n));
      }
    }
  }

  ghost predicate CanMove<N(!new)>(g: Graph<N>, s: Sys<N>) {
    exists a :: Enabled(g, s, a)
  }

  /** All that is asked of a schedule: to pick a step that can be taken while there is one. */
  ghost predicate Schedules<N(!new)>(g: Graph<N>, schedule: Sys<N> -> Action) {
    forall s: Sys<N> {:trigger schedule(s)} :: CanMove(g, s) ==> Enabled(g, s, schedule(s))
  }

  function NodeProgress<N>(s: Sys<N>, universe: set<N>): int {
    6 * |universe| - |s.log|
  }

  lemma ReachedCanMove<N(!new)>(g: Graph<N>, start: seq<N>, s: Sys<N>)
    requires Reached(g, start, s) && s.resolvers != [] && !AllReturned(s)
    ensures CanMove(g, s)
    ensures forall a :: Enabled(g, s, a) ==> Defined(s, a)
  {
    NoDeadlock(g, start, s);
    ReachedInv(g, start, s);
    forall a | Enabled(g, s, a)
      ensures Defined(s, a)
    {
      CallsAreDefined(g, start, s, a);
    }
  }

  /** Every step goes on to another state of a run, nearer to the end. */
  lemma ReachedAdvances<N(!new)>(g: Graph<N>, start: seq<N>, s: Sys<N>, a: Action, u: set<N>)
    requires Reached(g, start, s) && Enabled(g, s, a) && Defined(s, a)
    requires ClosedUnderDeps(g, u) && forall n :: n in start ==> n in u
    ensures var s' := Apply(g, s, a);
      && Reached(g, start, s')
      && 0 <= NodeProgress(s', u) <= NodeProgress(s, u)
      && (NodeProgress(s', u) == NodeProgress(s, u) ==> RunnableWorkers(s') < RunnableWorkers(s))
  {
    ReachedNext(g, start, s, a);
    StepProgresses(g, s, a);
    LogIsBounded(g, start, Apply(g, s, a), u);
  }

  lemma StepKeepsWorkers<N>(g: Graph<N>, s: Sys<N>, a: Action)
    requires Enabled(g, s, a) && Defined(s, a)
    ensures var s' := Apply(g, s, a);
      |s'.resolvers| == |s.resolvers| && |s'.visitors| == |s.visitors|
  {
  }

  /** The run that the schedule makes. */
  ghost predicate IsScheduledRun<N(!new)>(g: Graph<N>, start: seq<N>, r: nat, v: nat, schedule: Sys<N> -> Action,
                                          states: seq<Sys<N>>, actions: seq<Action>)
  {
    IsRun(g, start, r, v, states, actions) && forall i :: 0 <= i < |actions| ==> actions[i] == schedule(states[i])
  }

  lemma RunGoesOn<N(!new)>(g: Graph<N>, start: seq<N>, r: nat, v: nat, schedule: Sys<N> -> Action,
                           states: seq<Sys<N>>, actions: seq<Action>, s: Sys<N>)
    requires IsScheduledRun(g, start, r, v, schedule, states, actions)
    requires Step(g, states[|actions|], schedule(states[|actions|]), s)
    ensures IsScheduledRun(g, start, r, v, schedule, states + [s], actions + [schedule(states[|actions|])])
  {
    RunLonger(g, start, r, v, states, actions, schedule(states[|actions|]), s);
  }

  lemma ReturnsFirstFailure<N(!new)>(g: Graph<N>, start: seq<N>, r: nat, v: nat,
                                     states: seq<Sys<N>>, actions: seq<Action>, o: Outcome<N>, e: Error)
    requires IsRun(g, start, r, v, states, actions) && VisitReturns(states[|actions|], o)
    ensures o == StoppedBy(e) <==> exists k :: FirstFailure(actions, k) && ErrorOf(actions[k]) == Some(e)
  {
    FirstErrorIsFirstFailure(g, start, r, v, states, actions, e);
  }

  /**
   A whole traversal, its workers interleaved by an arbitrary schedule that also
   decides how each outside call ends. It always ends, and what it returns is
   what the transition system says of the state then reached; if a call has
   failed it is the error that the first one to fail has given.
   */
  method Visit<N(==,!new)>(g: Graph<N>, start: seq<N>, resolverParallelism: nat, visitorParallelism: nat,
                           schedule: Sys<N> -> Action, ghost universe: set<N>)
    returns (o: Outcome<N>, final: Sys<N>, ghost states: seq<Sys<N>>, ghost actions: seq<Action>)
    requires resolverParallelism >= 1 && visitorParallelism >= 1
    requires ClosedUnderDeps(g, universe) && forall n :: n in start ==> n in universe
    requires Schedules(g, schedule)
    ensures Quiescent(g, start, final) && VisitReturns(final, o)
    ensures IsScheduledRun(g, start, resolverParallelism, visitorParallelism, schedule, states, actions)
    ensures states[|actions|] == final
    ensures forall e :: o == StoppedBy(e) <==> exists k :: FirstFailure(actions, k) && ErrorOf(actions[k]) == Some(e)
  {
    var state := new VisitState<N>();
    state.AddNodes(start);
    final := Init(start, resolverParallelism, visitorParallelism);
    ReachedFirst(g, start, resolverParallelism, visitorParallelism);
    states, actions := [final], [];
    assert state.Abs() == final.shared;
    while !AllReturned(final)
      invariant state.Valid() && state.Abs() == final.shared && fresh(state)
      invariant forall n :: n in state.nodes ==> fresh(state.nodes[n])
      invariant IsScheduledRun(g, start, resolverParallelism, visitorParallelism, schedule, states, actions)
      invariant states[|actions|] == final && Reached(g, start, final)
      invariant final.resolvers != [] && final.visitors != []
      decreases NodeProgress(final, universe), RunnableWorkers(final)
    {
      ReachedCanMove(g, start, final);
      var a := schedule(final);
      RunGoesOn(g, start, resolverParallelism, visitorParallelism, schedule, states, actions, Apply(g, final, a));
      states, actions := states + [Apply(g, final, a)], actions + [a];
      ReachedAdvances(g, start, final, a, universe);
      StepKeepsWorkers(g, final, a);
      final := state.TakeStep(g, final, a);
    }
    o := Verdict(state, final);
    forall e
      ensures o == StoppedBy(e) <==> exists k :: FirstFailure(actions, k) && ErrorOf(actions[k]) == Some(e)
    {
      ReturnsFirstFailure(g, start, resolverParallelism, visitorParallelism, states, actions, o, e);
    }
  }

  method Verdict<N(==)>(state: VisitState<N>, final: Sys<N>) returns (o: Outcome<N>)
    requires state.Valid() && state.Abs() == final.shared
    ensures VisitReturns(final, o)
  {
    if state.firstErr.Some? {
      o := StoppedBy(state.firstErr.value);
    } else if |state.unsatisfied| > 0 {
      var ni :| ni in state.unsatisfied;
      o := FoundCycle(ni.node);
    } else {
      o := Finished;
    }
  }
}
