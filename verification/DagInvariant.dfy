/** The inductive invariant of the whole transition system, kept by every step. */
module DagInvariant {
  import opened Wrappers
  import opened Graphs
  import opened DagTables
  import opened DagState

  // ---- The invariant ----

  ghost predicate NoFailure<N(!new)>(log: seq<Event<N>>) {
    forall e :: e in log ==> e.phase != Failed
  }

  /** What must already have happened when e happens. */
  ghost predicate Justified<N>(g: Graph<N>, past: seq<Event<N>>, e: Event<N>) {
    && e !in past
    && match e.phase
       case Began =>
         && (forall f :: f in past ==> f.phase != Failed)
         && (e.kind == Visit ==>
               && Event(Resolve, Done, e.node) in past
               && forall d :: d in g.deps(e.node) ==> Event(Visit, Done, d) in past)
       case Done =>
         Event(e.kind, Began, e.node) in past && Event(e.kind, Failed, e.node) !in past
       case Failed =>
         Event(e.kind, Began, e.node) in past && Event(e.kind, Done, e.node) !in past
  }

  ghost predicate LogOk<N(!new)>(g: Graph<N>, log: seq<Event<N>>) {
    forall i :: 0 <= i < |log| ==> Justified(g, log[..i], log[i])
  }

  /** The log tells the state that each node is in, and whether some call failed. */
  ghost predicate LogAgrees<N(!new)>(s: Sys<N>) {
    var nodes := s.shared.tables.nodes;
    && (forall e :: e in s.log ==> e.node in nodes)
    && (forall n :: n in nodes ==>
          (Event(Resolve, Done, n) in s.log <==> nodes[n].status != DependenciesUnresolved))
    && (forall n :: n in nodes ==> (Event(Visit, Done, n) in s.log <==> nodes[n].status == Visited))
    && (NoFailure(s.log) <==> s.shared.firstErr.None?)
  }

  /** Nodes for which a call of this kind has begun and has not succeeded. */
  ghost function Begun<N>(s: Sys<N>, kind: Kind): set<N> {
    set n | n in s.shared.tables.nodes && Event(kind, Began, n) in s.log && Event(kind, Done, n) !in s.log
  }

  ghost predicate InFlight<N>(log: seq<Event<N>>, kind: Kind, n: N) {
    Event(kind, Began, n) in log && Event(kind, Done, n) !in log && Event(kind, Failed, n) !in log
  }

  function CountCalling<N>(pcs: seq<Pc<N>>): nat {
    if pcs == [] then 0
    else
      var last := |pcs| - 1;
      CountCalling(pcs[..last]) + if pcs[last].Calling? then 1 else 0
  }

  /** The workers that are in calls are in exactly the calls that are in progress. */
  ghost predicate CallsMatch<N(!new)>(pcs: seq<Pc<N>>, busy: int, log: seq<Event<N>>, kind: Kind) {
    && busy == CountCalling(pcs)
    && (forall n :: Calling(n) in pcs <==> InFlight(log, kind, n))
    && (forall i, j :: 0 <= i < j < |pcs| && pcs[i].Calling? ==> pcs[i] != pcs[j])
  }

  ghost predicate NobodyOversleeps<N>(sh: Shared<N>) {
    && (sh.resolversAsleep != {} ==> !sh.ResolversShouldWake())
    && (sh.visitorsAsleep != {} ==> !sh.VisitorsShouldWake())
  }

  ghost predicate SleepersAtHead<N>(pcs: seq<Pc<N>>, asleep: set<nat>) {
    forall w :: w in asleep ==> w < |pcs| && pcs[w] == AtHead
  }

  ghost predicate WorkersOk<N(!new)>(s: Sys<N>) {
    && CallsMatch(s.resolvers, s.shared.busyResolvers, s.log, Resolve)
    && CallsMatch(s.visitors, s.shared.busyVisitors, s.log, Visit)
    && NobodyOversleeps(s.shared)
    && SleepersAtHead(s.resolvers, s.shared.resolversAsleep)
    && SleepersAtHead(s.visitors, s.shared.visitorsAsleep)
    && (Returned in s.resolvers ==> s.shared.ResolversShouldExit())
    && (Returned in s.visitors ==> s.shared.VisitorsShouldExit())
  }

  ghost predicate SysInv<N(!new)>(g: Graph<N>, start: seq<N>, s: Sys<N>) {
    && TablesInv(g, s.shared.tables, Begun(s, Resolve), Begun(s, Visit))
    && Origin(g, start, s.shared.tables)
    && LogOk(g, s.log)
    && LogAgrees(s)
    && WorkersOk(s)
  }

  // ---- Workers ----

  lemma {:induction false} CountCallingUpdate<N>(pcs: seq<Pc<N>>, w: nat, pc: Pc<N>)
    requires w < |pcs|
    ensures CountCalling(pcs[w := pc])
         == CountCalling(pcs) + (if pc.Calling? then 1 else 0) - if pcs[w].Calling? then 1 else 0
  {
    var last := |pcs| - 1;
    if w == last {
      assert pcs[w := pc][..last] == pcs[..last];
    } else {
      assert pcs[w := pc][..last] == pcs[..last][w := pc];
      CountCallingUpdate(pcs[..last], w, pc);
    }
  }

  lemma {:induction false} CountCallingZero<N>(pcs: seq<Pc<N>>)
    ensures CountCalling(pcs) == 0 <==> forall w :: 0 <= w < |pcs| ==> !pcs[w].Calling?
  {
    if pcs != [] {
      var last := |pcs| - 1;
      CountCallingZero(pcs[..last]);
      assert forall w :: 0 <= w < last ==> pcs[..last][w] == pcs[w];
    }
  }

  lemma BeginCall<N(!new)>(pcs: seq<Pc<N>>, busy: int, log: seq<Event<N>>, kind: Kind, w: nat, n: N)
    requires CallsMatch(pcs, busy, log, kind) && w < |pcs| && pcs[w] == AtHead
    requires Event(kind, Began, n) !in log && Event(kind, Done, n) !in log && Event(kind, Failed, n) !in log
    ensures CallsMatch(pcs[w := Calling(n)], busy + 1, log + [Event(kind, Began, n)], kind)
  {
    var pcs' := pcs[w := Calling(n)];
    CountCallingUpdate(pcs, w, Calling(n));
    assert pcs'[w] == Calling(n);
    assert !InFlight(log, kind, n) && Calling(n) !in pcs;
    forall m
      ensures Calling(m) in pcs' <==> Calling(m) in pcs || m == n
    {
      if Calling(m) in pcs {
        var i :| 0 <= i < |pcs| && pcs[i] == Calling(m);
        assert pcs'[i] == Calling(m);
      }
    }
  }

  lemma EndCall<N(!new)>(pcs: seq<Pc<N>>, busy: int, log: seq<Event<N>>, kind: Kind, w: nat,
                         pc: Pc<N>, phase: Phase)
    requires CallsMatch(pcs, busy, log, kind) && w < |pcs| && pcs[w].Calling?
    requires !pc.Calling? && phase != Began
    ensures CallsMatch(pcs[w := pc], busy - 1, log + [Event(kind, phase, pcs[w].node)], kind)
  {
    var pcs' := pcs[w := pc];
    var n := pcs[w].node;
    CountCallingUpdate(pcs, w, pc);
    assert pcs[w] in pcs;
    forall m
      ensures Calling(m) in pcs' <==> Calling(m) in pcs && m != n
    {
      if Calling(m) in pcs && m != n {
        var i :| 0 <= i < |pcs| && pcs[i] == Calling(m);
        assert pcs'[i] == Calling(m);
      }
    }
  }

  lemma IdleChange<N(!new)>(pcs: seq<Pc<N>>, busy: int, log: seq<Event<N>>, kind: Kind, w: nat)
    requires CallsMatch(pcs, busy, log, kind) && w < |pcs| && pcs[w] == AtHead
    ensures CallsMatch(pcs[w := Returned], busy, log, kind)
  {
    var pcs' := pcs[w := Returned];
    CountCallingUpdate(pcs, w, Returned);
    forall m
      ensures Calling(m) in pcs' <==> Calling(m) in pcs
    {
      if Calling(m) in pcs {
        var i :| 0 <= i < |pcs| && pcs[i] == Calling(m);
        assert pcs'[i] == Calling(m);
      }
    }
  }

  // ---- The log ----

  lemma LogAppend<N(!new)>(g: Graph<N>, log: seq<Event<N>>, e: Event<N>)
    requires LogOk(g, log) && Justified(g, log, e)
    ensures LogOk(g, log + [e])
  {
    forall i | 0 <= i < |log + [e]|
      ensures Justified(g, (log + [e])[..i], (log + [e])[i])
    {
      assert (log + [e])[..i] == log[..i];
      if i == |log| {
        assert log[..i] == log;
      }
    }
  }

  /** A call cannot have ended in both ways, nor without having begun. */
  lemma LogConsistent<N(!new)>(g: Graph<N>, log: seq<Event<N>>, kind: Kind, n: N)
    requires LogOk(g, log)
    ensures !(Event(kind, Done, n) in log && Event(kind, Failed, n) in log)
    ensures Event(kind, Done, n) in log || Event(kind, Failed, n) in log ==> Event(kind, Began, n) in log
  {
    if Event(kind, Done, n) in log {
      var i :| 0 <= i < |log| && log[i] == Event(kind, Done, n);
      assert Justified(g, log[..i], log[i]);
    }
    if Event(kind, Failed, n) in log {
      var j :| 0 <= j < |log| && log[j] == Event(kind, Failed, n);
      assert Justified(g, log[..j], log[j]);
    }
  }

  // ---- Waking up ----

  /** An update that leaves the condition variables alone wakes whoever must be woken. */
  lemma UpdateWakes<N>(before: Shared<N>, after: Shared<N>)
    requires NobodyOversleeps(before)
    requires after.resolversAsleep == before.resolversAsleep && after.visitorsAsleep == before.visitorsAsleep
    ensures NobodyOversleeps(before.Update(after))
    ensures before.Update(after).resolversAsleep <= before.resolversAsleep
    ensures before.Update(after).visitorsAsleep <= before.visitorsAsleep
  {
  }

  ghost predicate FewerAsleep<N>(sh: Shared<N>, sh': Shared<N>) {
    sh'.resolversAsleep <= sh.resolversAsleep && sh'.visitorsAsleep <= sh.visitorsAsleep
  }

  /** busyResolvers++ happens outside any update, and still nobody oversleeps. */
  lemma BeginResolveWakes<N>(sh: Shared<N>)
    requires NobodyOversleeps(sh) && sh.ResolversShouldWake() && !sh.ResolversShouldExit()
    ensures NobodyOversleeps(sh.BeginResolve()) && FewerAsleep(sh, sh.BeginResolve())
  {
    var busy := sh.(busyResolvers := sh.busyResolvers + 1);
    assert NobodyOversleeps(busy);
  }

  lemma BeginVisitWakes<N>(sh: Shared<N>)
    requires NobodyOversleeps(sh) && sh.VisitorsShouldWake() && !sh.VisitorsShouldExit()
    ensures NobodyOversleeps(sh.BeginVisit()) && FewerAsleep(sh, sh.BeginVisit())
  {
    var busy := sh.(busyVisitors := sh.busyVisitors + 1);
    assert NobodyOversleeps(busy);
  }

  lemma NoLongerBusyWakes<N>(sh: Shared<N>)
    requires NobodyOversleeps(sh)
    ensures NobodyOversleeps(NoLongerResolving(sh)) && FewerAsleep(sh, NoLongerResolving(sh))
    ensures NobodyOversleeps(NoLongerVisiting(sh)) && FewerAsleep(sh, NoLongerVisiting(sh))
  {
    UpdateWakes(sh, sh.(busyResolvers := sh.busyResolvers - 1));
    UpdateWakes(sh, sh.(busyVisitors := sh.busyVisitors - 1));
  }

  lemma FailWakes<N>(sh: Shared<N>, e: Error)
    requires NobodyOversleeps(sh)
    ensures NobodyOversleeps(sh.Fail(e)) && FewerAsleep(sh, sh.Fail(e))
  {
    UpdateWakes(sh, sh.(firstErr := Some(e)));
  }
}
