/**
 The state shared by the workers of a traversal (internal/dag/visit.go), the
 sections of code they run while holding the lock, and the transition system
 whose atomic steps are those sections.

 A condition variable is the set of the workers asleep on it: broadcasting
 empties the set, and a worker outside it re-checks its loop condition.
 Between returning from a call and looking for more work a worker keeps the
 lock; the model lets other workers in there too, so its runs include all of
 the program's.
 */
module DagState {
  import opened Wrappers
  import opened Graphs
  import opened DagTables

  datatype Shared<N> = Shared(
    tables: Tables<N>,
    firstErr: Option<Error>,
    busyResolvers: int,
    busyVisitors: int,
    resolversAsleep: set<nat>,
    visitorsAsleep: set<nat>)
  {
    predicate ResolversShouldExit() {
      firstErr.Some? || (tables.toResolve == [] && busyResolvers == 0)
    }

    predicate VisitorsShouldExit() {
      firstErr.Some? || (tables.toVisit == [] && busyVisitors == 0 && ResolversShouldExit())
    }

    predicate ResolversShouldWake() {
      tables.toResolve != [] || ResolversShouldExit()
    }

    predicate VisitorsShouldWake() {
      tables.toVisit != [] || VisitorsShouldExit()
    }

    /** What `update` makes of a change from this state to `after`: it broadcasts. */
    function Update(after: Shared<N>): Shared<N> {
      after.(resolversAsleep :=
               if !ResolversShouldWake() && after.ResolversShouldWake() then {} else after.resolversAsleep,
             visitorsAsleep :=
               if !VisitorsShouldWake() && after.VisitorsShouldWake() then {} else after.visitorsAsleep)
    }

    /** How runAction records that a worker has failed. */
    function Fail(e: Error): Shared<N> {
      if firstErr.Some? then this else Update(this.(firstErr := Some(e)))
    }

    // ---- The lock-held sections before and after the outside calls ----

    function NextToResolve(): N
      requires tables.toResolve != []
    {
      tables.toResolve[|tables.toResolve| - 1]
    }

    function BeginResolve(): Shared<N>
      requires tables.toResolve != []
    {
      var busy := this.(busyResolvers := busyResolvers + 1);
      var l := |tables.toResolve|;
      busy.Update(busy.(tables := tables.(toResolve := tables.toResolve[..l - 1])))
    }

    function NextToVisit(): N
      requires tables.toVisit != []
    {
      tables.toVisit[|tables.toVisit| - 1]
    }

    function BeginVisit(): Shared<N>
      requires tables.toVisit != []
    {
      var busy := this.(busyVisitors := busyVisitors + 1);
      var l := |tables.toVisit|;
      busy.Update(busy.(tables := tables.(toVisit := tables.toVisit[..l - 1])))
    }
  }

  function NoLongerResolving<N>(sh: Shared<N>): Shared<N> {
    sh.Update(sh.(busyResolvers := sh.busyResolvers - 1))
  }

  function NoLongerVisiting<N>(sh: Shared<N>): Shared<N> {
    sh.Update(sh.(busyVisitors := sh.busyVisitors - 1))
  }

  function EndResolve<N(==)>(sh: Shared<N>, n: N, ds: seq<N>): Shared<N>
    requires n in sh.tables.nodes
  {
    NoLongerResolving(sh.Update(sh.(tables := FinishResolve(sh.tables, n, ds))))
  }

  function EndVisit<N(==)>(sh: Shared<N>, n: N): Shared<N>
    requires n in sh.tables.nodes
    requires forall d :: d in sh.tables.nodes[n].dependants ==> d in sh.tables.nodes
  {
    NoLongerVisiting(sh.Update(sh.(tables := FinishVisit(sh.tables, n))))
  }

  function FailResolve<N>(sh: Shared<N>, e: Error): Shared<N> {
    NoLongerResolving(sh).Fail(e)
  }

  function FailVisit<N>(sh: Shared<N>, e: Error): Shared<N> {
    NoLongerVisiting(sh).Fail(e)
  }

  // ---- The transition system ----

  datatype Kind = Resolve | Visit

  datatype Pc<N> = AtHead | Calling(node: N) | Returned

  datatype Phase = Began | Done | Failed

  /** A call to FindDependencies or Visit beginning, succeeding or failing. */
  datatype Event<N> = Event(kind: Kind, phase: Phase, node: N)

  datatype Sys<N> = Sys(shared: Shared<N>, resolvers: seq<Pc<N>>, visitors: seq<Pc<N>>, log: seq<Event<N>>)
  {
    function Workers(kind: Kind): seq<Pc<N>> {
      if kind == Resolve then resolvers else visitors
    }

    function Asleep(kind: Kind): set<nat> {
      if kind == Resolve then shared.resolversAsleep else shared.visitorsAsleep
    }

    predicate ShouldWake(kind: Kind) {
      if kind == Resolve then shared.ResolversShouldWake() else shared.VisitorsShouldWake()
    }

    predicate ShouldExit(kind: Kind) {
      if kind == Resolve then shared.ResolversShouldExit() else shared.VisitorsShouldExit()
    }

    function SetWorker(kind: Kind, w: nat, pc: Pc<N>): Sys<N>
      requires w < |Workers(kind)|
    {
      if kind == Resolve then this.(resolvers := resolvers[w := pc])
      else this.(visitors := visitors[w := pc])
    }

    function Sleep(kind: Kind, w: nat): Sys<N> {
      if kind == Resolve
      then this.(shared := shared.(resolversAsleep := shared.resolversAsleep + {w}))
      else this.(shared := shared.(visitorsAsleep := shared.visitorsAsleep + {w}))
    }

    function Record(e: Event<N>): Sys<N> {
      this.(log := log + [e])
    }
  }

  function EmptyShared<N>(): Shared<N> {
    Shared(Tables(map[], [], {}, []), None, 0, 0, {}, {})
  }

  /** The state in which the workers are started. */
  function Init<N(==)>(start: seq<N>, resolverParallelism: nat, visitorParallelism: nat): Sys<N> {
    var sh := EmptyShared<N>();
    Sys(sh.(tables := AddNodes(sh.tables, start)),
        seq(resolverParallelism, _ => AtHead),
        seq(visitorParallelism, _ => AtHead),
        [])
  }

  /**
   Look: a worker with the lock, at the head of its loop, acts on what it sees.
   Return: the call that a worker is in returns, with an error or without.
   */
  datatype Action = Look(kind: Kind, w: nat) | Return(kind: Kind, w: nat, err: Option<Error>)

  predicate Enabled<N(==)>(g: Graph<N>, s: Sys<N>, a: Action) {
    && a.w < |s.Workers(a.kind)|
    && match a
       case Look(kind, w) =>
         s.Workers(kind)[w] == AtHead && w !in s.Asleep(kind)
       case Return(kind, w, err) =>
         && s.Workers(kind)[w].Calling?
         && (err.None? ==>
               var n := s.Workers(kind)[w].node;
               if kind == Resolve then g.resolvable(n) else g.visitable(n))
  }

  /** Applying the action does not follow a pointer to a record that does not exist. */
  predicate Defined<N(==)>(s: Sys<N>, a: Action)
    requires a.w < |s.Workers(a.kind)|
  {
    a.Return? && s.Workers(a.kind)[a.w].Calling? ==>
      var nodes := s.shared.tables.nodes;
      var n := s.Workers(a.kind)[a.w].node;
      n in nodes && forall d :: d in nodes[n].dependants ==> d in nodes
  }

  function Begin<N>(s: Sys<N>, kind: Kind, w: nat): Sys<N>
    requires w < |s.Workers(kind)| && s.ShouldWake(kind) && !s.ShouldExit(kind)
  {
    if kind == Resolve then
      s.(shared := s.shared.BeginResolve())
       .SetWorker(kind, w, Calling(s.shared.NextToResolve()))
       .Record(Event(kind, Began, s.shared.NextToResolve()))
    else
      s.(shared := s.shared.BeginVisit())
       .SetWorker(kind, w, Calling(s.shared.NextToVisit()))
       .Record(Event(kind, Began, s.shared.NextToVisit()))
  }

  function End<N(==)>(g: Graph<N>, s: Sys<N>, kind: Kind, w: nat): Sys<N>
    requires w < |s.Workers(kind)| && s.Workers(kind)[w].Calling?
    requires Defined(s, Return(kind, w, None))
  {
    var n := s.Workers(kind)[w].node;
    s.(shared := if kind == Resolve then EndResolve(s.shared, n, g.deps(n)) else EndVisit(s.shared, n))
     .SetWorker(kind, w, AtHead)
     .Record(Event(kind, Done, n))
  }

  function EndWithError<N>(s: Sys<N>, kind: Kind, w: nat, e: Error): Sys<N>
    requires w < |s.Workers(kind)| && s.Workers(kind)[w].Calling?
  {
    s.(shared := if kind == Resolve then FailResolve(s.shared, e) else FailVisit(s.shared, e))
     .SetWorker(kind, w, Returned)
     .Record(Event(kind, Failed, s.Workers(kind)[w].node))
  }

  function Apply<N(==)>(g: Graph<N>, s: Sys<N>, a: Action): Sys<N>
    requires Enabled(g, s, a) && Defined(s, a)
  {
    match a
    case Look(kind, w) =>
      if !s.ShouldWake(kind) then s.Sleep(kind, w)
      else if s.ShouldExit(kind) then s.SetWorker(kind, w, Returned)
      else Begin(s, kind, w)
    case Return(kind, w, None) => End(g, s, kind, w)
    case Return(kind, w, Some(e)) => EndWithError(s, kind, w, e)
  }

  ghost predicate Step<N>(g: Graph<N>, s: Sys<N>, a: Action, s': Sys<N>) {
    Enabled(g, s, a) && Defined(s, a) && s' == Apply(g, s, a)
  }

  ghost predicate StepAt<N>(g: Graph<N>, states: seq<Sys<N>>, actions: seq<Action>, i: int) {
    && 0 <= i < |actions| && i + 1 < |states|
    && Step(g, states[i], actions[i], states[i + 1])
  }

  /** A run of the workers: the states passed through and the actions between them. */
  ghost predicate IsRun<N>(g: Graph<N>, start: seq<N>, resolverParallelism: nat, visitorParallelism: nat,
                           states: seq<Sys<N>>, actions: seq<Action>)
  {
    && |states| == |actions| + 1
    && states[0] == Init(start, resolverParallelism, visitorParallelism)
    && forall i {:trigger StepAt(g, states, actions, i)} :: 0 <= i < |actions| ==> StepAt(g, states, actions, i)
  }

  /** s is the last state of some run, with any numbers of workers. */
  ghost predicate Reached<N(!new)>(g: Graph<N>, start: seq<N>, s: Sys<N>) {
    exists r: nat, v: nat, states: seq<Sys<N>>, actions: seq<Action> ::
      IsRun(g, start, r, v, states, actions) && states[|actions|] == s
  }

  predicate AllReturned<N(==)>(s: Sys<N>) {
    && (forall w :: 0 <= w < |s.resolvers| ==> s.resolvers[w] == Returned)
    && (forall w :: 0 <= w < |s.visitors| ==> s.visitors[w] == Returned)
  }

  datatype Outcome<N> = Finished | StoppedBy(err: Error) | FoundCycle(unsatisfied: N)

  /** What Visit returns once every worker has returned. */
  ghost predicate VisitReturns<N>(s: Sys<N>, o: Outcome<N>) {
    match o
    case StoppedBy(e) => s.shared.firstErr == Some(e)
    case FoundCycle(n) => s.shared.firstErr.None? && n in s.shared.tables.unsatisfied
    case Finished => s.shared.firstErr.None? && s.shared.tables.unsatisfied == {}
  }

  /** s is the last state of a run in which there were workers of both kinds, and all have returned. */
  ghost predicate Quiescent<N(!new)>(g: Graph<N>, start: seq<N>, s: Sys<N>) {
    Reached(g, start, s) && AllReturned(s) && s.resolvers != [] && s.visitors != []
  }
}
