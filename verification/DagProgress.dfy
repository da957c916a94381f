/** The workers neither get stuck nor run for ever, and leave only for good. */
module DagProgress {
  import opened Wrappers
  import opened Graphs
  import opened DagState
  import opened DagInvariant
  import opened DagSteps
  import opened DagTheorems

  // ---- No lost wake-up, no deadlock ----

  /** A worker left asleep has nothing to wake up for. */
  lemma NoLostWakeUp<N(!new)>(g: Graph<N>, start: seq<N>, s: Sys<N>, kind: Kind, w: nat)
    requires Reached(g, start, s) && w in s.Asleep(kind)
    ensures w < |s.Workers(kind)| && s.Workers(kind)[w] == AtHead && !s.ShouldWake(kind)
  {
    ReachedInv(g, start, s);
  }

  lemma {:induction false} SomeoneIsCalling<N>(pcs: seq<Pc<N>>) returns (w: nat)
    requires CountCalling(pcs) > 0
    ensures w < |pcs| && pcs[w].Calling?
  {
    var last := |pcs| - 1;
    if pcs[last].Calling? {
      w := last;
    } else {
      w := SomeoneIsCalling(pcs[..last]);
    }
  }

  /** A worker that is asleep waits, in the end, for a worker that can run. */
  lemma SleeperWaitsForSomeone<N(!new)>(g: Graph<N>, s: Sys<N>, kind: Kind) returns (a: Action)
    requires WorkersOk(s) && s.Asleep(kind) != {} && s.resolvers != []
    ensures Enabled(g, s, a)
  {
    var w :| w in s.Asleep(kind);
    if s.shared.busyResolvers != 0 {
      var c := SomeoneIsCalling(s.resolvers);
      a := Return(Resolve, c, Some(""));
    } else if s.shared.busyVisitors != 0 {
      var c := SomeoneIsCalling(s.visitors);
      a := Return(Visit, c, Some(""));
    } else {
      CountCallingZero(s.resolvers);
      assert s.resolvers[0] in s.resolvers;
      a := Look(Resolve, 0);
    }
  }

  lemma SomeoneCanMove<N(!new)>(g: Graph<N>, s: Sys<N>, kind: Kind, w: nat) returns (a: Action)
    requires WorkersOk(s) && s.resolvers != [] && w < |s.Workers(kind)| && s.Workers(kind)[w] != Returned
    ensures Enabled(g, s, a)
  {
    if s.Workers(kind)[w].Calling? {
      a := Return(kind, w, Some(""));
    } else if w !in s.Asleep(kind) {
      a := Look(kind, w);
    } else {
      a := SleeperWaitsForSomeone(g, s, kind);
    }
  }

  /** While some worker has not returned, some worker can take a step. */
  lemma NoDeadlock<N(!new)>(g: Graph<N>, start: seq<N>, s: Sys<N>)
    requires Reached(g, start, s) && s.resolvers != [] && !AllReturned(s)
    ensures exists a :: Enabled(g, s, a)
  {
    ReachedInv(g, start, s);
    var kind, w :| 0 <= w < |s.Workers(kind)| && s.Workers(kind)[w] != Returned;
    var a := SomeoneCanMove(g, s, kind, w);
  }

  // ---- Workers leave only when no more work can appear ----

  lemma StepKeepsExit<N(!new)>(g: Graph<N>, start: seq<N>, s: Sys<N>, a: Action, kind: Kind)
    requires SysInv(g, start, s) && Enabled(g, s, a) && Defined(s, a) && s.ShouldExit(kind)
    ensures Apply(g, s, a).ShouldExit(kind)
  {
    if s.shared.firstErr.Some? {
      StepIsLater(g, s, a);
    } else {
      match a
      case Look(k, w) =>
      case Return(k, w, None) =>
        CallInProgress(s, k, w);
        EndVisitTables(g, start, s, w);
        EndVisitWakes(s.shared, s.visitors[w].node);
      case Return(k, w, Some(e)) =>
        FailEffect(s.shared, e);
    }
  }

  /** An exit condition that holds once holds in every later state of the run. */
  lemma {:induction false} ExitIsPermanent<N(!new)>(
    g: Graph<N>, start: seq<N>, r: nat, v: nat,
    states: seq<Sys<N>>, actions: seq<Action>, i: nat, j: nat, kind: Kind)
    requires IsRun(g, start, r, v, states, actions) && i <= j < |states| && states[i].ShouldExit(kind)
    ensures states[j].ShouldExit(kind)
    decreases j - i
  {
    if i < j {
      ExitIsPermanent(g, start, r, v, states, actions, i, j - 1, kind);
      RunKeepsInv(g, start, r, v, states, actions, j - 1);
      assert StepAt(g, states, actions, j - 1);
      StepKeepsExit(g, start, states[j - 1], actions[j - 1], kind);
    }
  }

  // ---- Termination ----

  ghost function EventsOf<N>(u: set<N>): set<Event<N>> {
    set n, kind: Kind, phase: Phase | n in u :: Event(kind, phase, n)
  }

  lemma {:induction false} EventsOfSize<N>(u: set<N>)
    ensures |EventsOf(u)| <= 6 * |u|
  {
    if u != {} {
      var x :| x in u;
      var rest := EventsOf(u - {x});
      var own := {Event(Resolve, Began, x), Event(Resolve, Done, x), Event(Resolve, Failed, x),
                  Event(Visit, Began, x), Event(Visit, Done, x), Event(Visit, Failed, x)};
      forall e | e in EventsOf(u)
        ensures e in rest + own
      {
        if e.node == x {
          match e.kind
          case Resolve => match e.phase { case Began => case Done => case Failed => }
          case Visit => match e.phase { case Began => case Done => case Failed => }
        }
      }
      assert EventsOf(u) <= rest + own;
      SubsetSize(EventsOf(u), rest + own);
      EventsOfSize(u - {x});
    }
  }

  lemma {:induction false} SubsetSize<T>(a: set<T>, b: set<T>)
    requires a <= b
    ensures |a| <= |b|
  {
    if a != {} {
      var x :| x in a;
      SubsetSize(a - {x}, b - {x});
    }
  }

  /** No event happens twice, and all are of reachable nodes. */
  lemma LoggedOnce<N(!new)>(g: Graph<N>, start: seq<N>, s: Sys<N>)
    requires Reached(g, start, s)
    ensures NoDuplicates(s.log)
    ensures forall e :: e in s.log ==> Reachable(g, start, e.node)
  {
    ReachedInv(g, start, s);
    forall i, j | 0 <= i < j < |s.log|
      ensures s.log[i] != s.log[j]
    {
      assert Justified(g, s.log[..j], s.log[j]);
      assert s.log[..j][i] == s.log[i];
    }
  }

  /** At most six events can ever be logged for each reachable node. */
  lemma LogIsBounded<N(!new)>(g: Graph<N>, start: seq<N>, s: Sys<N>, u: set<N>)
    requires Reached(g, start, s) && ClosedUnderDeps(g, u) && forall n :: n in start ==> n in u
    ensures |s.log| <= 6 * |u|
  {
    LoggedOnce(g, start, s);
    forall i | 0 <= i < |s.log|
      ensures s.log[i] in EventsOf(u)
    {
      var n := s.log[i].node;
      assert s.log[i] in s.log && Reachable(g, start, n);
      var a :| a in start && Reaches(g, a, n);
      ClosedSetContains(g, u, a, n);
    }
    DistinctWithin(s.log, EventsOf(u));
    EventsOfSize(u);
  }

  /** How many workers are at the head of their loop and not asleep. */
  function Runnable<N>(pcs: seq<Pc<N>>, asleep: set<nat>): (c: nat)
    ensures c <= |pcs|
  {
    if pcs == [] then 0
    else
      var last := |pcs| - 1;
      Runnable(pcs[..last], asleep) + if pcs[last] == AtHead && last !in asleep then 1 else 0
  }

  lemma {:induction false} OneFewerRunnable<N>(pcs: seq<Pc<N>>, asleep: set<nat>, w: nat)
    requires w < |pcs| && pcs[w] == AtHead && w !in asleep
    ensures Runnable(pcs, asleep + {w}) == Runnable(pcs, asleep) - 1
    ensures Runnable(pcs[w := Returned], asleep) == Runnable(pcs, asleep) - 1
  {
    var last := |pcs| - 1;
    if w == last {
      SleepBeyond(pcs[..last], asleep, w);
      assert pcs[w := Returned][..last] == pcs[..last];
    } else {
      OneFewerRunnable(pcs[..last], asleep, w);
      assert pcs[w := Returned][..last] == pcs[..last][w := Returned];
    }
  }

  lemma {:induction false} SleepBeyond<N>(pcs: seq<Pc<N>>, asleep: set<nat>, w: nat)
    requires w >= |pcs|
    ensures Runnable(pcs, asleep + {w}) == Runnable(pcs, asleep)
  {
    if pcs != [] {
      SleepBeyond(pcs[..|pcs| - 1], asleep, w);
    }
  }

  function Workers<N>(s: Sys<N>): nat {
    |s.resolvers| + |s.visitors|
  }

  function RunnableWorkers<N>(s: Sys<N>): (c: nat)
    ensures c <= Workers(s)
  {
    Runnable(s.resolvers, s.shared.resolversAsleep) + Runnable(s.visitors, s.shared.visitorsAsleep)
  }

  /** Each step either logs an event of a node or leaves one runnable worker fewer. */
  lemma StepProgresses<N>(g: Graph<N>, s: Sys<N>, a: Action)
    requires Enabled(g, s, a) && Defined(s, a)
    ensures var s' := Apply(g, s, a);
      && Workers(s') == Workers(s)
      && (|s'.log| == |s.log| + 1
          || (|s'.log| == |s.log| && RunnableWorkers(s') == RunnableWorkers(s) - 1))
  {
    match a
    case Look(kind, w) =>
      if kind == Resolve {
        OneFewerRunnable(s.resolvers, s.shared.resolversAsleep, w);
      } else {
        OneFewerRunnable(s.visitors, s.shared.visitorsAsleep, w);
      }
    case Return(kind, w, None) =>
    case Return(kind, w, Some(e)) =>
  }

  lemma {:induction false} RunProgresses<N(!new)>(g: Graph<N>, start: seq<N>, r: nat, v: nat,
                                                  states: seq<Sys<N>>, actions: seq<Action>, i: nat)
    requires IsRun(g, start, r, v, states, actions) && i < |states|
    ensures Workers(states[i]) == r + v
    ensures i + RunnableWorkers(states[i]) <= |states[i].log| * (r + v + 1) + (r + v)
  {
    if i > 0 {
      RunProgresses(g, start, r, v, states, actions, i - 1);
      assert StepAt(g, states, actions, i - 1);
      StepProgresses(g, states[i - 1], actions[i - 1]);
      assert (|states[i - 1].log| + 1) * (r + v + 1) == |states[i - 1].log| * (r + v + 1) + (r + v + 1);
    }
  }

  lemma RunLogIsBounded<N(!new)>(g: Graph<N>, start: seq<N>, r: nat, v: nat,
                                   states: seq<Sys<N>>, actions: seq<Action>, u: set<N>)
    requires IsRun(g, start, r, v, states, actions)
    requires ClosedUnderDeps(g, u) && forall n :: n in start ==> n in u
    ensures |states[|actions|].log| <= 6 * |u|
  {
    EveryStateIsReached(g, start, r, v, states, actions, |actions|);
    LogIsBounded(g, start, states[|actions|], u);
  }

  lemma Scale(a: nat, b: nat, c: nat)
    requires a <= b
    ensures a * c <= b * c
    ensures (b + 1) * c == b * c + c
  {
  }

  /** On a finite reachable graph no run is longer than this. */
  lemma RunsAreBounded<N(!new)>(g: Graph<N>, start: seq<N>, r: nat, v: nat,
                                states: seq<Sys<N>>, actions: seq<Action>, u: set<N>)
    requires IsRun(g, start, r, v, states, actions)
    requires ClosedUnderDeps(g, u) && forall n :: n in start ==> n in u
    ensures |actions| <= (6 * |u| + 1) * (r + v + 1)
  {
    var last := |actions|;
    RunLogIsBounded(g, start, r, v, states, actions, u);
    RunProgresses(g, start, r, v, states, actions, last);
    Scale(|states[last].log|, 6 * |u|, r + v + 1);
  }
}
