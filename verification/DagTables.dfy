/**
 The node records and worklists of a graph traversal (internal/dag/visit.go),
 as values, and the updates that workers make to them under the lock.
 */
module DagTables {
  import opened Graphs

  datatype Status = DependenciesUnresolved | DependenciesUnsatisfied | Unvisited | Visited

  datatype Info<N> = Info(status: Status, depsUnsatisfied: int, dependants: seq<N>)

  datatype Tables<N> = Tables(
    nodes: map<N, Info<N>>,
    toResolve: seq<N>,
    unsatisfied: set<N>,
    toVisit: seq<N>)

  // ---- Updates ----

  function Reinsert<N(==)>(t: Tables<N>, n: N): Tables<N>
    requires n in t.nodes
  {
    match t.nodes[n].status
    case DependenciesUnresolved => t.(toResolve := t.toResolve + [n])
    case DependenciesUnsatisfied => t.(unsatisfied := t.unsatisfied + {n})
    case Unvisited => t.(toVisit := t.toVisit + [n])
    case Visited => t
  }

  function AddNode<N(==)>(t: Tables<N>, n: N): (r: Tables<N>)
    ensures r.nodes.Keys == t.nodes.Keys + {n}
  {
    if n in t.nodes then t
    else Reinsert(t.(nodes := t.nodes[n := Info(DependenciesUnresolved, 0, [])]), n)
  }

  function AddNodes<N(==)>(t: Tables<N>, ns: seq<N>): (r: Tables<N>)
    ensures r.nodes.Keys == t.nodes.Keys + (set n | n in ns)
  {
    if ns == [] then t
    else
      var last := |ns| - 1;
      assert ns == ns[..last] + [ns[last]];
      AddNode(AddNodes(t, ns[..last]), ns[last])
  }

  /** n has found out that it depends on d. */
  function NoteDep<N(==)>(t: Tables<N>, n: N, d: N): (r: Tables<N>)
    requires n in t.nodes && d in t.nodes
    ensures r.nodes.Keys == t.nodes.Keys
  {
    if t.nodes[d].status == Visited then t
    else
      var counted := t.nodes[n := t.nodes[n].(depsUnsatisfied := t.nodes[n].depsUnsatisfied + 1)];
      t.(nodes := counted[d := counted[d].(dependants := counted[d].dependants + [n])])
  }

  function NoteDeps<N(==)>(t: Tables<N>, n: N, ds: seq<N>): (r: Tables<N>)
    requires n in t.nodes && forall d :: d in ds ==> d in t.nodes
    ensures r.nodes.Keys == t.nodes.Keys
  {
    if ds == [] then t
    else
      var last := |ds| - 1;
      NoteDep(NoteDeps(t, n, ds[..last]), n, ds[last])
  }

  function Settle<N(==)>(t: Tables<N>, n: N): (r: Tables<N>)
    requires n in t.nodes
    ensures r.nodes.Keys == t.nodes.Keys
  {
    var status := if t.nodes[n].depsUnsatisfied > 0 then DependenciesUnsatisfied else Unvisited;
    Reinsert(t.(nodes := t.nodes[n := t.nodes[n].(status := status)]), n)
  }

  /** The update made after FindDependencies(n) has returned ds. */
  function FinishResolve<N(==)>(t: Tables<N>, n: N, ds: seq<N>): (r: Tables<N>)
    requires n in t.nodes
  {
    Settle(NoteDeps(AddNodes(t, ds), n, ds), n)
  }

  /** One entry of a visited node's dependants list is told about the visit. */
  function Satisfy<N(==)>(t: Tables<N>, d: N): (r: Tables<N>)
    requires d in t.nodes
    ensures r.nodes.Keys == t.nodes.Keys
  {
    var left := t.nodes[d].depsUnsatisfied - 1;
    var counted := t.nodes[d].(depsUnsatisfied := left);
    if left == 0 then
      Reinsert(
        t.(nodes := t.nodes[d := counted.(status := Unvisited)], unsatisfied := t.unsatisfied - {d}),
        d)
    else
      t.(nodes := t.nodes[d := counted])
  }

  function SatisfyAll<N(==)>(t: Tables<N>, ds: seq<N>): (r: Tables<N>)
    requires forall d :: d in ds ==> d in t.nodes
    ensures r.nodes.Keys == t.nodes.Keys
  {
    if ds == [] then t
    else
      var last := |ds| - 1;
      Satisfy(SatisfyAll(t, ds[..last]), ds[last])
  }

  /** The update made after Visit(n) has returned successfully. */
  function FinishVisit<N(==)>(t: Tables<N>, n: N): (r: Tables<N>)
    requires n in t.nodes && forall d :: d in t.nodes[n].dependants ==> d in t.nodes
    ensures r.nodes.Keys == t.nodes.Keys
  {
    var s := SatisfyAll(t, t.nodes[n].dependants);
    Reinsert(s.(nodes := s.nodes[n := s.nodes[n].(dependants := [], status := Visited)]), n)
  }

  // ---- One step further in each of the loops ----

  lemma AddNodesStep<N>(t: Tables<N>, ns: seq<N>, i: nat)
    requires i < |ns|
    ensures AddNodes(t, ns[..i + 1]) == AddNode(AddNodes(t, ns[..i]), ns[i])
  {
    assert ns[..i + 1][..i] == ns[..i];
  }

  lemma NoteDepsStep<N>(t: Tables<N>, n: N, ds: seq<N>, i: nat)
    requires n in t.nodes && (forall d :: d in ds ==> d in t.nodes) && i < |ds|
    ensures NoteDeps(t, n, ds[..i + 1]) == NoteDep(NoteDeps(t, n, ds[..i]), n, ds[i])
  {
    assert ds[..i + 1][..i] == ds[..i];
  }

  lemma SatisfyAllStep<N>(t: Tables<N>, ds: seq<N>, i: nat)
    requires (forall d :: d in ds ==> d in t.nodes) && i < |ds|
    ensures SatisfyAll(t, ds[..i + 1]) == Satisfy(SatisfyAll(t, ds[..i]), ds[i])
  {
    assert ds[..i + 1][..i] == ds[..i];
  }

  // ---- The inductive invariant ----

  /** How often x occurs in s. */
  function Occurrences<T(==)>(s: seq<T>, x: T): nat {
    if s == [] then 0
    else
      var last := |s| - 1;
      Occurrences(s[..last], x) + if s[last] == x then 1 else 0
  }

  /** How many entries of ds, repetitions included, lie outside `visited`. */
  function Pending<N(==)>(visited: set<N>, ds: seq<N>): nat {
    if ds == [] then 0
    else
      var last := |ds| - 1;
      Pending(visited, ds[..last]) + if ds[last] in visited then 0 else 1
  }

  function VisitedNodes<N(==)>(t: Tables<N>): set<N> {
    set n | n in t.nodes && t.nodes[n].status == Visited
  }

  predicate HasStatus<N(==)>(t: Tables<N>, n: N, status: Status) {
    n in t.nodes && t.nodes[n].status == status
  }

  /** The record of n agrees with its dependency list. */
  ghost predicate NodeOk<N(!new)>(g: Graph<N>, t: Tables<N>, n: N)
    requires n in t.nodes
  {
    var ni := t.nodes[n];
    && (ni.status == DependenciesUnresolved ==> ni.depsUnsatisfied == 0)
    && (ni.status != DependenciesUnresolved ==>
          && g.resolvable(n)
          && (forall d :: d in g.deps(n) ==> d in t.nodes)
          && ni.depsUnsatisfied == Pending(VisitedNodes(t), g.deps(n))
          && (ni.depsUnsatisfied > 0 <==> ni.status == DependenciesUnsatisfied))
    && (ni.status == Visited ==> g.visitable(n))
  }

  ghost predicate Counts<N(!new)>(g: Graph<N>, t: Tables<N>) {
    forall n {:trigger NodeOk(g, t, n)} :: n in t.nodes ==> NodeOk(g, t, n)
  }

  /** How many back-pointers to n the record of m must hold. */
  function Links<N(==)>(g: Graph<N>, t: Tables<N>, m: N, n: N): nat
    requires m in t.nodes
  {
    if HasStatus(t, n, DependenciesUnsatisfied) && t.nodes[m].status != Visited
    then Occurrences(g.deps(n), m)
    else 0
  }

  ghost predicate Backlinks<N(!new)>(g: Graph<N>, t: Tables<N>) {
    forall m, n {:trigger Occurrences(t.nodes[m].dependants, n)} ::
      m in t.nodes ==> Occurrences(t.nodes[m].dependants, n) == Links(g, t, m, n)
  }

  /**
   `list` holds, once each, the nodes with the given status for which no call
   has begun; `begun` are those with that status for which one has.
   */
  ghost predicate Worklist<N(!new)>(t: Tables<N>, list: seq<N>, status: Status, begun: set<N>) {
    && NoDuplicates(list)
    && (forall n :: n in list ==> HasStatus(t, n, status) && n !in begun)
    && (forall n :: n in begun ==> HasStatus(t, n, status))
    && (forall n :: HasStatus(t, n, status) && n !in begun ==> n in list)
  }

  ghost predicate Origin<N(!new)>(g: Graph<N>, start: seq<N>, t: Tables<N>) {
    && (forall n :: n in t.nodes ==> Reachable(g, start, n))
    && (forall n :: n in start ==> n in t.nodes)
  }

  /**
   resolving: nodes for which FindDependencies has been called but has not
   returned successfully; visiting: likewise for Visit.
   */
  ghost predicate TablesInv<N(!new)>(g: Graph<N>, t: Tables<N>, resolving: set<N>, visiting: set<N>)
  {
    && Counts(g, t)
    && Backlinks(g, t)
    && Worklist(t, t.toResolve, DependenciesUnresolved, resolving)
    && Worklist(t, t.toVisit, Unvisited, visiting)
    && (forall n :: n in t.unsatisfied <==> HasStatus(t, n, DependenciesUnsatisfied))
  }
}
