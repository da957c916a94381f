/**
 Verifying the directory structure below a set of roots (internal/verify): the
 dependency resolver with its memo of known structure, the records that it and
 the visitor emit, and what a successful run certifies.
 */
module Verify {
  import opened Wrappers
  import opened Scores
  import opened Times
  import opened Listing
  import opened VerifyLog
  import opened Graphs
  import opened DagTables
  import opened DagState
  import opened DagTheorems

  type Structure = map<Node, seq<Node>>

  // ---- The children of a directory, as its blob tells ----

  function NodesOf(scores: seq<Score>, dir: bool): seq<Node> {
    seq(|scores|, i requires 0 <= i < |scores| => Node(scores[i], dir))
  }

  /** The nodes that an entry refers to, unless the entry is not acceptable. */
  function EntryNodes(entry: FileInfo): Option<seq<Node>> {
    if entry.typ == TYPE_FILE then Some(NodesOf(entry.scores, false))
    else if entry.typ == TYPE_DIRECTORY then Some(NodesOf(entry.scores, true))
    else if entry.typ == TYPE_SYMLINK && entry.scores == [] then Some([])
    else None
  }

  function ListingNodes(listing: seq<FileInfo>): Option<seq<Node>> {
    if listing == [] then Some([])
    else
      var last := |listing| - 1;
      var init := ListingNodes(listing[..last]);
      var nodes := EntryNodes(listing[last]);
      if init.Some? && nodes.Some? then Some(init.value + nodes.value) else None
  }

  /** What the loader returns for a score, if anything; it checks scores itself. */
  type Loader = Score -> Option<Bytes>

  /** The children that the blob of a directory gives it. */
  function Children(wire: Wire, load: Loader, n: Node): Option<seq<Node>> {
    match load(n.score)
    case None => None
    case Some(b) =>
      match UnmarshalledDir(wire, b)
      case None => None
      case Some(listing) => ListingNodes(listing)
  }

  /** The inputs of a run. */
  datatype Run = Run(wire: Wire, load: Loader, allScores: set<Score>, known: Structure, readFiles: bool)

  function Dependencies(run: Run, n: Node): Option<seq<Node>> {
    if n.score !in run.allScores then None
    else if !n.dir then Some([])
    else if n in run.known then Some(run.known[n])
    else Children(run.wire, run.load, n)
  }

  predicate NeedsRecord(run: Run, n: Node) {
    n.dir && n !in run.known
  }

  lemma {:induction false} PrefixFails(listing: seq<FileInfo>, k: nat)
    requires k < |listing| && EntryNodes(listing[k]).None?
    ensures ListingNodes(listing).None?
    decreases |listing|
  {
    if k < |listing| - 1 {
      PrefixFails(listing[..|listing| - 1], k);
    }
  }

  /** A file, a directory, or a symlink without scores. */
  predicate IsAcceptable(entry: FileInfo) {
    entry.typ == TYPE_FILE || entry.typ == TYPE_DIRECTORY || (entry.typ == TYPE_SYMLINK && entry.scores == [])
  }

  /** A listing is accepted if and only if each of its entries is a file, a directory or a symlink without scores. */
  lemma {:induction false} AcceptedIff(listing: seq<FileInfo>)
    ensures ListingNodes(listing).Some? <==> forall i :: 0 <= i < |listing| ==> IsAcceptable(listing[i])
  {
    if listing != [] {
      var last := |listing| - 1;
      AcceptedIff(listing[..last]);
      assert forall i :: 0 <= i < last ==> listing[..last][i] == listing[i];
    }
  }

  /** A known score that is not a directory's, or is known structure, is resolved without loading anything. */
  lemma MemoSparesLoads(run: Run, run': Run, n: Node)
    requires run' == run.(load := run'.load, wire := run'.wire) && (!n.dir || n in run.known)
    ensures Dependencies(run, n) == Dependencies(run', n)
    ensures Dependencies(run, n) ==
      if n.score !in run.allScores then None else if n.dir then Some(run.known[n]) else Some([])
  {
  }

  class Resolver {
    const run: Run
    // Sent on the channel so far.
    var records: seq<Record>

    constructor (wire: Wire, load: Loader, allScores: seq<Score>, known: Structure, readFiles: bool)
      ensures run == Run(wire, load, (set s | s in allScores), known, readFiles) && records == []
    {
      var scoreSet: set<Score> := {};
      for i := 0 to |allScores|
        invariant scoreSet == (set s | s in allScores[..i])
      {
        scoreSet := scoreSet + {allScores[i]};
      }
      assert allScores[..|allScores|] == allScores;
      run := Run(wire, load, scoreSet, known, readFiles);
      records := [];
    }

    /**
     Succeeds with the dependencies of n, having sent a record if n was not
     known. It is interrupted if the load fails in passing, or the context is
     done before the record is sent.
     */
    method FindDependencies(n: Node, now: Time, interrupted: bool) returns (deps: Option<seq<Node>>)
      modifies this
      ensures deps == if interrupted && NeedsRecord(run, n) then None else Dependencies(run, n)
      ensures records == old(records) +
        if deps.Some? && NeedsRecord(run, n) then [Record(now, n, deps.value)] else []
    {
      if n.score !in run.allScores {
        return None;
      }
      if !n.dir {
        return Some([]);
      }
      if n in run.known {
        return Some(run.known[n]);
      }
      var contents := run.load(n.score);
      if contents.None? {
        return None;
      }
      var listing := UnmarshalDir(run.wire, contents.value);
      if listing.None? {
        return None;
      }
      var children := CollectChildren(listing.value);
      if children.None? || interrupted {
        return None;
      }
      records := records + [Record(now, n, children.value)];
      return children;
    }

    /** File chunks are loaded, and a record sent; directories are left alone. */
    method Visit(n: Node, now: Time, interrupted: bool) returns (ok: bool)
      modifies this
      ensures ok == (n.dir || !run.readFiles || (run.load(n.score).Some? && !interrupted))
      ensures records == old(records) + if ok && !n.dir && run.readFiles then [Record(now, n, [])] else []
    {
      if !run.readFiles || n.dir {
        return true;
      }
      if run.load(n.score).None? || interrupted {
        return false;
      }
      records := records + [Record(now, n, [])];
      return true;
    }
  }

  method CollectChildren(listing: seq<FileInfo>) returns (children: Option<seq<Node>>)
    ensures children == ListingNodes(listing)
  {
    var nodes: seq<Node> := [];
    for i := 0 to |listing|
      invariant ListingNodes(listing[..i]) == Some(nodes)
    {
      var entry := listing[i];
      assert listing[..i + 1][..i] == listing[..i];
      var dir := false;
      if entry.typ == TYPE_FILE {
        dir := false;
      } else if entry.typ == TYPE_DIRECTORY {
        dir := true;
      } else if entry.typ != TYPE_SYMLINK || |entry.scores| != 0 {
        PrefixFails(listing, i);
        return None;
      }
      ghost var before := nodes;
      for j := 0 to |entry.scores|
        invariant nodes == before + NodesOf(entry.scores, dir)[..j]
      {
        nodes := nodes + [Node(entry.scores[j], dir)];
      }
      assert NodesOf(entry.scores, dir)[..|entry.scores|] == EntryNodes(entry).value;
    }
    assert listing[..|listing|] == listing;
    return Some(nodes);
  }

  // ---- Repetitions among the dependencies ----

  lemma NodesOfMember(scores: seq<Score>, dir: bool, n: Node)
    ensures n in NodesOf(scores, dir) <==> n.dir == dir && n.score in scores
  {
    if n.dir == dir && n.score in scores {
      var i :| 0 <= i < |scores| && scores[i] == n.score;
      assert NodesOf(scores, dir)[i] == n;
    }
  }

  /** One of the entries refers to the node. */
  ghost predicate RefersTo(entry: FileInfo, n: Node) {
    n.score in entry.scores && n.dir == (entry.typ == TYPE_DIRECTORY)
  }

  lemma EntryNodesMember(entry: FileInfo, n: Node)
    requires EntryNodes(entry).Some?
    ensures n in EntryNodes(entry).value <==> RefersTo(entry, n)
  {
    NodesOfMember(entry.scores, entry.typ == TYPE_DIRECTORY, n);
  }

  lemma {:induction false} ListingNodesMember(listing: seq<FileInfo>, n: Node)
    requires ListingNodes(listing).Some?
    ensures n in ListingNodes(listing).value <==> exists i :: 0 <= i < |listing| && RefersTo(listing[i], n)
  {
    if listing != [] {
      var last := |listing| - 1;
      ListingNodesMember(listing[..last], n);
      EntryNodesMember(listing[last], n);
      assert forall i :: 0 <= i < last ==> listing[..last][i] == listing[i];
    }
  }

  lemma NodesOfDistinct(scores: seq<Score>, dir: bool)
    ensures NoDuplicates(NodesOf(scores, dir)) <==> NoDuplicates(scores)
  {
    var nodes := NodesOf(scores, dir);
    if NoDuplicates(nodes) {
      forall i, j | 0 <= i < j < |scores|
        ensures scores[i] != scores[j]
      {
        assert nodes[i] != nodes[j];
      }
    }
  }

  lemma JoinedDistinct<T>(a: seq<T>, b: seq<T>)
    ensures NoDuplicates(a + b) <==> NoDuplicates(a) && NoDuplicates(b) && forall x :: x in a ==> x !in b
  {
    if NoDuplicates(a + b) {
      forall i, j | 0 <= i < j < |a|
        ensures a[i] != a[j]
      {
        assert (a + b)[i] != (a + b)[j];
      }
      forall i, j | 0 <= i < j < |b|
        ensures b[i] != b[j]
      {
        assert (a + b)[|a| + i] != (a + b)[|a| + j];
      }
      forall i, j | 0 <= i < |a| && 0 <= j < |b|
        ensures a[i] != b[j]
      {
        assert (a + b)[i] != (a + b)[|a| + j];
      }
    }
    if NoDuplicates(a) && NoDuplicates(b) && forall x :: x in a ==> x !in b {
      forall i, j | 0 <= i < j < |a + b|
        ensures (a + b)[i] != (a + b)[j]
      {
        if i < |a| <= j {
          assert a[i] in a && b[j - |a|] in b;
        }
      }
    }
  }

  /** Two entries of the same kind have a score in common. */
  ghost predicate Share(a: FileInfo, b: FileInfo) {
    (a.typ == TYPE_DIRECTORY <==> b.typ == TYPE_DIRECTORY) && exists x :: x in a.scores && x in b.scores
  }

  ghost predicate NothingShared(listing: seq<FileInfo>) {
    && (forall i :: 0 <= i < |listing| ==> NoDuplicates(listing[i].scores))
    && (forall i, j :: 0 <= i < j < |listing| ==> !Share(listing[i], listing[j]))
  }

  lemma NothingSharedAtTheEnd(listing: seq<FileInfo>)
    requires listing != []
    ensures var last, init := |listing| - 1, listing[..|listing| - 1];
      NothingShared(listing) <==>
        && NothingShared(init) && NoDuplicates(listing[last].scores)
        && forall i :: 0 <= i < last ==> !Share(listing[i], listing[last])
  {
    var last, init := |listing| - 1, listing[..|listing| - 1];
    assert forall i :: 0 <= i < last ==> init[i] == listing[i];
  }

  lemma SharedWithLast(listing: seq<FileInfo>)
    requires listing != [] && ListingNodes(listing).Some?
    ensures var last, init := |listing| - 1, listing[..|listing| - 1];
      (forall n :: n in ListingNodes(init).value ==> n !in EntryNodes(listing[last]).value)
      <==> forall i :: 0 <= i < last ==> !Share(listing[i], listing[last])
  {
    var last, init := |listing| - 1, listing[..|listing| - 1];
    forall n
      ensures n in EntryNodes(listing[last]).value <==> RefersTo(listing[last], n)
      ensures n in ListingNodes(init).value <==> exists i :: 0 <= i < |init| && RefersTo(init[i], n)
    {
      EntryNodesMember(listing[last], n);
      ListingNodesMember(init, n);
    }
    forall i | 0 <= i < last && Share(listing[i], listing[last])
      ensures exists n :: n in ListingNodes(init).value && n in EntryNodes(listing[last]).value
    {
      var x :| x in listing[i].scores && x in listing[last].scores;
      var n := Node(x, listing[last].typ == TYPE_DIRECTORY);
      assert RefersTo(init[i], n) && RefersTo(listing[last], n);
    }
  }

  /**
   The dependencies of a directory are free of repetitions if and only if no
   file has the same chunk twice and no two entries of the same kind share a score.
   */
  lemma {:induction false} ChildrenDistinctIff(listing: seq<FileInfo>)
    requires ListingNodes(listing).Some?
    ensures NoDuplicates(ListingNodes(listing).value) <==> NothingShared(listing)
  {
    if listing != [] {
      var last := |listing| - 1;
      ChildrenDistinctIff(listing[..last]);
      JoinedDistinct(ListingNodes(listing[..last]).value, EntryNodes(listing[last]).value);
      NodesOfDistinct(listing[last].scores, listing[last].typ == TYPE_DIRECTORY);
      NothingSharedAtTheEnd(listing);
      SharedWithLast(listing);
    }
  }

  /** Two files of the same content, not empty, are enough for a repetition. */
  lemma TwinsAreRepeated(a: FileInfo, b: FileInfo)
    requires a.typ == TYPE_FILE && b.typ == TYPE_FILE && a.scores == b.scores != []
    ensures ListingNodes([a, b]).Some? && !NoDuplicates(ListingNodes([a, b]).value)
  {
    var listing := [a, b];
    assert listing[..1] == [a] && [a][..0] == [];
    assert ListingNodes([a]) == Some([] + NodesOf(a.scores, false));
    assert a.scores[0] in a.scores;
    assert Share(listing[0], listing[1]);
    ChildrenDistinctIff(listing);
  }

  // ---- A run as a traversal ----

  function Deps(run: Run, n: Node): seq<Node> {
    if Dependencies(run, n).Some? then Dependencies(run, n).value else []
  }

  predicate Readable(run: Run, n: Node) {
    n.dir || !run.readFiles || run.load(n.score).Some?
  }

  function VerifyGraph(run: Run): Graph<Node> {
    Graph(n => Deps(run, n), n => Dependencies(run, n).Some?, n => Readable(run, n))
  }

  /** The graph that the blobs themselves describe. */
  function TrueDeps(run: Run, n: Node): seq<Node> {
    if n.dir && Children(run.wire, run.load, n).Some? then Children(run.wire, run.load, n).value else []
  }

  function TrueGraph(run: Run): Graph<Node> {
    Graph(n => TrueDeps(run, n),
          (n: Node) => n.score in run.allScores && (n.dir ==> Children(run.wire, run.load, n).Some?),
          n => Readable(run, n))
  }

  function RootNodes(rootScores: seq<Score>): seq<Node> {
    seq(|rootScores|, i requires 0 <= i < |rootScores| => Node(rootScores[i], true))
  }

  /** The memo says of directories what their blobs say. */
  ghost predicate KnownIsTrue(run: Run) {
    forall n :: n in run.known && n.dir ==> Children(run.wire, run.load, n) == Some(run.known[n])
  }

  // ---- Memo and blobs describe the same graph ----

  lemma SameDeps(run: Run, n: Node)
    requires KnownIsTrue(run) && VerifyGraph(run).resolvable(n)
    ensures Deps(run, n) == TrueDeps(run, n)
  {
  }

  /** When every node that the run reaches resolves, it reaches what the blobs reach, and nothing else. */
  lemma SameReach(run: Run, start: seq<Node>, n: Node)
    requires KnownIsTrue(run) && AllCanSucceed(VerifyGraph(run), start)
    ensures Reachable(VerifyGraph(run), start, n) <==> Reachable(TrueGraph(run), start, n)
  {
    forall m | Reachable(VerifyGraph(run), start, m)
      ensures VerifyGraph(run).deps(m) == TrueGraph(run).deps(m)
    {
      SameDeps(run, m);
    }
    AgreementOnReachable(VerifyGraph(run), TrueGraph(run), start, n);
  }

  // ---- Records ----

  /** What is sent in the course of a call that succeeds. */
  function RecordOf(run: Run, e: Event<Node>, time: Time): seq<Record> {
    if e.phase != Done then []
    else if e.kind == Resolve then
      if NeedsRecord(run, e.node) then [Record(time, e.node, Deps(run, e.node))] else []
    else if run.readFiles && !e.node.dir then [Record(time, e.node, [])] else []
  }

  function Sent(run: Run, log: seq<Event<Node>>, times: seq<Time>): seq<Record>
    requires |times| == |log|
  {
    if log == [] then []
    else
      var last := |log| - 1;
      Sent(run, log[..last], times[..last]) + RecordOf(run, log[last], times[last])
  }

  /** One of the records says that n has these children. */
  ghost predicate Attested(records: seq<Record>, n: Node, children: seq<Node>) {
    exists r :: r in records && r.node == n && r.children == children
  }

  lemma {:induction false} CallIsRecorded(run: Run, log: seq<Event<Node>>, times: seq<Time>, e: Event<Node>)
    requires |times| == |log| && e in log && e.phase == Done
    requires if e.kind == Resolve then NeedsRecord(run, e.node) else run.readFiles && !e.node.dir
    ensures Attested(Sent(run, log, times), e.node, if e.kind == Resolve then Deps(run, e.node) else [])
  {
    var last := |log| - 1;
    var sent := RecordOf(run, log[last], times[last]);
    if log[last] == e {
      assert sent[0] in Sent(run, log, times);
    } else {
      assert log == log[..last] + [log[last]];
      CallIsRecorded(run, log[..last], times[..last], e);
      var r :| r in Sent(run, log[..last], times[..last]) && r.node == e.node
        && r.children == if e.kind == Resolve then Deps(run, e.node) else [];
      assert r in Sent(run, log, times);
    }
  }

  lemma {:induction false} RecordHasCall(run: Run, log: seq<Event<Node>>, times: seq<Time>, r: Record)
    requires |times| == |log| && r in Sent(run, log, times)
    ensures if r.node.dir
            then NeedsRecord(run, r.node) && Event(Resolve, Done, r.node) in log && r.children == Deps(run, r.node)
            else run.readFiles && Event(Visit, Done, r.node) in log && r.children == []
  {
    var last := |log| - 1;
    if r in Sent(run, log[..last], times[..last]) {
      RecordHasCall(run, log[..last], times[..last], r);
    }
  }

  /** The event ends a call that sends the record, of the node, at that time. */
  ghost predicate Sends(run: Run, e: Event<Node>, time: Time, r: Record) {
    && e.phase == Done && e.node == r.node && r.time == time
    && (if e.kind == Resolve then NeedsRecord(run, r.node) && r.children == Deps(run, r.node)
        else run.readFiles && !r.node.dir && r.children == [])
  }

  ghost predicate SomeSends(run: Run, log: seq<Event<Node>>, times: seq<Time>, r: Record)
    requires |times| == |log|
  {
    exists i :: 0 <= i < |log| && Sends(run, log[i], times[i], r)
  }

  lemma OneMoreSends(run: Run, log: seq<Event<Node>>, times: seq<Time>, r: Record)
    requires |times| == |log| && log != []
    ensures var last := |log| - 1;
      SomeSends(run, log, times, r) <==> SomeSends(run, log[..last], times[..last], r) || Sends(run, log[last], times[last], r)
  {
    var last := |log| - 1;
    assert forall i :: 0 <= i < last ==> log[..last][i] == log[i] && times[..last][i] == times[i];
  }

  lemma RecordOfSends(run: Run, e: Event<Node>, time: Time, r: Record)
    ensures r in RecordOf(run, e, time) <==> Sends(run, e, time, r)
  {
  }

  /**
   A record is sent if and only if a call has ended that sends it: a directory
   that was not known has been resolved, or a chunk read, at the time that the
   record has.
   */
  lemma {:induction false} SentIff(run: Run, log: seq<Event<Node>>, times: seq<Time>, r: Record)
    requires |times| == |log|
    ensures r in Sent(run, log, times) <==> SomeSends(run, log, times, r)
  {
    if log != [] {
      var last := |log| - 1;
      SentIff(run, log[..last], times[..last], r);
      OneMoreSends(run, log, times, r);
      RecordOfSends(run, log[last], times[last], r);
    }
  }

  /** What the records say of directories is what their blobs say. */
  ghost predicate RecordsAreTrue(run: Run, records: seq<Record>) {
    forall r :: r in records && r.node.dir ==> Children(run.wire, run.load, r.node) == Some(r.children)
  }

  lemma ResolvedIsResolvable<N(!new)>(g: Graph<N>, start: seq<N>, s: Sys<N>, n: N)
    requires Reached(g, start, s) && Event(Resolve, Done, n) in s.log
    ensures g.resolvable(n)
  {
    ReachedInv(g, start, s);
    assert n in s.shared.tables.nodes;
    assert NodeOk(g, s.shared.tables, n);
  }

  lemma SentRecordIsTrue(run: Run, start: seq<Node>, s: Sys<Node>, n: Node)
    requires Reached(VerifyGraph(run), start, s)
    requires NeedsRecord(run, n) && Event(Resolve, Done, n) in s.log
    ensures Children(run.wire, run.load, n) == Some(Deps(run, n))
  {
    ResolvedIsResolvable(VerifyGraph(run), start, s, n);
  }

  /** In any run, failed ones included, only true records are sent. */
  lemma SentRecordsAreTrue(run: Run, start: seq<Node>, s: Sys<Node>, times: seq<Time>)
    requires Reached(VerifyGraph(run), start, s) && |times| == |s.log|
    ensures RecordsAreTrue(run, Sent(run, s.log, times))
  {
    var sent := Sent(run, s.log, times);
    forall r | r in sent && r.node.dir
      ensures Children(run.wire, run.load, r.node) == Some(r.children)
    {
      RecordHasCall(run, s.log, times, r);
      SentRecordIsTrue(run, start, s, r.node);
    }
  }

  // ---- What success certifies ----

  /**
   When a run succeeds, whatever the blobs lead to from the roots has a known
   score, is recorded with its true children in the memo or in the new records
   if it is a directory, and was read and recorded if it is a piece of a file
   and files are read.
   */
  lemma SuccessCertifies(run: Run, rootScores: seq<Score>, s: Sys<Node>, times: seq<Time>, n: Node)
    requires KnownIsTrue(run) && |times| == |s.log|
    requires Quiescent(VerifyGraph(run), RootNodes(rootScores), s) && VisitReturns(s, Finished)
    requires Reachable(TrueGraph(run), RootNodes(rootScores), n)
    ensures n.score in run.allScores
    ensures n.dir ==>
      && Children(run.wire, run.load, n).Some?
      && var children := Children(run.wire, run.load, n).value;
         (n in run.known && run.known[n] == children) || Attested(Sent(run, s.log, times), n, children)
    ensures !n.dir && run.readFiles ==>
      run.load(n.score).Some? && Attested(Sent(run, s.log, times), n, [])
  {
    FinishedIsEarned(VerifyGraph(run), RootNodes(rootScores), s);
    SameReach(run, RootNodes(rootScores), n);
    SameDeps(run, n);
    if NeedsRecord(run, n) {
      SuccessLog(VerifyGraph(run), RootNodes(rootScores), s, Resolve, n);
      CallIsRecorded(run, s.log, times, Event(Resolve, Done, n));
    }
    if !n.dir && run.readFiles {
      SuccessLog(VerifyGraph(run), RootNodes(rootScores), s, Visit, n);
      CallIsRecorded(run, s.log, times, Event(Visit, Done, n));
    }
  }

  /** A successful run visits what the blobs lead to from the roots, and nothing else. */
  lemma VisitsTrueGraph(run: Run, start: seq<Node>, s: Sys<Node>, n: Node)
    requires KnownIsTrue(run)
    requires Quiescent(VerifyGraph(run), start, s) && VisitReturns(s, Finished)
    ensures Event(Visit, Done, n) in s.log <==> Reachable(TrueGraph(run), start, n)
  {
    FinishedIsEarned(VerifyGraph(run), start, s);
    SuccessLog(VerifyGraph(run), start, s, Visit, n);
    SameReach(run, start, n);
  }

  lemma TrueGraphIgnoresMemo(run: Run, run': Run, start: seq<Node>, n: Node)
    requires run' == run.(known := run'.known)
    ensures Reachable(TrueGraph(run), start, n) <==> Reachable(TrueGraph(run'), start, n)
  {
    assert forall m :: TrueGraph(run).deps(m) == TrueGraph(run').deps(m);
    AgreementOnReachable(TrueGraph(run), TrueGraph(run'), start, n);
  }

  /** The memo saves work and nothing else: with any two true memos the same nodes are visited. */
  lemma MemoDoesNotMatter(run: Run, run': Run, start: seq<Node>, s: Sys<Node>, s': Sys<Node>, n: Node)
    requires run' == run.(known := run'.known) && KnownIsTrue(run) && KnownIsTrue(run')
    requires Quiescent(VerifyGraph(run), start, s) && VisitReturns(s, Finished)
    requires Quiescent(VerifyGraph(run'), start, s') && VisitReturns(s', Finished)
    ensures Event(Visit, Done, n) in s.log <==> Event(Visit, Done, n) in s'.log
  {
    VisitsTrueGraph(run, start, s, n);
    VisitsTrueGraph(run', start, s', n);
    TrueGraphIgnoresMemo(run, run', start, n);
  }

  /** The score is known, and the blob, if it is needed, is there and makes sense. */
  ghost predicate InOrder(run: Run, n: Node) {
    && n.score in run.allScores
    && (n.dir ==> n in run.known || Children(run.wire, run.load, n).Some?)
    && (!n.dir && run.readFiles ==> run.load(n.score).Some?)
  }

  ghost predicate AllInOrder(run: Run, start: seq<Node>) {
    forall n {:trigger InOrder(run, n)} :: Reachable(VerifyGraph(run), start, n) ==> InOrder(run, n)
  }

  lemma InOrderMeansCanSucceed(run: Run, start: seq<Node>)
    ensures AllInOrder(run, start) <==> AllCanSucceed(VerifyGraph(run), start)
  {
    var g := VerifyGraph(run);
    forall n
      ensures InOrder(run, n) <==> g.resolvable(n) && g.visitable(n)
    {
    }
  }

  /**
   When loads fail only for what is not there, a run succeeds if and only if
   every node reached is in order and there is no cycle.
   */
  lemma VerdictIsExact(run: Run, start: seq<Node>, s: Sys<Node>)
    requires Quiescent(VerifyGraph(run), start, s) && NoChanceFailures(VerifyGraph(run), s.log)
    ensures VisitReturns(s, Finished) <==> !CycleWithin(VerifyGraph(run), start) && AllInOrder(run, start)
  {
    InOrderMeansCanSucceed(run, start);
    OutcomeIsExact(VerifyGraph(run), start, s);
  }
}
