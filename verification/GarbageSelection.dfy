/** Which scores are garbage (gc.go): those that the output of verify runs does not mention. */
module GarbageSelection {
  import opened Wrappers
  import opened Scores
  import opened Times
  import opened Listing
  import opened VerifyLog
  import opened Graphs
  import opened DagState
  import opened DagTheorems
  import DagLimits
  import opened Verify
  import opened KnownStructure

  function NodeScores(nodes: seq<Node>): seq<Score> {
    seq(|nodes|, i requires 0 <= i < |nodes| => nodes[i].score)
  }

  /** The scores mentioned in records, of nodes and of their children. */
  function ScoresIn(records: seq<Record>): seq<Score> {
    if records == [] then []
    else
      var last := |records| - 1;
      ScoresIn(records[..last]) + [records[last].node.score] + NodeScores(records[last].children)
  }

  method ParseGCInput(tf: TimeFormat, text: string) returns (scores: Option<seq<Score>>)
    ensures scores == if ParsedLog(tf, text).ok then Some(ScoresIn(ParsedLog(tf, text).records)) else None
  {
    var records, ok := ParseVerifyOutput(tf, text);
    var found: seq<Score> := [];
    for i := 0 to |records|
      invariant found == ScoresIn(records[..i])
    {
      assert records[..i + 1][..i] == records[..i];
      found := found + [records[i].node.score];
      ghost var before := found;
      var children := records[i].children;
      for j := 0 to |children|
        invariant found == before + NodeScores(children)[..j]
      {
        found := found + [children[j].score];
      }
      assert NodeScores(children)[..|children|] == NodeScores(children);
    }
    assert records[..|records|] == records;
    return if ok then Some(found) else None;
  }

  function ScoreSet(scores: seq<Score>): set<Score> {
    set s | s in scores
  }

  function GarbageOf(accessible: set<Score>, allScores: seq<Score>): seq<Score> {
    if allScores == [] then []
    else
      var last := |allScores| - 1;
      GarbageOf(accessible, allScores[..last]) + if allScores[last] in accessible then [] else [allScores[last]]
  }

  lemma {:induction false} GarbageOfPrefix(accessible: set<Score>, allScores: seq<Score>, k: nat)
    requires k <= |allScores|
    ensures GarbageOf(accessible, allScores[..k]) <= GarbageOf(accessible, allScores)
    decreases |allScores|
  {
    if k < |allScores| {
      GarbageOfPrefix(accessible, allScores[..|allScores| - 1], k);
      assert allScores[..|allScores| - 1][..k] == allScores[..k];
    } else {
      assert allScores[..k] == allScores;
    }
  }

  /** `done(k)` tells whether the context is done when score k is to be passed on. */
  method FilterToGarbage(accessible: seq<Score>, allScores: seq<Score>, done: nat -> bool)
    returns (garbage: seq<Score>, ok: bool)
    ensures garbage <= GarbageOf(ScoreSet(accessible), allScores)
    ensures ok ==> garbage == GarbageOf(ScoreSet(accessible), allScores)
    ensures (forall k :: !done(k)) ==> ok
  {
    var accessibleMap: set<Score> := {};
    for i := 0 to |accessible|
      invariant accessibleMap == ScoreSet(accessible[..i])
    {
      accessibleMap := accessibleMap + {accessible[i]};
    }
    assert accessible[..|accessible|] == accessible;
    garbage := [];
    for i := 0 to |allScores|
      invariant garbage == GarbageOf(accessibleMap, allScores[..i])
    {
      assert allScores[..i + 1][..i] == allScores[..i];
      if allScores[i] in accessibleMap {
        continue;
      }
      if done(i) {
        GarbageOfPrefix(accessibleMap, allScores, i);
        return garbage, false;
      }
      garbage := garbage + [allScores[i]];
    }
    assert allScores[..|allScores|] == allScores;
    return garbage, true;
  }

  /** What is passed on was listed and is not accessible; whatever else was listed is accessible. */
  lemma {:induction false} GarbageIsTheRest(accessible: set<Score>, allScores: seq<Score>)
    ensures forall s :: s in GarbageOf(accessible, allScores) <==> s in allScores && s !in accessible
  {
    if allScores != [] {
      var last := |allScores| - 1;
      GarbageIsTheRest(accessible, allScores[..last]);
      assert allScores == allScores[..last] + [allScores[last]];
    }
  }

  // ---- Safety ----

  lemma {:induction false} AttestedIsMentioned(records: seq<Record>, n: Node, children: seq<Node>)
    requires Attested(records, n, children)
    ensures n.score in ScoresIn(records)
    ensures forall c :: c in children ==> c.score in ScoresIn(records)
  {
    var last := |records| - 1;
    var r, init := records[last], records[..last];
    if r.node == n && r.children == children {
      assert ScoresIn(records)[|ScoresIn(init)|] == n.score;
      forall c | c in children
        ensures c.score in ScoresIn(records)
      {
        var i :| 0 <= i < |children| && children[i] == c;
        assert NodeScores(children)[i] == c.score;
      }
    } else {
      assert records == init + [r];
      AttestedIsMentioned(init, n, children);
    }
  }

  /** The records in the log after a run that appended to it. */
  function WholeLog(tf: TimeFormat, earlier: seq<Record>, sent: seq<Record>): string {
    WrittenLog(tf, earlier) + WrittenLog(tf, sent)
  }

  lemma WholeLogParses(tf: TimeFormat, earlier: seq<Record>, sent: seq<Record>)
    requires FormatSound(tf) && AllWritable(earlier) && AllWritable(sent)
    ensures ParsedLog(tf, WholeLog(tf, earlier, sent))
         == Parsed(ToTheSecondAll(earlier) + ToTheSecondAll(sent), true)
  {
    LogFollowedBy(tf, earlier, WrittenLog(tf, sent));
    LogRoundTrip(tf, sent);
  }

  lemma AttestedInEither(earlier: seq<Record>, sent: seq<Record>, n: Node, children: seq<Node>)
    requires Attested(ToTheSecondAll(earlier), n, children) || Attested(sent, n, children)
    ensures Attested(ToTheSecondAll(earlier) + ToTheSecondAll(sent), n, children)
  {
    CutRecords(sent, n, children);
    var all := ToTheSecondAll(earlier) + ToTheSecondAll(sent);
    assert forall r :: r in ToTheSecondAll(earlier) || r in ToTheSecondAll(sent) ==> r in all;
  }

  /** A successful run with the memo of the earlier log: what it reaches is attested by the whole log. */
  lemma ReachedIsAttested(run: Run, earlier: seq<Record>, now: Time, rootScores: seq<Score>,
                          s: Sys<Node>, times: seq<Time>, n: Node)
    requires run.known == KnownFrom(ToTheSecondAll(earlier), now) && KnownIsTrue(run) && |times| == |s.log|
    requires Quiescent(VerifyGraph(run), RootNodes(rootScores), s) && VisitReturns(s, Finished)
    requires Reachable(TrueGraph(run), RootNodes(rootScores), n) && n.dir
    ensures Attested(ToTheSecondAll(earlier) + ToTheSecondAll(Sent(run, s.log, times)), n, TrueDeps(run, n))
  {
    SuccessCertifies(run, rootScores, s, times, n);
    if n in run.known {
      MemoIsAttested(ToTheSecondAll(earlier), now, n);
    }
    AttestedInEither(earlier, Sent(run, s.log, times), n, TrueDeps(run, n));
  }

  /** The runs of verify and the log that lead to a garbage collection. */
  ghost predicate Verified(tf: TimeFormat, run: Run, earlier: seq<Record>, now: Time, rootScores: seq<Score>,
                           s: Sys<Node>, times: seq<Time>)
  {
    && FormatSound(tf) && RecordsAreTrue(run, earlier) && |times| == |s.log|
    && AllWritable(earlier) && AllWritable(Sent(run, s.log, times))
    && run.known == KnownFrom(ParsedLog(tf, WrittenLog(tf, earlier)).records, now)
    && Quiescent(VerifyGraph(run), RootNodes(rootScores), s) && VisitReturns(s, Finished)
  }

  lemma ClosureIsMentioned(run: Run, rootScores: seq<Score>, records: seq<Record>, n: Node)
    requires forall m: Node :: m.dir && Reachable(TrueGraph(run), RootNodes(rootScores), m) ==>
      Attested(records, m, TrueDeps(run, m))
    requires Reachable(TrueGraph(run), RootNodes(rootScores), n)
    ensures n.score in ScoresIn(records)
  {
    ReachedFrom(TrueGraph(run), RootNodes(rootScores), n);
    if n in RootNodes(rootScores) {
      AttestedIsMentioned(records, n, TrueDeps(run, n));
    } else {
      var m :| Reachable(TrueGraph(run), RootNodes(rootScores), m) && n in TrueGraph(run).deps(m);
      AttestedIsMentioned(records, m, TrueDeps(run, m));
    }
  }

  lemma ReachableIsMentioned(tf: TimeFormat, run: Run, earlier: seq<Record>, now: Time, rootScores: seq<Score>,
                             s: Sys<Node>, times: seq<Time>, n: Node)
    requires Verified(tf, run, earlier, now, rootScores, s, times)
    requires Reachable(TrueGraph(run), RootNodes(rootScores), n)
    ensures n.score in ScoresIn(ToTheSecondAll(earlier) + ToTheSecondAll(Sent(run, s.log, times)))
  {
    LogRoundTrip(tf, earlier);
    LogStaysTrue(tf, run, earlier, now, RootNodes(rootScores), s, times);
    var records := ToTheSecondAll(earlier) + ToTheSecondAll(Sent(run, s.log, times));
    forall m: Node | m.dir && Reachable(TrueGraph(run), RootNodes(rootScores), m)
      ensures Attested(records, m, TrueDeps(run, m))
    {
      ReachedIsAttested(run, earlier, now, rootScores, s, times, m);
    }
    ClosureIsMentioned(run, rootScores, records, n);
  }

  /**
   After a verify run on the roots has succeeded, with the memo of a log of true
   records to which it appended its own, the whole log parses, and no score that
   the blobs lead to from the roots is garbage by it, whatever scores are listed.
   */
  lemma ReachableIsNotGarbage(tf: TimeFormat, run: Run, earlier: seq<Record>, now: Time, rootScores: seq<Score>,
                              s: Sys<Node>, times: seq<Time>, n: Node, allScores: seq<Score>)
    requires Verified(tf, run, earlier, now, rootScores, s, times)
    requires Reachable(TrueGraph(run), RootNodes(rootScores), n)
    ensures var parsed := ParsedLog(tf, WholeLog(tf, earlier, Sent(run, s.log, times)));
      parsed.ok && n.score !in GarbageOf(ScoreSet(ScoresIn(parsed.records)), allScores)
  {
    ReachableIsMentioned(tf, run, earlier, now, rootScores, s, times, n);
    WholeLogParses(tf, earlier, Sent(run, s.log, times));
    GarbageIsTheRest(ScoreSet(ScoresIn(ToTheSecondAll(earlier) + ToTheSecondAll(Sent(run, s.log, times)))), allScores);
  }

  // ---- The output of one run alone ----

  ghost predicate Mentions(r: Record, x: Score) {
    r.node.score == x || exists c :: c in r.children && c.score == x
  }

  lemma {:induction false} MentionedIff(records: seq<Record>, x: Score)
    ensures x in ScoresIn(records) <==> exists r :: r in records && Mentions(r, x)
  {
    if records != [] {
      var last := |records| - 1;
      var r, init := records[last], records[..last];
      MentionedIff(init, x);
      ScoresOfNodes(r.children, x);
      forall q
        ensures q in records <==> q in init || q == r
      {
        assert records == init + [r];
      }
      assert x in ScoresIn(records) <==> x in ScoresIn(init) || Mentions(r, x);
    }
  }

  lemma ScoresOfNodes(nodes: seq<Node>, x: Score)
    ensures x in NodeScores(nodes) <==> exists c :: c in nodes && c.score == x
  {
    if x in NodeScores(nodes) {
      var i :| 0 <= i < |nodes| && NodeScores(nodes)[i] == x;
      assert nodes[i] in nodes;
    }
    if exists c :: c in nodes && c.score == x {
      var c :| c in nodes && c.score == x;
      var i :| 0 <= i < |nodes| && nodes[i] == c;
      assert NodeScores(nodes)[i] == x;
    }
  }

  /** A record is sent for m, and mentions x. */
  ghost predicate SaysOf(run: Run, m: Node, x: Score) {
    || (NeedsRecord(run, m) && (m.score == x || exists c :: c in TrueDeps(run, m) && c.score == x))
    || (run.readFiles && !m.dir && m.score == x)
  }

  /** Something reachable from the start nodes is recorded with x. */
  ghost predicate OutputSays(run: Run, start: seq<Node>, x: Score) {
    exists m {:trigger SaysOf(run, m, x)} :: Reachable(TrueGraph(run), start, m) && SaysOf(run, m, x)
  }

  lemma SentSaysOnly(run: Run, start: seq<Node>, s: Sys<Node>, times: seq<Time>, r: Record, x: Score)
    requires KnownIsTrue(run) && |times| == |s.log|
    requires Quiescent(VerifyGraph(run), start, s) && VisitReturns(s, Finished)
    requires r in Sent(run, s.log, times) && Mentions(r, x)
    ensures Reachable(TrueGraph(run), start, r.node) && SaysOf(run, r.node, x)
  {
    RecordHasCall(run, s.log, times, r);
    FinishedIsEarned(VerifyGraph(run), start, s);
    SuccessLog(VerifyGraph(run), start, s, if r.node.dir then Resolve else Visit, r.node);
    SameReach(run, start, r.node);
    if r.node.dir {
      SameDeps(run, r.node);
    }
  }

  lemma SentSaysAll(run: Run, start: seq<Node>, s: Sys<Node>, times: seq<Time>, m: Node, x: Score)
    requires KnownIsTrue(run) && |times| == |s.log|
    requires Quiescent(VerifyGraph(run), start, s) && VisitReturns(s, Finished)
    requires Reachable(TrueGraph(run), start, m) && SaysOf(run, m, x)
    ensures exists r :: r in Sent(run, s.log, times) && Mentions(r, x)
  {
    FinishedIsEarned(VerifyGraph(run), start, s);
    SameReach(run, start, m);
    var kind := if m.dir then Resolve else Visit;
    SuccessLog(VerifyGraph(run), start, s, kind, m);
    CallIsRecorded(run, s.log, times, Event(kind, Done, m));
    if m.dir {
      SameDeps(run, m);
    }
    var children := if m.dir then Deps(run, m) else [];
    var r :| r in Sent(run, s.log, times) && r.node == m && r.children == children;
    assert Mentions(r, x);
  }

  /**
   Exactly what the output of a successful run mentions: the directories that
   it reached and did not know, their children, and the chunks that it read.
   */
  lemma OutputIsExact(run: Run, start: seq<Node>, s: Sys<Node>, times: seq<Time>, x: Score)
    requires KnownIsTrue(run) && |times| == |s.log|
    requires Quiescent(VerifyGraph(run), start, s) && VisitReturns(s, Finished)
    ensures x in ScoresIn(Sent(run, s.log, times)) <==> OutputSays(run, start, x)
  {
    MentionedIff(Sent(run, s.log, times), x);
    if x in ScoresIn(Sent(run, s.log, times)) {
      var r :| r in Sent(run, s.log, times) && Mentions(r, x);
      SentSaysOnly(run, start, s, times, r, x);
    }
    if OutputSays(run, start, x) {
      var m :| Reachable(TrueGraph(run), start, m) && SaysOf(run, m, x);
      SentSaysAll(run, start, s, times, m, x);
    }
  }

  ghost predicate NothingReachableIn(run: Run, start: seq<Node>, garbage: seq<Score>) {
    forall n :: Reachable(TrueGraph(run), start, n) ==> n.score !in garbage
  }

  ghost predicate OutputSaysAll(run: Run, start: seq<Node>, allScores: seq<Score>) {
    forall n :: Reachable(TrueGraph(run), start, n) && n.score in allScores ==> OutputSays(run, start, n.score)
  }

  /**
   The output of one run alone protects what is listed and reachable if and only
   if each such score is that of a directory reached that was not known, of a
   child of one, or of a chunk that was read.
   */
  lemma OutputAloneProtectsIff(run: Run, start: seq<Node>, s: Sys<Node>, times: seq<Time>, allScores: seq<Score>)
    requires KnownIsTrue(run) && |times| == |s.log|
    requires Quiescent(VerifyGraph(run), start, s) && VisitReturns(s, Finished)
    ensures NothingReachableIn(run, start, GarbageOf(ScoreSet(ScoresIn(Sent(run, s.log, times))), allScores))
       <==> OutputSaysAll(run, start, allScores)
  {
    var accessible := ScoreSet(ScoresIn(Sent(run, s.log, times)));
    GarbageIsTheRest(accessible, allScores);
    forall x
      ensures x in accessible <==> OutputSays(run, start, x)
    {
      OutputIsExact(run, start, s, times, x);
    }
  }

  /** So it does whenever no directory that is reached was known. */
  lemma NoMemoSaysAll(run: Run, rootScores: seq<Score>, n: Node)
    requires forall m: Node :: Reachable(TrueGraph(run), RootNodes(rootScores), m) && m.dir ==> m !in run.known
    requires Reachable(TrueGraph(run), RootNodes(rootScores), n)
    ensures OutputSays(run, RootNodes(rootScores), n.score)
  {
    ReachedFrom(TrueGraph(run), RootNodes(rootScores), n);
    if n in RootNodes(rootScores) {
      assert SaysOf(run, n, n.score);
    } else {
      var m :| Reachable(TrueGraph(run), RootNodes(rootScores), m) && n in TrueGraph(run).deps(m);
      assert SaysOf(run, m, n.score);
    }
  }

  /** A wire format in which only the empty listing can be written. */
  function EmptyListings(): Wire {
    Wire(ps => if ps == [] then Some([]) else None, b => if b == [] then Some([]) else None)
  }

  /** A run on the backup of an empty directory, known from an earlier run. */
  function KnownEmptyBackup(root: Score): Run {
    Run(EmptyListings(), _ => Some([MAGIC_DIR]), {root}, map[Node(root, true) := []], false)
  }

  /**
   And it may protect nothing: there is a run that succeeds, with a memo that is
   true, by whose output the root that it was given is garbage.
   */
  lemma OutputAloneIsNotEnough(root: Score) returns (run: Run, s: Sys<Node>)
    ensures WireSound(run.wire) && KnownIsTrue(run)
    ensures Quiescent(VerifyGraph(run), RootNodes([root]), s) && VisitReturns(s, Finished)
    ensures Reachable(TrueGraph(run), RootNodes([root]), Node(root, true))
    ensures forall times :: |times| == |s.log| ==> root in GarbageOf(ScoreSet(ScoresIn(Sent(run, s.log, times))), [root])
  {
    run := KnownEmptyBackup(root);
    var n := Node(root, true);
    assert UnmarshalledDir(run.wire, [MAGIC_DIR]) == Some([]);
    assert Children(run.wire, run.load, n) == Some([]);
    assert RootNodes([root]) == [n];
    s := DagLimits.LoneNodeSucceeds(VerifyGraph(run), n);
    ReachesSelf(TrueGraph(run), n);
    forall times | |times| == |s.log|
      ensures root in GarbageOf(ScoreSet(ScoresIn(Sent(run, s.log, times))), [root])
    {
      if root in ScoresIn(Sent(run, s.log, times)) {
        OutputIsExact(run, [n], s, times, root);
        NothingSaid(run, n, root);
      }
      GarbageIsTheRest(ScoreSet(ScoresIn(Sent(run, s.log, times))), [root]);
    }
  }

  lemma NothingSaid(run: Run, n: Node, x: Score)
    requires n in run.known && n.dir && !run.readFiles && TrueDeps(run, n) == []
    ensures !OutputSays(run, [n], x)
  {
    forall m | Reachable(TrueGraph(run), [n], m)
      ensures m == n
    {
      DagLimits.OnlyStartIsReachable(TrueGraph(run), [n], m);
    }
  }
}
