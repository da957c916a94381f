/** Two whole saves, step by step: one that succeeds, and one that leaves the scores of a first chunk behind. */
module SaveRuns {
  import opened Wrappers
  import opened Scores
  import opened Times
  import opened Listing
  import opened Trees
  import opened Graphs
  import opened DagState
  import opened DagLimits
  import opened Moments
  import opened BlobStores
  import opened Save
  import opened SaveVisits
  import opened SaveSchedule

  lemma OnlyRoot(t: Tree, p: Path)
    requires t.children == []
    ensures Subtree(t, p).Some? <==> p == []
    decreases |p|
  {
    if p != [] {
      OnlyRoot(t, p[..|p| - 1]);
    }
  }

  const NOTHING_SAVED := World(State(map[], {}), map[], map[], map[])

  /** The root is visited, with these fortunes, once `at` events of the traversal have happened. */
  function RootTurns(fortunes: seq<Fortune>, at: nat): seq<Moment<Turn>> {
    seq(|fortunes|, i requires 0 <= i < |fortunes| => Moment(StepOf([], fortunes[i]), at))
  }

  ghost predicate IsVisit(plan: Plan, fortunes: seq<Fortune>, worlds: seq<World>) {
    && |worlds| == |fortunes| + 1 && worlds[0] == NOTHING_SAVED
    && forall i :: 0 <= i < |fortunes| ==>
         CanAct(plan, worlds[i], []) && worlds[i + 1] == Act(plan, worlds[i], [], fortunes[i])
  }

  function RootLog(phase: Phase): seq<Event<Path>> {
    [Event(Resolve, Began, []), Event(Resolve, Done, []), Event(Visit, Began, []), Event(Visit, phase, [])]
  }

  lemma RootIsInVisit(phase: Phase)
    requires phase != Began
    ensures InVisit(RootLog(phase), 3, []) && forall p :: Event(Visit, Done, p) !in RootLog(phase)[..3]
    ensures forall p :: Event(Visit, Done, p) in RootLog(phase) ==> phase == Done && p == []
  {
    assert RootLog(phase)[..3][2] == Event(Visit, Began, []);
  }

  lemma VisitIsSave(plan: Plan, contentOf: Key -> Bytes, phase: Phase, fortunes: seq<Fortune>, worlds: seq<World>)
    requires plan.env.chunkSize >= 1 && IsVisit(plan, fortunes, worlds) && phase != Began
    requires phase == Done ==> worlds[|fortunes|].StageOf([]) == Complete
    ensures IsSave(plan, contentOf, RootLog(phase), RootTurns(fortunes, 3), worlds)
  {
    var log, turns := RootLog(phase), RootTurns(fortunes, 3);
    RootIsInVisit(phase);
    forall i | 0 <= i < |turns|
      ensures TurnAt(plan, log, turns, worlds, i)
    {
    }
    assert log[..|log|] == log;
  }

  lemma KeysOfRoot(plan: Plan, contentOf: Key -> Bytes)
    requires plan.tree.children == [] && forall k :: contentOf(k) == plan.tree.content
    ensures StatDetermines(plan, contentOf)
  {
    forall p, now | Subtree(plan.tree, p).Some?
      ensures KeyOk(contentOf, Subtree(plan.tree, p).value,
                    MakeScoreMapKey(RelPath(plan.tree, p), Subtree(plan.tree, p).value.info, now))
    {
      OnlyRoot(plan.tree, p);
    }
  }

  /** The steps that save a listing. */
  lemma EmptyListingIsSaved(plan: Plan, f: Fortune, ct: Bytes) returns (worlds: seq<World>)
    requires plan.tree.info.typ == TYPE_DIRECTORY && plan.tree.children == []
    requires MarshalledDir(plan.env.wire, []).Some?
    requires plan.env.crypto.encrypt(MarshalledDir(plan.env.wire, []).value) == Some(ct)
    requires f.ok && f.creation == Stored
    ensures IsVisit(plan, [f, f, f, f, f, f, f], worlds)
    ensures worlds[7].StageOf([]) == Complete && worlds[7].GivenTo([]) == Some([plan.env.crypto.hash(ct)])
  {
    var w0 := NOTHING_SAVED;
    var w1 := Act(plan, w0, [], f);
    assert w1.StageOf([]) == Gathering([]);
    var w2 := Act(plan, w1, [], f);
    assert w2.StageOf([]) == LookingUp(ct, ListingSaved);
    var w3 := Act(plan, w2, [], f);
    assert w3.StageOf([]) == Creating(ct, ListingSaved);
    var w4 := Act(plan, w3, [], f);
    assert w4.StageOf([]) == Adding(ct, ListingSaved);
    var w5 := Act(plan, w4, [], f);
    assert w5.StageOf([]) == Giving([plan.env.crypto.hash(ct)]);
    var w6 := Act(plan, w5, [], f);
    assert w6.StageOf([]) == PassingOn;
    worlds := [w0, w1, w2, w3, w4, w5, w6, Act(plan, w6, [], f)];
  }

  /** An empty directory has a save that succeeds: what is proved of all of them is not proved of none. */
  lemma EmptyDirectoryIsSaved(plan: Plan, contentOf: Key -> Bytes, now: Time, ct: Bytes)
    returns (s: Sys<Path>, turns: seq<Moment<Turn>>, worlds: seq<World>)
    requires plan.env.chunkSize >= 1
    requires plan.tree.info.typ == TYPE_DIRECTORY && plan.tree.children == [] && plan.tree.content == []
    requires MarshalledDir(plan.env.wire, []).Some?
    requires plan.env.crypto.encrypt(MarshalledDir(plan.env.wire, []).value) == Some(ct)
    requires forall k :: contentOf(k) == []
    ensures SaveOf(plan, contentOf, s, turns, worlds)
    ensures Quiescent(TreeGraph(plan.tree), [[]], s) && VisitReturns(s, Finished)
    ensures worlds[|turns|].GivenTo([]) == Some([plan.env.crypto.hash(ct)])
  {
    var f := Fortune(now, true, Stored);
    var fortunes := [f, f, f, f, f, f, f];
    var root: Path := [];
    s := LoneNodeSucceeds(TreeGraph(plan.tree), root);
    worlds := EmptyListingIsSaved(plan, f, ct);
    turns := RootTurns(fortunes, 3);
    KeysOfRoot(plan, contentOf);
    VisitIsSave(plan, contentOf, Done, fortunes, worlds);
  }

  /** The steps that save the first chunk of a file, and fail to read the second. */
  lemma FirstChunkIsSaved(plan: Plan, now: Time, ct: Bytes) returns (fortunes: seq<Fortune>, worlds: seq<World>)
    requires plan.env.chunkSize >= 1
    requires plan.tree.info.typ == TYPE_FILE && |plan.tree.content| > plan.env.chunkSize
    requires plan.env.crypto.encrypt(MarshalFile(plan.tree.content[..plan.env.chunkSize])) == Some(ct)
    ensures IsVisit(plan, fortunes, worlds) && |fortunes| == 6
    ensures worlds[6].StageOf([]) == GivenUp && worlds[6].GivenTo([]) == Some([plan.env.crypto.hash(ct)])
  {
    var f, bad := Fortune(now, true, Stored), Fortune(now, false, Stored);
    var key := MakeScoreMapKey("", plan.tree.info, now);
    var rest := plan.tree.content[plan.env.chunkSize..];
    var w0 := NOTHING_SAVED;
    var w1 := Act(plan, w0, [], f);
    assert w1.StageOf([]) == Reading([], plan.tree.content, key);
    var w2 := Act(plan, w1, [], f);
    assert w2.StageOf([]) == LookingUp(ct, MoreChunks([], rest, key));
    var w3 := Act(plan, w2, [], f);
    assert w3.StageOf([]) == Creating(ct, MoreChunks([], rest, key));
    var w4 := Act(plan, w3, [], f);
    assert w4.StageOf([]) == Adding(ct, MoreChunks([], rest, key));
    var w5 := Act(plan, w4, [], f);
    assert w5.StageOf([]) == Reading([plan.env.crypto.hash(ct)], rest, key);
    fortunes := [f, f, f, f, f, bad];
    worlds := [w0, w1, w2, w3, w4, w5, Act(plan, w5, [], bad)];
  }

  lemma {:induction false} OneScoreEach(env: Env, chunks: seq<Bytes>)
    ensures ChunkScores(env, chunks).Some? ==> |ChunkScores(env, chunks).value| == |chunks|
  {
    if chunks != [] {
      OneScoreEach(env, chunks[1..]);
    }
  }

  /** A save that fails in the second chunk of a file leaves the score of the first on the node. */
  lemma FailedFileKeepsScores(plan: Plan, contentOf: Key -> Bytes, now: Time, ct: Bytes, e: Error)
    returns (s: Sys<Path>, turns: seq<Moment<Turn>>, worlds: seq<World>)
    requires plan.env.chunkSize >= 1
    requires plan.tree.info.typ == TYPE_FILE && plan.tree.children == [] && |plan.tree.content| > plan.env.chunkSize
    requires plan.env.crypto.encrypt(MarshalFile(plan.tree.content[..plan.env.chunkSize])) == Some(ct)
    requires forall k :: contentOf(k) == plan.tree.content
    ensures SaveOf(plan, contentOf, s, turns, worlds)
    ensures Quiescent(TreeGraph(plan.tree), [[]], s) && VisitReturns(s, StoppedBy(e))
    ensures worlds[|turns|].GivenTo([]) == Some([plan.env.crypto.hash(ct)])
    ensures TreeScores(plan.env, plan.tree) != Some([plan.env.crypto.hash(ct)])
  {
    var root: Path := [];
    s := LoneNodeFails(TreeGraph(plan.tree), root, e);
    var fortunes: seq<Fortune>;
    fortunes, worlds := FirstChunkIsSaved(plan, now, ct);
    turns := RootTurns(fortunes, 3);
    KeysOfRoot(plan, contentOf);
    VisitIsSave(plan, contentOf, Failed, fortunes, worlds);
    TwoChunksTwoScores(plan.env, plan.tree);
  }

  lemma TwoChunksTwoScores(env: Env, t: Tree)
    requires env.chunkSize >= 1 && t.info.typ == TYPE_FILE && |t.content| > env.chunkSize
    ensures TreeScores(env, t).Some? ==> |TreeScores(env, t).value| >= 2
  {
    OneScoreEach(env, Chunks(t.content, env.chunkSize));
    assert |Chunks(t.content[env.chunkSize..], env.chunkSize)| >= 1;
  }
}
