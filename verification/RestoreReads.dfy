/**
 What a restoring traversal reads from the bucket (internal/restore): the nodes
 that it finds, the pieces of their contents, and the tree that these make up
 when it succeeds.
 */
module RestoreReads {
  import opened Wrappers
  import opened Scores
  import opened Listing
  import opened Trees
  import opened Graphs
  import opened DagState
  import opened DagTheorems
  import opened BlobStores
  import opened Save
  import opened Restore
  import RestoreOrder

  /** The entry of a node: that of the root, or the one in the listing of the node above. */
  function InfoAt(env: Env, bucket: Bucket, info: FileInfo, p: Path): Option<FileInfo>
    decreases |p|
  {
    if p == [] then Some(info)
    else
      match InfoAt(env, bucket, info, p[..|p| - 1])
      case None => None
      case Some(above) =>
        var k, listing := p[|p| - 1], FoundBelow(env, bucket, above);
        if listing.Some? && k < |listing.value| then Some(listing.value[k]) else None
  }

  /** What FindDependencies finds below a node with this entry. */
  function FoundBelow(env: Env, bucket: Bucket, info: FileInfo): Option<seq<FileInfo>> {
    if info.typ != TYPE_DIRECTORY then Some([]) else ReadListing(env, bucket, info.scores)
  }

  /** The chunks of a file as they are loaded. */
  function ReadPieces(env: Env, bucket: Bucket, scores: seq<Score>): Option<seq<Bytes>> {
    if scores == [] then Some([])
    else
      var chunk, rest := ReadChunk(env, bucket, scores[0]), ReadPieces(env, bucket, scores[1..]);
      if chunk.Some? && rest.Some? then Some([chunk.value] + rest.value) else None
  }

  lemma {:induction false} PiecesAreChunks(env: Env, bucket: Bucket, scores: seq<Score>)
    ensures ReadPieces(env, bucket, scores).Some? <==> ReadChunks(env, bucket, scores).Some?
    ensures ReadPieces(env, bucket, scores).Some? ==>
      ReadChunks(env, bucket, scores) == Some(Concat(ReadPieces(env, bucket, scores).value))
  {
    if scores != [] {
      PiecesAreChunks(env, bucket, scores[1..]);
      if ReadPieces(env, bucket, scores).Some? {
        assert ReadPieces(env, bucket, scores).value[1..] == ReadPieces(env, bucket, scores[1..]).value;
      }
    }
  }

  /** The traversal of a restore. A call can succeed only if all that it loads is there. */
  function RestoreGraph(env: Env, bucket: Bucket, info: FileInfo): Graph<Path> {
    Graph(p => PathsBelow(env, bucket, info, p),
          p => var i := InfoAt(env, bucket, info, p); i.Some? && FoundBelow(env, bucket, i.value).Some?,
          p => var i := InfoAt(env, bucket, info, p); i.Some? && Visitable(env, bucket, i.value))
  }

  function PathsBelow(env: Env, bucket: Bucket, info: FileInfo, p: Path): seq<Path> {
    match InfoAt(env, bucket, info, p)
    case None => []
    case Some(i) =>
      match FoundBelow(env, bucket, i)
      case None => []
      case Some(listing) => seq(|listing|, k => p + [k])
  }

  predicate Visitable(env: Env, bucket: Bucket, info: FileInfo) {
    && info.typ in {TYPE_FILE, TYPE_DIRECTORY, TYPE_SYMLINK}
    && (info.typ == TYPE_FILE ==> ReadPieces(env, bucket, info.scores).Some?)
  }

  /** What there is to write for a node with this entry. */
  function PiecesFor(env: Env, bucket: Bucket, info: FileInfo): seq<Bytes> {
    if info.typ == TYPE_FILE then Get(ReadPieces(env, bucket, info.scores), []) else []
  }

  ghost predicate NodeIsReadOff(env: Env, bucket: Bucket, info: FileInfo, plan: RestoreOrder.Plan, p: Path) {
    var u, i := Subtree(plan.tree, p), InfoAt(env, bucket, info, p);
    && (u.Some? <==> i.Some?)
    && (u.Some? ==>
          && u.value.info == i.value
          && plan.pieces(p) == PiecesFor(env, bucket, i.value) && u.value.content == Concat(plan.pieces(p)))
  }

  /** The nodes of the plan are those to be found, with their entries, and its pieces those to be loaded. */
  ghost predicate IsReadOff(env: Env, bucket: Bucket, info: FileInfo, plan: RestoreOrder.Plan) {
    && WellFormed(plan.tree)
    && forall p {:trigger NodeIsReadOff(env, bucket, info, plan, p)} :: NodeIsReadOff(env, bucket, info, plan, p)
  }

  /** The children in the tree are as many as are found. */
  lemma ChildrenAreFound(env: Env, bucket: Bucket, info: FileInfo, plan: RestoreOrder.Plan, p: Path, u: Tree)
    requires IsReadOff(env, bucket, info, plan) && Subtree(plan.tree, p) == Some(u)
    ensures var listing := FoundBelow(env, bucket, u.info);
      |u.children| == if listing.Some? then |listing.value| else 0
  {
    var listing := FoundBelow(env, bucket, u.info);
    var n := if listing.Some? then |listing.value| else 0;
    assert NodeIsReadOff(env, bucket, info, plan, p);
    SubtreeOfWellFormed(plan.tree, p);
    ChildIsFound(env, bucket, info, plan, p, u, |u.children|);
    ChildIsFound(env, bucket, info, plan, p, u, n);
  }

  lemma ChildIsFound(env: Env, bucket: Bucket, info: FileInfo, plan: RestoreOrder.Plan, p: Path, u: Tree, k: nat)
    requires IsReadOff(env, bucket, info, plan) && Subtree(plan.tree, p) == Some(u)
    ensures var listing := FoundBelow(env, bucket, u.info);
      && (u.info.typ == TYPE_DIRECTORY && k < |u.children| <==> listing.Some? && k < |listing.value|)
      && (u.info.typ == TYPE_DIRECTORY && k < |u.children| ==> u.children[k].info == listing.value[k])
  {
    assert NodeIsReadOff(env, bucket, info, plan, p) && NodeIsReadOff(env, bucket, info, plan, p + [k]);
    assert (p + [k])[..|p|] == p && (p + [k])[|p|] == k;
  }

  lemma ReadOffGraph(env: Env, bucket: Bucket, info: FileInfo, plan: RestoreOrder.Plan)
    requires IsReadOff(env, bucket, info, plan)
    ensures IsGraphOf(RestoreGraph(env, bucket, info), plan.tree)
  {
    forall p: Path
      ensures PathsBelow(env, bucket, info, p) == ChildPaths(plan.tree, p)
    {
      assert NodeIsReadOff(env, bucket, info, plan, p);
      if Subtree(plan.tree, p).Some? {
        ChildrenAreFound(env, bucket, info, plan, p, Subtree(plan.tree, p).value);
      }
    }
  }

  lemma {:induction false} ReadsBelow(env: Env, bucket: Bucket, info: FileInfo, plan: RestoreOrder.Plan,
                                      s: Sys<Path>, p: Path, u: Tree)
    requires IsReadOff(env, bucket, info, plan) && Subtree(plan.tree, p) == Some(u)
    requires Quiescent(RestoreGraph(env, bucket, info), [[]], s) && VisitReturns(s, Finished)
    ensures Restores(env, bucket, u.info, u)
    decreases u
  {
    var g := RestoreGraph(env, bucket, info);
    ReadOffGraph(env, bucket, info, plan);
    AllAreReachable(g, plan.tree, p);
    SuccessLog(g, [[]], s, Visit, p);
    assert NodeIsReadOff(env, bucket, info, plan, p);
    SubtreeOfWellFormed(plan.tree, p);
    PiecesAreChunks(env, bucket, u.info.scores);
    ChildrenAreFound(env, bucket, info, plan, p, u);
    forall k | 0 <= k < |u.children|
      ensures u.info.typ == TYPE_DIRECTORY
      ensures Restores(env, bucket, ReadListing(env, bucket, u.info.scores).value[k], u.children[k])
    {
      ChildIsFound(env, bucket, info, plan, p, u, k);
      ChildIsDep(plan.tree, p, u, k);
      ReadsBelow(env, bucket, info, plan, s, p + [k], u.children[k]);
    }
  }

  /** A traversal that succeeds has found every listing and loaded every chunk: it has read a whole tree. */
  lemma SuccessReadsAll(env: Env, bucket: Bucket, info: FileInfo, plan: RestoreOrder.Plan, s: Sys<Path>)
    requires IsReadOff(env, bucket, info, plan)
    requires Quiescent(RestoreGraph(env, bucket, info), [[]], s) && VisitReturns(s, Finished)
    ensures Restores(env, bucket, info, plan.tree) && RestoreOrder.PiecesOk(plan)
  {
    assert NodeIsReadOff(env, bucket, info, plan, []);
    ReadsBelow(env, bucket, info, plan, s, [], plan.tree);
    forall p | Subtree(plan.tree, p).Some?
      ensures Concat(plan.pieces(p)) == Subtree(plan.tree, p).value.content
      ensures Subtree(plan.tree, p).value.info.typ != TYPE_FILE ==> plan.pieces(p) == []
    {
      assert NodeIsReadOff(env, bucket, info, plan, p);
    }
  }

  // ---- The other way round ----

  /** The plan for a tree, with what is in the bucket. */
  function PlanFor(env: Env, bucket: Bucket, rt: Tree, superuser: bool): RestoreOrder.Plan {
    RestoreOrder.Plan(rt, p => match Subtree(rt, p) case None => [] case Some(u) => PiecesFor(env, bucket, u.info), superuser)
  }

  lemma {:induction false} RestoredNode(env: Env, bucket: Bucket, info: FileInfo, rt: Tree, p: Path)
    requires Restores(env, bucket, info, rt)
    ensures Subtree(rt, p).Some? <==> InfoAt(env, bucket, info, p).Some?
    ensures Subtree(rt, p).Some? ==>
      var u := Subtree(rt, p).value; InfoAt(env, bucket, info, p) == Some(u.info) && Restores(env, bucket, u.info, u)
    decreases |p|
  {
    if p != [] {
      RestoredNode(env, bucket, info, rt, p[..|p| - 1]);
    }
  }

  lemma {:induction false} RestoredIsWellFormed(env: Env, bucket: Bucket, info: FileInfo, rt: Tree)
    requires Restores(env, bucket, info, rt)
    ensures WellFormed(rt)
    decreases rt
  {
    forall k | 0 <= k < |rt.children|
      ensures WellFormed(rt.children[k])
    {
      RestoredIsWellFormed(env, bucket, ReadListing(env, bucket, info.scores).value[k], rt.children[k]);
    }
  }

  /** Whatever tree can be restored from the bucket is the one that is found there. */
  lemma RestoredIsReadOff(env: Env, bucket: Bucket, info: FileInfo, rt: Tree, superuser: bool)
    requires Restores(env, bucket, info, rt)
    ensures IsReadOff(env, bucket, info, PlanFor(env, bucket, rt, superuser))
  {
    RestoredIsWellFormed(env, bucket, info, rt);
    forall p: Path
      ensures NodeIsReadOff(env, bucket, info, PlanFor(env, bucket, rt, superuser), p)
    {
      RestoredNode(env, bucket, info, rt, p);
      if Subtree(rt, p).Some? {
        PiecesAreChunks(env, bucket, Subtree(rt, p).value.info.scores);
      }
    }
  }

  /** A path of the traversal leads down, one level at a time. */
  lemma {:induction false} PathLeadsDown(env: Env, bucket: Bucket, info: FileInfo, q: seq<Path>)
    requires IsPath(RestoreGraph(env, bucket, info), q) && InfoAt(env, bucket, info, q[0]).Some?
    ensures var end := q[|q| - 1]; InfoAt(env, bucket, info, end).Some? && |end| == |q[0]| + |q| - 1
    decreases |q|
  {
    if |q| > 1 {
      var g, init := RestoreGraph(env, bucket, info), q[..|q| - 1];
      assert forall i :: 0 <= i < |init| ==> init[i] == q[i];
      PathLeadsDown(env, bucket, info, init);
      var above, end := q[|q| - 2], q[|q| - 1];
      assert q[|q| - 2 + 1] in g.deps(above);
      var k :| 0 <= k < |PathsBelow(env, bucket, info, above)| && PathsBelow(env, bucket, info, above)[k] == end;
      assert end == above + [k] && end[..|above|] == above;
    }
  }

  lemma NoCycleBelow(env: Env, bucket: Bucket, info: FileInfo, p: Path)
    ensures !OnCycle(RestoreGraph(env, bucket, info), p)
  {
    var g := RestoreGraph(env, bucket, info);
    if OnCycle(g, p) {
      var q :| PathBetween(g, q, p, p) && |q| >= 2;
      assert q[0 + 1] in g.deps(q[0]);
      PathLeadsDown(env, bucket, info, q);
    }
  }

  /** A tree that the bucket holds whole can be restored: every call can succeed, and there is no cycle. */
  lemma WholeTreeCanBeRead(env: Env, bucket: Bucket, info: FileInfo, rt: Tree)
    requires Restores(env, bucket, info, rt)
    ensures AllCanSucceed(RestoreGraph(env, bucket, info), [[]]) && !CycleWithin(RestoreGraph(env, bucket, info), [[]])
  {
    var g := RestoreGraph(env, bucket, info);
    forall p | Reachable(g, [[]], p)
      ensures g.resolvable(p) && g.visitable(p)
    {
      var s :| s in [[]] && Reaches(g, s, p);
      var q :| PathBetween(g, q, [], p);
      PathLeadsDown(env, bucket, info, q);
      RestoredNode(env, bucket, info, rt, p);
      PiecesAreChunks(env, bucket, InfoAt(env, bucket, info, p).value.scores);
    }
    forall p
      ensures !OnCycle(g, p)
    {
      NoCycleBelow(env, bucket, info, p);
    }
  }

  /** So, when calls fail only if they must, a restore succeeds if and only if the bucket holds a whole tree. */
  lemma RestoreSucceedsIff(env: Env, bucket: Bucket, info: FileInfo, plan: RestoreOrder.Plan, s: Sys<Path>)
    requires IsReadOff(env, bucket, info, plan)
    requires Quiescent(RestoreGraph(env, bucket, info), [[]], s) && NoChanceFailures(RestoreGraph(env, bucket, info), s.log)
    ensures VisitReturns(s, Finished) <==> Restores(env, bucket, info, plan.tree)
  {
    if VisitReturns(s, Finished) {
      SuccessReadsAll(env, bucket, info, plan, s);
    }
    if Restores(env, bucket, info, plan.tree) {
      WholeTreeCanBeRead(env, bucket, info, plan.tree);
      OutcomeIsExact(RestoreGraph(env, bucket, info), [[]], s);
    }
  }
}
