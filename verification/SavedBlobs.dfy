/** What a successful save leaves in the bucket: every blob of the tree, with caches as without them. */
module SavedBlobs {
  import opened Wrappers
  import opened Scores
  import opened Listing
  import opened Trees
  import opened BlobStores
  import opened DagState
  import opened Moments
  import opened Save
  import opened SaveVisits
  import opened SaveSchedule
  import opened Restore
  import opened RelPaths

  // ---- From scores to blobs ----

  lemma {:induction false} ChunksAreHeld(env: Env, bucket: Bucket, chunks: seq<Bytes>)
    requires ChunkScores(env, chunks).Some? && AllStored(bucket, ChunkScores(env, chunks).value)
    ensures HasAll(env, bucket, ChunkBlobs(env, chunks))
  {
    if chunks != [] {
      var scores := ChunkScores(env, chunks).value;
      assert scores == [BlobScore(env, MarshalFile(chunks[0])).value] + ChunkScores(env, chunks[1..]).value;
      assert scores[0] in scores;
      ChunksAreHeld(env, bucket, chunks[1..]);
    }
  }

  lemma ListingIsHeld(env: Env, bucket: Bucket, t: Tree)
    requires env.chunkSize >= 1 && t.info.typ == TYPE_DIRECTORY
    requires TreeScores(env, t).Some? && AllStored(bucket, TreeScores(env, t).value)
    ensures HasAll(env, bucket, ListingBlobs(env, t.children))
  {
    assert TreeScores(env, t).value[0] in TreeScores(env, t).value;
  }

  lemma {:induction false} ForestMember(env: Env, ts: seq<Tree>, ct: Bytes) returns (k: nat)
    requires env.chunkSize >= 1 && ct in ForestBlobs(env, ts)
    ensures k < |ts| && ct in TreeBlobs(env, ts[k])
  {
    k := |ts| - 1;
    if ct !in TreeBlobs(env, ts[k]) {
      k := ForestMember(env, ts[..k], ct);
    }
  }

  /** The blobs of the scores of every node of the tree are stored. */
  ghost predicate NodesAreStored(env: Env, bucket: Bucket, t: Tree)
    requires env.chunkSize >= 1
  {
    forall p :: Subtree(t, p).Some? ==>
      var u := Subtree(t, p).value;
      TreeScores(env, u).Some? && AllStored(bucket, TreeScores(env, u).value)
  }

  lemma {:induction false} TreeIsHeld(env: Env, bucket: Bucket, t: Tree, p: Path, u: Tree)
    requires env.chunkSize >= 1 && WellFormed(t) && NodesAreStored(env, bucket, t)
    requires Subtree(t, p) == Some(u)
    ensures HasAll(env, bucket, TreeBlobs(env, u))
    decreases u
  {
    if u.info.typ == TYPE_FILE {
      ChunksAreHeld(env, bucket, Chunks(u.content, env.chunkSize));
    }
    if u.info.typ == TYPE_DIRECTORY {
      ListingIsHeld(env, bucket, u);
    }
    SubtreeOfWellFormed(t, p);
    forall ct | ct in ForestBlobs(env, u.children)
      ensures BlobName(env.crypto.hash(ct)) in bucket
    {
      var k := ForestMember(env, u.children, ct);
      ChildIsDep(t, p, u, k);
      TreeIsHeld(env, bucket, t, p + [k], u.children[k]);
    }
  }

  // ---- A successful save ----

  /**
   A save whose traversal succeeds has the scores defined by recursion for the
   root, and all blobs of the tree in the bucket.
   */
  lemma SuccessfulSaveHolds(plan: Plan, contentOf: Key -> Bytes, s: Sys<Path>, turns: seq<Moment<Turn>>, worlds: seq<World>)
    requires SaveOf(plan, contentOf, s, turns, worlds)
    requires Quiescent(TreeGraph(plan.tree), [[]], s) && VisitReturns(s, Finished)
    ensures TreeScores(plan.env, plan.tree) == Some(worlds[|turns|].ScoresAt([]))
    ensures Holds(plan.env, worlds[|turns|].state.bucket, TreeBlobs(plan.env, plan.tree))
  {
    var bucket := worlds[|turns|].state.bucket;
    RootScoreIsScheduleIndependent(plan, contentOf, s, turns, worlds);
    CachesStaySound(plan, contentOf, s, turns, worlds, |turns|);
    forall p | Subtree(plan.tree, p).Some?
      ensures TreeScores(plan.env, Subtree(plan.tree, p).value).Some?
      ensures AllStored(bucket, TreeScores(plan.env, Subtree(plan.tree, p).value).value)
    {
      SuccessGivesAll(plan, contentOf, s, turns, worlds, p);
    }
    TreeIsHeld(plan.env, bucket, plan.tree, [], plan.tree);
  }

  /**
   A save that starts with an empty score map needs no assumption about stat
   information: in a tree of distinct file names its keys determine contents.
   */
  lemma SaveFromEmptyMap(plan: Plan, contentOf: Key -> Bytes, s: Sys<Path>, turns: seq<Moment<Turn>>, worlds: seq<World>)
    requires plan.env.chunkSize >= 1 && WellFormed(plan.tree) && HasFileNames(plan.tree) && DistinctNames(plan.tree)
    requires IsSave(plan, contentOf, s.log, turns, worlds) && worlds[0].scoreMap == map[]
    requires Quiescent(TreeGraph(plan.tree), [[]], s) && VisitReturns(s, Finished)
    ensures TreeScores(plan.env, plan.tree) == Some(worlds[|turns|].ScoresAt([]))
    ensures Holds(plan.env, worlds[|turns|].state.bucket, TreeBlobs(plan.env, plan.tree))
  {
    var contentOf' := KeysTellFilesApart(plan);
    assert Follows(plan, contentOf', s.log, turns, worlds);
    SuccessfulSaveHolds(plan, contentOf', s, turns, worlds);
  }

  // ---- With caches as without ----

  ghost function NamesOf(env: Env, blobs: set<Bytes>): set<string> {
    set ct | ct in blobs :: BlobName(env.crypto.hash(ct))
  }

  /** After a successful save the bucket has what it had, and the blobs of the tree under their names. */
  lemma SuccessfulSaveAdds(plan: Plan, contentOf: Key -> Bytes, s: Sys<Path>, turns: seq<Moment<Turn>>, worlds: seq<World>)
    requires SaveOf(plan, contentOf, s, turns, worlds)
    requires Quiescent(TreeGraph(plan.tree), [[]], s) && VisitReturns(s, Finished)
    ensures var first, last := worlds[0].state.bucket, worlds[|turns|].state.bucket;
      && last.Keys == first.Keys + NamesOf(plan.env, TreeBlobs(plan.env, plan.tree))
      && FromTree(plan, first, last) && BucketSound(plan.env.crypto, last)
  {
    SuccessfulSaveHolds(plan, contentOf, s, turns, worlds);
    SaveOfIsSound(plan, contentOf, s, turns, worlds, |turns|);
  }

  /** The two buckets have the same names, and the same contents wherever no two stored blobs share a score. */
  ghost predicate Equivalent(env: Env, a: Bucket, b: Bucket, blobs: set<Bytes>) {
    && a.Keys == b.Keys
    && forall name :: name in a && a[name] != b[name] ==>
         env.crypto.hash(a[name]) == env.crypto.hash(b[name]) && a[name] in blobs && b[name] in blobs
  }

  lemma SameNameSameScore(plan: Plan, first: Bucket, a: Bucket, b: Bucket, name: string)
    requires plan.env.chunkSize >= 1 && FromTree(plan, first, a) && FromTree(plan, first, b)
    requires BucketSound(plan.env.crypto, first) && name in a && name in b && a[name] != b[name]
    ensures var blobs := TreeBlobs(plan.env, plan.tree) + first.Values;
      a[name] in blobs && b[name] in blobs && plan.env.crypto.hash(a[name]) == plan.env.crypto.hash(b[name])
  {
    var c := plan.env.crypto;
    if name in first && a[name] == first[name] {
      assert first[name] in first.Values;
      assert c.hash(first[BlobName(c.hash(b[name]))]) == c.hash(b[name]);
    } else if name in first && b[name] == first[name] {
      assert first[name] in first.Values;
      assert c.hash(first[BlobName(c.hash(a[name]))]) == c.hash(a[name]);
    } else {
      NamesAreDistinct(c.hash(a[name]), c.hash(b[name]));
    }
  }

  /**
   Two successful saves of the same tree to the same bucket, one of which may
   consult its caches and the other not, on any schedules, with any failures on
   the way that they survive and whatever is forgotten, give every node the same
   scores and leave the same objects, but for blobs that share a score.
   */
  lemma CachesDoNotMatter(plan: Plan, contentOf: Key -> Bytes, s: Sys<Path>, turns: seq<Moment<Turn>>, worlds: seq<World>,
                          plan': Plan, s': Sys<Path>, turns': seq<Moment<Turn>>, worlds': seq<World>)
    requires plan' == plan.(caches := plan'.caches)
    requires SaveOf(plan, contentOf, s, turns, worlds) && SaveOf(plan', contentOf, s', turns', worlds')
    requires Quiescent(TreeGraph(plan.tree), [[]], s) && VisitReturns(s, Finished)
    requires Quiescent(TreeGraph(plan.tree), [[]], s') && VisitReturns(s', Finished)
    requires worlds[0].state.bucket == worlds'[0].state.bucket
    ensures forall p :: Subtree(plan.tree, p).Some? ==> worlds[|turns|].ScoresAt(p) == worlds'[|turns'|].ScoresAt(p)
    ensures Equivalent(plan.env, worlds[|turns|].state.bucket, worlds'[|turns'|].state.bucket,
                       TreeBlobs(plan.env, plan.tree) + worlds[0].state.bucket.Values)
  {
    var first, a, b := worlds[0].state.bucket, worlds[|turns|].state.bucket, worlds'[|turns'|].state.bucket;
    SuccessfulSaveAdds(plan, contentOf, s, turns, worlds);
    SuccessfulSaveAdds(plan', contentOf, s', turns', worlds');
    forall p | Subtree(plan.tree, p).Some?
      ensures worlds[|turns|].ScoresAt(p) == worlds'[|turns'|].ScoresAt(p)
    {
      SuccessGivesAll(plan, contentOf, s, turns, worlds, p);
      SuccessGivesAll(plan', contentOf, s', turns', worlds', p);
    }
    forall name | name in a && a[name] != b[name]
      ensures var blobs := TreeBlobs(plan.env, plan.tree) + first.Values;
        a[name] in blobs && b[name] in blobs && plan.env.crypto.hash(a[name]) == plan.env.crypto.hash(b[name])
    {
      SameNameSameScore(plan, first, a, b, name);
    }
  }
}
