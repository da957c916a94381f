/** Verify, then collect garbage, then restore: a verified backup stays restorable. */
module GarbageSafety {
  import opened Scores
  import opened Times
  import opened Listing
  import opened Trees
  import opened BlobStores
  import opened VerifyLog
  import opened Graphs
  import opened DagState
  import Save
  import Restore
  import Verify
  import KnownStructure
  import GarbageSelection
  import GarbagePipeline
  import opened BackupVerifies

  /** Loading the score gives the same in both buckets. */
  predicate LoadsAlike(crypto: Crypto, a: Bucket, b: Bucket, s: Score) {
    Loaded(crypto, a, s) == Loaded(crypto, b, s)
  }

  /** Everything that the blobs lead to from the roots loads alike. */
  ghost predicate AllLoadAlike(crypto: Crypto, a: Bucket, b: Bucket, run: Verify.Run, start: seq<Node>) {
    forall n: Node {:trigger LoadsAlike(crypto, a, b, n.score)} ::
      Reachable(Verify.TrueGraph(run), start, n) ==> LoadsAlike(crypto, a, b, n.score)
  }

  /** At no moment of the collection is anything gone that is accessible. */
  lemma AccessibleLoadsAlike(crypto: Crypto, accessible: set<Score>, bucket: Bucket, listing: seq<Score>, cloners: nat, deleters: nat,
                             ps: seq<GarbagePipeline.Pipeline>, steps: seq<GarbagePipeline.Step>, i: nat, s: Score)
    requires GarbagePipeline.IsRun(accessible, bucket, listing, cloners, deleters, ps, steps) && i < |ps|
    requires s in accessible
    ensures LoadsAlike(crypto, bucket, ps[i].bucket, s)
  {
    GarbagePipeline.RunKeepsInv(accessible, bucket, listing, cloners, deleters, ps, steps, i);
    assert GarbagePipeline.BlobOk(bucket, ps[i].bucket, s);
  }

  // ---- A restore reads only what the blobs lead to ----

  lemma {:induction false} ScoresOfEntry(listing: seq<FileInfo>, k: nat, s: Score)
    requires Verify.ListingNodes(listing).Some? && k < |listing| && s in listing[k].scores
    requires listing[k].typ == TYPE_FILE || listing[k].typ == TYPE_DIRECTORY
    ensures Node(s, listing[k].typ == TYPE_DIRECTORY) in Verify.ListingNodes(listing).value
  {
    var last := |listing| - 1;
    if k < last {
      ScoresOfEntry(listing[..last], k, s);
    } else {
      var j :| 0 <= j < |listing[k].scores| && listing[k].scores[j] == s;
      assert Verify.EntryNodes(listing[k]).value[j] == Node(s, listing[k].typ == TYPE_DIRECTORY);
    }
  }

  /** Every score of the entry is one that the blobs lead to. */
  ghost predicate EntryReached(run: Verify.Run, start: seq<Node>, info: FileInfo) {
    info.typ == TYPE_FILE || info.typ == TYPE_DIRECTORY ==>
      forall s :: s in info.scores ==> Reachable(Verify.TrueGraph(run), start, Node(s, info.typ == TYPE_DIRECTORY))
  }

  ghost predicate ListingsMakeSense(run: Verify.Run, start: seq<Node>) {
    forall n: Node :: Reachable(Verify.TrueGraph(run), start, n) && n.dir ==>
      Verify.Children(run.wire, run.load, n).Some?
  }

  lemma EntriesAreReached(env: Save.Env, bucket: Bucket, run: Verify.Run, start: seq<Node>, info: FileInfo, k: nat)
    requires ReadsFrom(run, env, bucket)
    requires ListingsMakeSense(run, start) && EntryReached(run, start, info) && info.typ == TYPE_DIRECTORY
    requires var l := Restore.ReadListing(env, bucket, info.scores); l.Some? && k < |l.value|
    ensures EntryReached(run, start, Restore.ReadListing(env, bucket, info.scores).value[k])
  {
    var l := Restore.ReadListing(env, bucket, info.scores).value;
    var n := Node(info.scores[0], true);
    assert info.scores[0] in info.scores;
    if l[k].typ == TYPE_FILE || l[k].typ == TYPE_DIRECTORY {
      forall s | s in l[k].scores
        ensures Reachable(Verify.TrueGraph(run), start, Node(s, l[k].typ == TYPE_DIRECTORY))
      {
        ScoresOfEntry(l, k, s);
        ReachableStep(Verify.TrueGraph(run), start, n, Node(s, l[k].typ == TYPE_DIRECTORY));
      }
    }
  }

  lemma {:induction false} ChunksReadAlike(env: Save.Env, a: Bucket, b: Bucket, scores: seq<Score>)
    requires forall s :: s in scores ==> LoadsAlike(env.crypto, a, b, s)
    ensures Restore.ReadChunks(env, a, scores) == Restore.ReadChunks(env, b, scores)
  {
    if scores != [] {
      assert LoadsAlike(env.crypto, a, b, scores[0]);
      ChunksReadAlike(env, a, b, scores[1..]);
    }
  }

  /** What one bucket restores to, any other restores to in which the same blobs load alike. */
  lemma {:induction false} RestoresAlike(env: Save.Env, a: Bucket, b: Bucket, run: Verify.Run, start: seq<Node>,
                                         info: FileInfo, rt: Tree)
    requires ReadsFrom(run, env, a)
    requires ListingsMakeSense(run, start) && AllLoadAlike(env.crypto, a, b, run, start)
    requires EntryReached(run, start, info) && Restore.Restores(env, a, info, rt)
    ensures Restore.Restores(env, b, info, rt)
    decreases rt
  {
    if info.typ == TYPE_FILE {
      forall s | s in info.scores
        ensures LoadsAlike(env.crypto, a, b, s)
      {
        assert LoadsAlike(env.crypto, a, b, Node(s, false).score);
      }
      ChunksReadAlike(env, a, b, info.scores);
    } else if info.typ == TYPE_DIRECTORY {
      var l := Restore.ReadListing(env, a, info.scores).value;
      assert info.scores[0] in info.scores;
      assert LoadsAlike(env.crypto, a, b, Node(info.scores[0], true).score);
      forall k | 0 <= k < |l|
        ensures Restore.Restores(env, b, l[k], rt.children[k])
      {
        EntriesAreReached(env, a, run, start, info, k);
        RestoresAlike(env, a, b, run, start, l[k], rt.children[k]);
      }
    }
  }

  // ---- The whole story ----

  /** What gc takes to be accessible, given the log as the verify run left it. */
  function Accessible(tf: TimeFormat, run: Verify.Run, earlier: seq<Record>, s: Sys<Node>, times: seq<Time>): set<Score>
    requires |times| == |s.log|
  {
    var text := GarbageSelection.WholeLog(tf, earlier, Verify.Sent(run, s.log, times));
    GarbageSelection.ScoreSet(GarbageSelection.ScoresIn(ParsedLog(tf, text).records))
  }

  lemma VerifiedListings(tf: TimeFormat, run: Verify.Run, earlier: seq<Record>, now: Time, rootScores: seq<Score>,
                         s: Sys<Node>, times: seq<Time>)
    requires GarbageSelection.Verified(tf, run, earlier, now, rootScores, s, times)
    ensures ListingsMakeSense(run, Verify.RootNodes(rootScores))
  {
    KnownStructure.LogStaysTrue(tf, run, earlier, now, Verify.RootNodes(rootScores), s, times);
    forall n: Node | Reachable(Verify.TrueGraph(run), Verify.RootNodes(rootScores), n) && n.dir
      ensures Verify.Children(run.wire, run.load, n).Some?
    {
      Verify.SuccessCertifies(run, rootScores, s, times, n);
    }
  }

  lemma VerifiedIsAccessible(tf: TimeFormat, run: Verify.Run, earlier: seq<Record>, now: Time, rootScores: seq<Score>,
                             s: Sys<Node>, times: seq<Time>, n: Node)
    requires GarbageSelection.Verified(tf, run, earlier, now, rootScores, s, times)
    requires Reachable(Verify.TrueGraph(run), Verify.RootNodes(rootScores), n)
    ensures n.score in Accessible(tf, run, earlier, s, times)
  {
    GarbageSelection.ReachableIsMentioned(tf, run, earlier, now, rootScores, s, times, n);
    GarbageSelection.WholeLogParses(tf, earlier, Verify.Sent(run, s.log, times));
  }

  /**
   After verify has succeeded on the root of a backup, a garbage collection that
   is given the whole log leaves the backup restorable, to the same tree, at
   every moment and whatever fails.
   */
  lemma BackupSurvivesCollection(env: Save.Env, bucket: Bucket, tf: TimeFormat, run: Verify.Run,
                                 earlier: seq<Record>, now: Time, rootScores: seq<Score>, s: Sys<Node>, times: seq<Time>,
                                 listing: seq<Score>, cloners: nat, deleters: nat,
                                 ps: seq<GarbagePipeline.Pipeline>, steps: seq<GarbagePipeline.Step>, i: nat,
                                 info: FileInfo, rt: Tree)
    requires ReadsFrom(run, env, bucket)
    requires GarbageSelection.Verified(tf, run, earlier, now, rootScores, s, times)
    requires GarbagePipeline.IsRun(Accessible(tf, run, earlier, s, times), bucket, listing, cloners, deleters, ps, steps)
    requires i < |ps| && info.typ == TYPE_DIRECTORY
    requires forall score :: score in info.scores ==> score in rootScores
    requires Restore.Restores(env, bucket, info, rt)
    ensures Restore.Restores(env, ps[i].bucket, info, rt)
  {
    var start := Verify.RootNodes(rootScores);
    VerifiedListings(tf, run, earlier, now, rootScores, s, times);
    forall n: Node | Reachable(Verify.TrueGraph(run), start, n)
      ensures LoadsAlike(env.crypto, bucket, ps[i].bucket, n.score)
    {
      VerifiedIsAccessible(tf, run, earlier, now, rootScores, s, times, n);
      AccessibleLoadsAlike(env.crypto, Accessible(tf, run, earlier, s, times), bucket, listing, cloners, deleters, ps, steps, i, n.score);
    }
    forall score | score in info.scores
      ensures Reachable(Verify.TrueGraph(run), start, Node(score, true))
    {
      var k :| 0 <= k < |rootScores| && rootScores[k] == score;
      assert start[k] == Node(score, true);
      ReachesSelf(Verify.TrueGraph(run), start[k]);
    }
    RestoresAlike(env, bucket, ps[i].bucket, run, start, info, rt);
  }
}
