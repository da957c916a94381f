/** A verify run on a backup that was saved: what it finds, that it accepts it all, and that it succeeds. */
module BackupVerifies {
  import opened Wrappers
  import opened Scores
  import opened Listing
  import opened Trees
  import opened BlobStores
  import opened VerifyLog
  import opened Graphs
  import opened DagState
  import opened DagTheorems
  import opened Save
  import opened Restore
  import opened Verify

  /** The verify run loads from the bucket that a restore would. */
  ghost predicate ReadsFrom(run: Run, env: Env, bucket: Bucket) {
    run.wire == env.wire && forall s :: run.load(s) == Loaded(env.crypto, bucket, s)
  }

  // ---- The nodes of a saved tree ----

  /** The node is that of a directory, or of a piece of a file, that is the subtree u of t. */
  ghost predicate StandsFor(env: Env, t: Tree, n: Node, u: Tree)
    requires env.chunkSize >= 1
  {
    && (exists p :: Subtree(t, p) == Some(u))
    && TreeScores(env, u).Some? && n.score in TreeScores(env, u).value
    && u.info.typ == if n.dir then TYPE_DIRECTORY else TYPE_FILE
  }

  /** No two blobs of the tree have the same score, and the bucket has them all. */
  ghost predicate IsHeld(env: Env, bucket: Bucket, t: Tree)
    requires env.chunkSize >= 1
  {
    Holds(env, bucket, TreeBlobs(env, t)) && !Clash(env.crypto, TreeBlobs(env, t), bucket.Values)
  }

  /** The listing of a directory of the tree is that of its children, all of them acceptable. */
  lemma ListingIsFound(env: Env, bucket: Bucket, t: Tree, run: Run, n: Node, u: Tree)
    requires EnvSound(env) && IsHeld(env, bucket, t) && ReadsFrom(run, env, bucket)
    requires n.dir && StandsFor(env, t, n, u)
    ensures TreeEntries(env, u.children).Some?
    ensures var listing := NormalizeAll(TreeEntries(env, u.children).value);
      ListingNodes(listing).Some? && Children(run.wire, run.load, n) == Some(ListingNodes(listing).value)
  {
    var p :| Subtree(t, p) == Some(u);
    SubtreeBlobs(env, t, p);
    ListingReadsBack(env, bucket, u, TreeBlobs(env, t));
    var listing := NormalizeAll(TreeEntries(env, u.children).value);
    forall k | 0 <= k < |listing|
      ensures IsAcceptable(listing[k])
    {
      EntryOfChild(env, u.children, k);
    }
    AcceptedIff(listing);
  }

  /** What a directory of the tree depends on stands for its children. */
  lemma DepStandsForChild(env: Env, bucket: Bucket, t: Tree, run: Run, n: Node, u: Tree, m: Node) returns (c: Tree)
    requires EnvSound(env) && IsHeld(env, bucket, t) && ReadsFrom(run, env, bucket)
    requires n.dir && StandsFor(env, t, n, u) && m in TrueDeps(run, n)
    ensures StandsFor(env, t, m, c) && c in u.children
  {
    ListingIsFound(env, bucket, t, run, n, u);
    var listing := NormalizeAll(TreeEntries(env, u.children).value);
    ListingNodesMember(listing, m);
    var k :| 0 <= k < |listing| && RefersTo(listing[k], m);
    EntryOfChild(env, u.children, k);
    c := u.children[k];
    var p :| Subtree(t, p) == Some(u);
    ChildIsDep(t, p, u, k);
  }

  // ---- There is no cycle ----

  function Height(t: Tree): nat
    decreases t, 1
  {
    if t.info.typ == TYPE_DIRECTORY then 1 + MaxHeight(t.children) else 0
  }

  function MaxHeight(ts: seq<Tree>): nat
    decreases ts, 0
  {
    if ts == [] then 0
    else
      var a, b := MaxHeight(ts[..|ts| - 1]), Height(ts[|ts| - 1]);
      if a > b then a else b
  }

  lemma {:induction false} ChildIsLower(ts: seq<Tree>, c: Tree)
    requires c in ts
    ensures Height(c) <= MaxHeight(ts)
  {
    var last := |ts| - 1;
    if c != ts[last] {
      ChildIsLower(ts[..last], c);
    }
  }

  lemma {:induction false} SameHeights(ts: seq<Tree>, ts': seq<Tree>)
    requires |ts| == |ts'| && forall k :: 0 <= k < |ts| ==> Height(ts[k]) == Height(ts'[k])
    ensures MaxHeight(ts) == MaxHeight(ts')
  {
    if ts != [] {
      var last := |ts| - 1;
      assert forall k :: 0 <= k < last ==> ts[..last][k] == ts[k] && ts'[..last][k] == ts'[k];
      SameHeights(ts[..last], ts'[..last]);
    }
  }

  /** Two directories of the tree with the same score have the same entries. */
  lemma SameScoreSameEntries(env: Env, blobs: set<Bytes>, u: Tree, u': Tree)
    requires EnvSound(env) && !Clash(env.crypto, blobs, blobs)
    requires TreeBlobs(env, u) <= blobs && TreeBlobs(env, u') <= blobs
    requires u.info.typ == TYPE_DIRECTORY && u'.info.typ == TYPE_DIRECTORY
    requires TreeScores(env, u).Some? && TreeScores(env, u) == TreeScores(env, u')
    ensures TreeEntries(env, u.children).Some? && TreeEntries(env, u'.children).Some?
    ensures NormalizeAll(TreeEntries(env, u.children).value) == NormalizeAll(TreeEntries(env, u'.children).value)
  {
    var entries, entries' := TreeEntries(env, u.children).value, TreeEntries(env, u'.children).value;
    var b, b' := MarshalledDir(env.wire, entries).value, MarshalledDir(env.wire, entries').value;
    var ct, ct' := env.crypto.encrypt(b).value, env.crypto.encrypt(b').value;
    assert TreeScores(env, u).value[0] == env.crypto.hash(ct) == env.crypto.hash(ct');
    assert ct in ListingBlobs(env, u.children) && ct' in ListingBlobs(env, u'.children);
    assert ct == ct';
    assert env.crypto.decrypt(ct) == Some(b) == Some(b');
    MarshalDirIsInjective(env.wire, entries, entries');
  }

  /** So they are equally high. */
  lemma {:induction false} SameScoreSameHeight(env: Env, blobs: set<Bytes>, u: Tree, u': Tree)
    requires EnvSound(env) && !Clash(env.crypto, blobs, blobs)
    requires TreeBlobs(env, u) <= blobs && TreeBlobs(env, u') <= blobs
    requires u.info.typ == u'.info.typ && TreeScores(env, u).Some? && TreeScores(env, u) == TreeScores(env, u')
    ensures Height(u) == Height(u')
    decreases u
  {
    if u.info.typ == TYPE_DIRECTORY {
      SameScoreSameEntries(env, blobs, u, u');
      var l, l' := NormalizeAll(TreeEntries(env, u.children).value), NormalizeAll(TreeEntries(env, u'.children).value);
      forall k | 0 <= k < |u.children|
        ensures Height(u.children[k]) == Height(u'.children[k])
      {
        assert l[k] == l'[k];
        EntryOfChild(env, u.children, k);
        EntryOfChild(env, u'.children, k);
        ChildBlobs(env, u.children, k);
        ChildBlobs(env, u'.children, k);
        SameScoreSameHeight(env, blobs, u.children[k], u'.children[k]);
      }
      SameHeights(u.children, u'.children);
    }
  }

  lemma HeldUnderItsName(env: Env, bucket: Bucket, t: Tree, ct: Bytes)
    requires env.chunkSize >= 1 && IsHeld(env, bucket, t) && ct in TreeBlobs(env, t)
    ensures bucket[BlobName(env.crypto.hash(ct))] == ct
  {
    var stored := bucket[BlobName(env.crypto.hash(ct))];
    assert stored in bucket.Values && env.crypto.hash(stored) == env.crypto.hash(ct);
  }

  lemma HeldBlobsDoNotClash(env: Env, bucket: Bucket, t: Tree)
    requires env.chunkSize >= 1 && IsHeld(env, bucket, t)
    ensures !Clash(env.crypto, TreeBlobs(env, t), TreeBlobs(env, t))
  {
    forall x | x in TreeBlobs(env, t)
      ensures bucket[BlobName(env.crypto.hash(x))] == x
    {
      HeldUnderItsName(env, bucket, t, x);
    }
  }

  /** A directory that stands for two subtrees stands for two of the same height. */
  lemma OneHeight(env: Env, bucket: Bucket, t: Tree, n: Node, u: Tree, u': Tree)
    requires EnvSound(env) && IsHeld(env, bucket, t) && n.dir
    requires StandsFor(env, t, n, u) && StandsFor(env, t, n, u')
    ensures Height(u) == Height(u')
  {
    var p :| Subtree(t, p) == Some(u);
    var p' :| Subtree(t, p') == Some(u');
    SubtreeBlobs(env, t, p);
    SubtreeBlobs(env, t, p');
    HeldBlobsDoNotClash(env, bucket, t);
    SameScoreSameHeight(env, TreeBlobs(env, t), u, u');
  }

  // ---- The run ----

  /** A true memo gives a node the children that its blob gives it, or none. */
  lemma DepsAreTrue(run: Run, n: Node, m: Node)
    requires KnownIsTrue(run) && m in VerifyGraph(run).deps(n)
    ensures n.dir && m in TrueDeps(run, n)
  {
  }

  /** A path of the run through a saved tree leads to ever lower subtrees. */
  lemma {:induction false} PathLowers(env: Env, bucket: Bucket, t: Tree, run: Run, q: seq<Node>, u: Tree) returns (v: Tree)
    requires EnvSound(env) && IsHeld(env, bucket, t) && ReadsFrom(run, env, bucket) && KnownIsTrue(run)
    requires IsPath(VerifyGraph(run), q) && StandsFor(env, t, q[0], u)
    ensures StandsFor(env, t, q[|q| - 1], v) && Height(v) + |q| - 1 <= Height(u)
    decreases |q|
  {
    v := u;
    if |q| > 1 {
      var init := q[..|q| - 1];
      assert forall i :: 0 <= i < |init| ==> init[i] == q[i];
      assert IsPath(VerifyGraph(run), init) by {
        forall i | 0 <= i < |init| - 1
          ensures init[i + 1] in VerifyGraph(run).deps(init[i])
        {
          assert q[i + 1] in VerifyGraph(run).deps(q[i]);
        }
      }
      var above := PathLowers(env, bucket, t, run, init, u);
      var n, m := q[|q| - 2], q[|q| - 1];
      assert q[|q| - 2 + 1] in VerifyGraph(run).deps(n);
      DepsAreTrue(run, n, m);
      v := DepStandsForChild(env, bucket, t, run, n, above, m);
      ChildIsLower(above.children, v);
    }
  }

  /** All scores that the bucket lists are given to the run. */
  ghost predicate AllListed(run: Run, bucket: Bucket) {
    forall s: Score {:trigger s in run.allScores} :: BlobName(s) in bucket ==> s in run.allScores
  }

  lemma {:induction false} ChunkIsStored(env: Env, bucket: Bucket, blobs: set<Bytes>, chunks: seq<Bytes>, s: Score)
    requires EnvSound(env) && Holds(env, bucket, blobs) && !Clash(env.crypto, blobs, bucket.Values)
    requires ChunkScores(env, chunks).Some? && ChunkBlobs(env, chunks) <= blobs && s in ChunkScores(env, chunks).value
    ensures BlobName(s) in bucket && Loaded(env.crypto, bucket, s).Some?
  {
    ReadsBack(env, bucket, blobs, MarshalFile(chunks[0]));
    if s != BlobScore(env, MarshalFile(chunks[0])).value {
      assert ChunkScores(env, chunks).value == [BlobScore(env, MarshalFile(chunks[0])).value] + ChunkScores(env, chunks[1..]).value;
      ChunkIsStored(env, bucket, blobs, chunks[1..], s);
    }
  }

  /** Every node of a saved tree has a score with an object that loads. */
  lemma NodeIsStored(env: Env, bucket: Bucket, t: Tree, n: Node, u: Tree)
    requires EnvSound(env) && IsHeld(env, bucket, t) && StandsFor(env, t, n, u)
    ensures BlobName(n.score) in bucket && Loaded(env.crypto, bucket, n.score).Some?
  {
    var p :| Subtree(t, p) == Some(u);
    SubtreeBlobs(env, t, p);
    if n.dir {
      ReadsBack(env, bucket, TreeBlobs(env, t), MarshalledDir(env.wire, TreeEntries(env, u.children).value).value);
    } else {
      ChunkIsStored(env, bucket, TreeBlobs(env, t), Chunks(u.content, env.chunkSize), n.score);
    }
  }

  lemma NodeIsInOrder(env: Env, bucket: Bucket, t: Tree, run: Run, n: Node, u: Tree)
    requires EnvSound(env) && IsHeld(env, bucket, t) && ReadsFrom(run, env, bucket) && AllListed(run, bucket)
    requires StandsFor(env, t, n, u)
    ensures InOrder(run, n)
  {
    NodeIsStored(env, bucket, t, n, u);
    if n.dir {
      ListingIsFound(env, bucket, t, run, n, u);
    }
  }

  /** Whatever the run reaches from the root stands for something in the tree. */
  lemma ReachedStandsFor(env: Env, bucket: Bucket, t: Tree, run: Run, root: Score, n: Node) returns (u: Tree)
    requires EnvSound(env) && IsHeld(env, bucket, t) && ReadsFrom(run, env, bucket) && KnownIsTrue(run)
    requires t.info.typ == TYPE_DIRECTORY && TreeScores(env, t) == Some([root])
    requires Reachable(VerifyGraph(run), RootNodes([root]), n)
    ensures StandsFor(env, t, n, u)
  {
    var a :| a in RootNodes([root]) && Reaches(VerifyGraph(run), a, n);
    var q :| PathBetween(VerifyGraph(run), q, a, n);
    var top: Path := [];
    assert Subtree(t, top) == Some(t) && root in TreeScores(env, t).value;
    u := PathLowers(env, bucket, t, run, q, t);
  }

  lemma NoCycleReached(env: Env, bucket: Bucket, t: Tree, run: Run, root: Score, n: Node)
    requires EnvSound(env) && IsHeld(env, bucket, t) && ReadsFrom(run, env, bucket) && KnownIsTrue(run)
    requires t.info.typ == TYPE_DIRECTORY && TreeScores(env, t) == Some([root])
    requires Reachable(VerifyGraph(run), RootNodes([root]), n)
    ensures !OnCycle(VerifyGraph(run), n)
  {
    if OnCycle(VerifyGraph(run), n) {
      var q :| PathBetween(VerifyGraph(run), q, n, n) && |q| >= 2;
      assert q[0 + 1] in VerifyGraph(run).deps(q[0]);
      DepsAreTrue(run, q[0], q[1]);
      var u := ReachedStandsFor(env, bucket, t, run, root, n);
      var v := PathLowers(env, bucket, t, run, q, u);
      OneHeight(env, bucket, t, n, u, v);
    }
  }

  /**
   A verify run on the root of a saved tree, given all scores that the bucket
   lists, succeeds when its calls fail only if they must; or two stored blobs clash.
   */
  lemma SavedTreeVerifies(env: Env, bucket: Bucket, t: Tree, run: Run, root: Score, s: Sys<Node>)
    requires EnvSound(env) && Holds(env, bucket, TreeBlobs(env, t))
    requires t.info.typ == TYPE_DIRECTORY && TreeScores(env, t) == Some([root])
    requires ReadsFrom(run, env, bucket) && AllListed(run, bucket) && KnownIsTrue(run)
    requires Quiescent(VerifyGraph(run), RootNodes([root]), s) && NoChanceFailures(VerifyGraph(run), s.log)
    ensures VisitReturns(s, Finished) || Clash(env.crypto, TreeBlobs(env, t), bucket.Values)
  {
    if IsHeld(env, bucket, t) {
      forall n | Reachable(VerifyGraph(run), RootNodes([root]), n)
        ensures InOrder(run, n) && !OnCycle(VerifyGraph(run), n)
      {
        var u := ReachedStandsFor(env, bucket, t, run, root, n);
        NodeIsInOrder(env, bucket, t, run, n, u);
        NoCycleReached(env, bucket, t, run, root, n);
      }
      VerdictIsExact(run, RootNodes([root]), s);
    }
  }
}
