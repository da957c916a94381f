/** From a tree that was saved to the file system that it is restored to. */
module RoundTrip {
  import opened Wrappers
  import opened Scores
  import opened Times
  import opened Timevals
  import opened Modes
  import opened Listing
  import opened Trees
  import opened DagState
  import opened DagTheorems
  import opened Moments
  import opened BlobStores
  import opened Save
  import opened Pruning
  import SaveVisits
  import SaveSchedule
  import opened SavedBlobs
  import opened Restore
  import RestoreOrder
  import opened RestoreReads
  import VerifyLog
  import Verify
  import opened BackupVerifies

  lemma {:induction false} FaithfulBelow(t: Tree, rt: Tree, p: Path)
    requires Faithful(t, rt) && t.info.typ == rt.info.typ && Subtree(t, p).Some?
    ensures Subtree(rt, p).Some? && Faithful(Subtree(t, p).value, Subtree(rt, p).value)
    ensures Subtree(t, p).value.info.typ == Subtree(rt, p).value.info.typ
    ensures p != [] ==> SameEntry(Subtree(t, p).value.info, Subtree(rt, p).value.info)
    decreases |p|
  {
    if p != [] {
      FaithfulBelow(t, rt, p[..|p| - 1]);
    }
  }

  lemma {:induction false} FaithfulNames(t: Tree, rt: Tree, p: Path)
    requires Faithful(t, rt) && t.info.typ == rt.info.typ && Subtree(t, p).Some?
    ensures Subtree(rt, p).Some? && NameOf(rt, p) == NameOf(t, p)
    decreases |p|
  {
    FaithfulBelow(t, rt, p);
    if p != [] {
      FaithfulNames(t, rt, p[..|p| - 1]);
    }
  }

  lemma {:induction false} FaithfulDistinct(t: Tree, rt: Tree)
    requires Faithful(t, rt) && DistinctNames(t)
    requires t.info.typ == rt.info.typ && (rt.info.typ != TYPE_DIRECTORY ==> rt.children == [])
    requires WellFormed(rt)
    ensures DistinctNames(rt)
    decreases t
  {
    forall k | 0 <= k < |rt.children|
      ensures DistinctNames(rt.children[k])
    {
      FaithfulDistinct(t.children[k], rt.children[k]);
    }
  }

  /** The entry is what was saved: type, content and target, and mode and time as they are set. */
  predicate IsBack(fs: RestoreOrder.FileSystem, name: Name, u: Tree) {
    name in fs && RestoreOrder.Restored(fs[name], u)
  }

  lemma EntryIsBack(t: Tree, rt: Tree, p: Path, fs: RestoreOrder.FileSystem)
    requires Faithful(t, rt) && t.info.typ == rt.info.typ && Subtree(t, p).Some? && p != []
    requires Subtree(rt, p).Some? ==> IsBack(fs, NameOf(rt, p), Subtree(rt, p).value)
    ensures IsBack(fs, NameOf(t, p), Subtree(t, p).value)
  {
    FaithfulBelow(t, rt, p);
    FaithfulNames(t, rt, p);
  }

  /** Restoring what was saved, on whatever schedule, makes a plan that can be carried out. */
  lemma PlanIsOk(env: Env, bucket: Bucket, t: Tree, info: FileInfo, plan: RestoreOrder.Plan)
    requires Faithful(t, plan.tree) && DistinctNames(t) && info.typ == t.info.typ
    requires Restores(env, bucket, info, plan.tree) && RestoreOrder.PiecesOk(plan)
    ensures RestoreOrder.PlanOk(plan)
  {
    RestoredIsWellFormed(env, bucket, info, plan.tree);
    FaithfulDistinct(t, plan.tree);
  }

  /** A tree whose blobs the bucket holds is there to be found, or two stored blobs clash. */
  lemma HeldTreeIsFound(env: Env, bucket: Bucket, t: Tree, info: FileInfo, superuser: bool)
    requires EnvSound(env) && Holds(env, bucket, TreeBlobs(env, t))
    requires TreeScores(env, t) == Some(info.scores) && info.typ == t.info.typ
    ensures IsReadOff(env, bucket, info, PlanFor(env, bucket, Restore.Returned(env, t, info), superuser))
         || Clash(env.crypto, TreeBlobs(env, t), bucket.Values)
  {
    SaveThenRestore(env, bucket, t, info, TreeBlobs(env, t));
    if !Clash(env.crypto, TreeBlobs(env, t), bucket.Values) {
      RestoredIsReadOff(env, bucket, info, Restore.Returned(env, t, info), superuser);
    }
  }

  /** Restored by a traversal that succeeds, from whatever has become of the bucket, a saved tree is in the file system again. */
  lemma {:induction false} SavedTreeComesBack(env: Env, bucket: Bucket, t: Tree, info: FileInfo, plan: RestoreOrder.Plan,
                           s: Sys<Path>, moves: seq<RestoreOrder.Move>, worlds: seq<RestoreOrder.World>, p: Path)
    requires EnvSound(env) && DistinctNames(t)
    requires TreeScores(env, t) == Some(info.scores) && info.typ == t.info.typ
    requires IsReadOff(env, bucket, info, plan) && RestoreOrder.IsRestore(plan, s.log, moves, worlds)
    requires Quiescent(RestoreGraph(env, bucket, info), [[]], s) && VisitReturns(s, Finished)
    requires Subtree(t, p).Some? && p != []
    ensures IsBack(worlds[|moves|].fs, NameOf(t, p), Subtree(t, p).value)
         || Clash(env.crypto, TreeBlobs(env, t), bucket.Values)
  {
    SuccessReadsAll(env, bucket, info, plan, s);
    RestoreIsFaithful(env, bucket, t, info, plan.tree);
    if Faithful(t, plan.tree) {
      PlanIsOk(env, bucket, t, info, plan);
      if Subtree(plan.tree, p).Some? {
        ReadOffGraph(env, bucket, info, plan);
        RestoreOrder.SuccessRestoresAll(RestoreGraph(env, bucket, info), plan, s, moves, worlds, p);
      }
      EntryIsBack(t, plan.tree, p, worlds[|moves|].fs);
    }
  }

  /**
   A tree that was saved by one traversal that succeeds, and is then restored
   from its root score by another that succeeds, is in the file system again,
   whatever the two schedules, the caches and the failures survived, and whatever
   has become of the bucket in between: every file, directory and symlink below
   the root has its name, type, content and target, and the mode and time that
   TimesAndModesComeBackIff is about. Otherwise two different blobs have the same
   score.
   */
  lemma {:induction false} BackupRoundTrip(
    plan: SaveVisits.Plan, contentOf: Key -> Bytes,
    saving: Sys<Path>, turns: seq<Moment<SaveSchedule.Turn>>, saves: seq<SaveVisits.World>,
    later: Bucket, info: FileInfo, restore: RestoreOrder.Plan,
    restoring: Sys<Path>, moves: seq<RestoreOrder.Move>, worlds: seq<RestoreOrder.World>, p: Path)
    requires SaveSchedule.SaveOf(plan, contentOf, saving, turns, saves)
    requires Quiescent(TreeGraph(plan.tree), [[]], saving) && VisitReturns(saving, Finished)
    requires EnvSound(plan.env) && DistinctNames(plan.tree) && plan.tree.info.typ == TYPE_DIRECTORY
    requires info.typ == TYPE_DIRECTORY && info.scores == saves[|turns|].ScoresAt([])
    requires IsReadOff(plan.env, later, info, restore) && RestoreOrder.IsRestore(restore, restoring.log, moves, worlds)
    requires Quiescent(RestoreGraph(plan.env, later, info), [[]], restoring) && VisitReturns(restoring, Finished)
    requires Subtree(plan.tree, p).Some? && p != []
    ensures IsBack(worlds[|moves|].fs, NameOf(plan.tree, p), Subtree(plan.tree, p).value)
         || Clash(plan.env.crypto, TreeBlobs(plan.env, plan.tree), later.Values)
  {
    SaveSchedule.RootScoreIsScheduleIndependent(plan, contentOf, saving, turns, saves);
    SavedTreeComesBack(plan.env, later, plan.tree, info, restore, restoring, moves, worlds, p);
  }

  /**
   And if the bucket has kept the objects, and they are what their names say, the
   restore does succeed when its calls fail only if they must.
   */
  lemma BackupCanBeRestored(
    plan: SaveVisits.Plan, contentOf: Key -> Bytes,
    saving: Sys<Path>, turns: seq<Moment<SaveSchedule.Turn>>, saves: seq<SaveVisits.World>,
    later: Bucket, info: FileInfo, restoring: Sys<Path>)
    requires SaveSchedule.SaveOf(plan, contentOf, saving, turns, saves)
    requires Quiescent(TreeGraph(plan.tree), [[]], saving) && VisitReturns(saving, Finished)
    requires EnvSound(plan.env) && saves[|turns|].state.bucket.Keys <= later.Keys && BucketSound(plan.env.crypto, later)
    requires info.typ == plan.tree.info.typ && info.scores == saves[|turns|].ScoresAt([])
    requires Quiescent(RestoreGraph(plan.env, later, info), [[]], restoring)
    requires NoChanceFailures(RestoreGraph(plan.env, later, info), restoring.log)
    ensures VisitReturns(restoring, Finished) || Clash(plan.env.crypto, TreeBlobs(plan.env, plan.tree), later.Values)
  {
    var blobs := TreeBlobs(plan.env, plan.tree);
    SuccessfulSaveHolds(plan, contentOf, saving, turns, saves);
    HoldsLater(plan.env, saves[|turns|].state.bucket, later, blobs);
    SaveThenRestore(plan.env, later, plan.tree, info, blobs);
    if !Clash(plan.env.crypto, blobs, later.Values) {
      WholeTreeCanBeRead(plan.env, later, info, Restore.Returned(plan.env, plan.tree, info));
      OutcomeIsExact(RestoreGraph(plan.env, later, info), [[]], restoring);
    }
  }

  /** Nor does anything keep a verify run on its root score, given all scores in the bucket, from succeeding. */
  lemma BackupCanBeVerified(
    plan: SaveVisits.Plan, contentOf: Key -> Bytes,
    saving: Sys<Path>, turns: seq<Moment<SaveSchedule.Turn>>, saves: seq<SaveVisits.World>,
    later: Bucket, run: Verify.Run, root: Score, verifying: Sys<VerifyLog.Node>)
    requires SaveSchedule.SaveOf(plan, contentOf, saving, turns, saves)
    requires Quiescent(TreeGraph(plan.tree), [[]], saving) && VisitReturns(saving, Finished)
    requires EnvSound(plan.env) && saves[|turns|].state.bucket.Keys <= later.Keys && BucketSound(plan.env.crypto, later)
    requires plan.tree.info.typ == TYPE_DIRECTORY && saves[|turns|].ScoresAt([]) == [root]
    requires ReadsFrom(run, plan.env, later) && AllListed(run, later) && Verify.KnownIsTrue(run)
    requires Quiescent(Verify.VerifyGraph(run), Verify.RootNodes([root]), verifying)
    requires NoChanceFailures(Verify.VerifyGraph(run), verifying.log)
    ensures VisitReturns(verifying, Finished) || Clash(plan.env.crypto, TreeBlobs(plan.env, plan.tree), later.Values)
  {
    SuccessfulSaveHolds(plan, contentOf, saving, turns, saves);
    HoldsLater(plan.env, saves[|turns|].state.bucket, later, TreeBlobs(plan.env, plan.tree));
    SavedTreeVerifies(plan.env, later, plan.tree, run, root, verifying);
  }

  /** With exclusions: what is on disk and not excluded, nor below anything that is, comes back as it is on disk. */
  lemma PrunedBackupRoundTrip(
    plan: SaveVisits.Plan, contentOf: Key -> Bytes, excluded: string -> bool, t: Tree,
    saving: Sys<Path>, turns: seq<Moment<SaveSchedule.Turn>>, saves: seq<SaveVisits.World>,
    later: Bucket, info: FileInfo, restore: RestoreOrder.Plan,
    restoring: Sys<Path>, moves: seq<RestoreOrder.Move>, worlds: seq<RestoreOrder.World>, q: Path)
    requires plan.tree == Pruned(excluded, "", t) && DistinctNames(t) && t.info.typ == TYPE_DIRECTORY
    requires SaveSchedule.SaveOf(plan, contentOf, saving, turns, saves) && EnvSound(plan.env)
    requires Quiescent(TreeGraph(plan.tree), [[]], saving) && VisitReturns(saving, Finished)
    requires info.typ == TYPE_DIRECTORY && info.scores == saves[|turns|].ScoresAt([])
    requires IsReadOff(plan.env, later, info, restore) && RestoreOrder.IsRestore(restore, restoring.log, moves, worlds)
    requires Quiescent(RestoreGraph(plan.env, later, info), [[]], restoring) && VisitReturns(restoring, Finished)
    requires Subtree(t, q).Some? && q != [] && NoneExcluded(excluded, t, q)
    ensures IsBack(worlds[|moves|].fs, NameOf(t, q), Subtree(t, q).value)
         || Clash(plan.env.crypto, TreeBlobs(plan.env, plan.tree), later.Values)
  {
    PrunedIsDistinct(excluded, "", t);
    var p := NodeIsKept(excluded, t, q);
    BackupRoundTrip(plan, contentOf, saving, turns, saves, later, info, restore, restoring, moves, worlds, p);
  }

  lemma {:induction false} NameWasSaved(t: Tree, rt: Tree, p: Path)
    requires Faithful(t, rt) && t.info.typ == rt.info.typ && Subtree(rt, p).Some?
    ensures Subtree(t, p).Some? && NameOf(rt, p) == NameOf(t, p)
    decreases |p|
  {
    if p != [] {
      NameWasSaved(t, rt, p[..|p| - 1]);
      FaithfulBelow(t, rt, p[..|p| - 1]);
    }
  }

  /** A name that nothing saved has is as it was before the restore. */
  lemma OnlySavedNamesChange(env: Env, bucket: Bucket, t: Tree, info: FileInfo, plan: RestoreOrder.Plan,
                             s: Sys<Path>, moves: seq<RestoreOrder.Move>, worlds: seq<RestoreOrder.World>, name: Name)
    requires EnvSound(env) && DistinctNames(t) && !RestoreOrder.IsName(t, name)
    requires TreeScores(env, t) == Some(info.scores) && info.typ == t.info.typ
    requires IsReadOff(env, bucket, info, plan) && RestoreOrder.IsRestore(plan, s.log, moves, worlds)
    requires Quiescent(RestoreGraph(env, bucket, info), [[]], s) && VisitReturns(s, Finished)
    ensures RestoreOrder.SameAt(worlds[0].fs, worlds[|moves|].fs, name) || Clash(env.crypto, TreeBlobs(env, t), bucket.Values)
  {
    SuccessReadsAll(env, bucket, info, plan, s);
    RestoreIsFaithful(env, bucket, t, info, plan.tree);
    if Faithful(t, plan.tree) {
      PlanIsOk(env, bucket, t, info, plan);
      if RestoreOrder.IsName(plan.tree, name) {
        var p :| Subtree(plan.tree, p).Some? && NameOf(plan.tree, p) == name;
        NameWasSaved(t, plan.tree, p);
      }
      ReadOffGraph(env, bucket, info, plan);
      RestoreOrder.SuccessVisitsAll(RestoreGraph(env, bucket, info), plan.tree, s, []);
      RestoreOrder.TheRestIsUntouched(plan, s.log, moves, worlds, |moves|, name);
    }
  }

  /** With exclusions: nothing that is excluded, nor anything below it, is touched by the restore. */
  lemma ExcludedIsLeftAlone(
    env: Env, excluded: string -> bool, t: Tree, bucket: Bucket, info: FileInfo, plan: RestoreOrder.Plan,
    s: Sys<Path>, moves: seq<RestoreOrder.Move>, worlds: seq<RestoreOrder.World>, q: Path)
    requires EnvSound(env) && DistinctNames(t) && t.info.typ == info.typ
    requires TreeScores(env, Pruned(excluded, "", t)) == Some(info.scores)
    requires IsReadOff(env, bucket, info, plan) && RestoreOrder.IsRestore(plan, s.log, moves, worlds)
    requires Quiescent(RestoreGraph(env, bucket, info), [[]], s) && VisitReturns(s, Finished)
    requires Subtree(t, q).Some? && !NoneExcluded(excluded, t, q)
    ensures RestoreOrder.SameAt(worlds[0].fs, worlds[|moves|].fs, NameOf(t, q))
         || Clash(env.crypto, TreeBlobs(env, Pruned(excluded, "", t)), bucket.Values)
  {
    var saved := Pruned(excluded, "", t);
    PrunedIsDistinct(excluded, "", t);
    if RestoreOrder.IsName(saved, NameOf(t, q)) {
      var p :| Subtree(saved, p).Some? && NameOf(saved, p) == NameOf(t, q);
      var q' := NodeWasThere(excluded, t, p);
      NamesAreUnique(t, q, q');
    }
    OnlySavedNamesChange(env, bucket, saved, info, plan, s, moves, worlds, NameOf(t, q));
  }

  lemma HoldsLater(env: Env, bucket: Bucket, later: Bucket, blobs: set<Bytes>)
    requires Holds(env, bucket, blobs) && bucket.Keys <= later.Keys && BucketSound(env.crypto, later)
    ensures Holds(env, later, blobs)
  {
  }

  /**
   What "back" means for times and modes. The time is as it was if and only if it
   is a whole number of microseconds, not before 1970 and, rounded up, a number of
   nanoseconds that fits in 64 bits; the mode is then seen
   with its permission, setuid, setgid and sticky bits, and so as it was if and
   only if it had no others.
   */
  lemma TimesAndModesComeBackIff(fs: RestoreOrder.FileSystem, name: Name, u: Tree)
    requires IsBack(fs, name, u) && IsTime(u.info.mtime)
    ensures fs[name].mtime == u.info.mtime <==>
      Nanoseconds(u.info.mtime) >= 0 && Fits(u.info.mtime) && u.info.mtime.nanosecond % NANOS_PER_MICRO == 0
    ensures ModeSeen(fs[name].mode) == KeptMode(u.info.permissions)
    ensures ModeSeen(fs[name].mode) == u.info.permissions <==> KeptMode(u.info.permissions) == u.info.permissions
  {
    TimeSetIsExactIff(u.info.mtime);
    KeptModeComesBack(u.info.permissions);
  }
}
