/**
 The pipeline that moves garbage out of the way (gc.go): objects are listed,
 filtered, copied by parallel cloners and then deleted by parallel deleters,
 any of which may fail at any point.
 */
module GarbagePipeline {
  import opened Scores
  import opened BlobStores

  const GARBAGE_PREFIX := "garbage/"

  function GarbageName(s: Score): string {
    GARBAGE_PREFIX + Hex(s)
  }

  /** A cloner: waiting for a score, about to copy its object, or about to pass on the name. */
  datatype Cloner = AwaitingScore | Copying(score: Score) | Sending(score: Score) | ClonerGone

  datatype Deleter = AwaitingName | Deleting(score: Score) | DeleterGone

  /**
   The bucket, the channels between the stages, and the workers. The channel to
   the deleters carries the names of the blobs with the scores in it. While the
   listing is `open`, `unlisted` are the scores that it is yet to give; `seen` are
   those that it has given; `failed` tells that something has gone wrong.
   */
  datatype Pipeline = Pipeline(
    bucket: Bucket,
    open: bool,
    unlisted: seq<Score>,
    listed: seq<Score>,
    garbage: seq<Score>,
    toDelete: seq<Score>,
    cloners: seq<Cloner>,
    deleters: seq<Deleter>,
    seen: set<Score>,
    failed: bool)

  /** How a request ends. Lost: it takes effect and is reported as failed. */
  datatype Result = Succeeded | Refused | Lost

  /**
   EndList: the listing ends, or breaks off. The Abandon steps: the context being
   done, what is in a channel is not passed on.
   */
  datatype Step =
    | List
    | EndList(ok: bool)
    | Filter
    | AbandonListed
    | Abandon
    | AbandonName
    | TakeScore(w: nat)
    | Copy(w: nat, result: Result)
    | Send(w: nat, done: bool)
    | TakeName(w: nat)
    | Delete(w: nat, result: Result)

  predicate Possible(p: Pipeline, step: Step) {
    match step
    case List => p.open && p.unlisted != []
    case EndList(ok) => p.open && (ok ==> p.unlisted == [])
    case Filter => p.listed != []
    case AbandonListed => p.listed != []
    case Abandon => p.garbage != []
    case AbandonName => p.toDelete != []
    case TakeScore(w) => w < |p.cloners| && p.cloners[w] == AwaitingScore && p.garbage != []
    case Copy(w, result) =>
      w < |p.cloners| && p.cloners[w].Copying? && (result != Refused ==> BlobName(p.cloners[w].score) in p.bucket)
    case Send(w, _) => w < |p.cloners| && p.cloners[w].Sending?
    case TakeName(w) => w < |p.deleters| && p.deleters[w] == AwaitingName && p.toDelete != []
    case Delete(w, _) => w < |p.deleters| && p.deleters[w].Deleting?
  }

  function SetCloner(p: Pipeline, w: nat, c: Cloner): Pipeline
    requires w < |p.cloners|
  {
    p.(cloners := p.cloners[w := c])
  }

  function SetDeleter(p: Pipeline, w: nat, d: Deleter): Pipeline
    requires w < |p.deleters|
  {
    p.(deleters := p.deleters[w := d])
  }

  /** A cloner that finds the context done while sending does not stop: it takes the next score. */
  function Apply(accessible: set<Score>, p: Pipeline, step: Step): Pipeline
    requires Possible(p, step)
  {
    match step
    case List =>
      p.(unlisted := p.unlisted[1..], listed := p.listed + [p.unlisted[0]], seen := p.seen + {p.unlisted[0]})
    case EndList(ok) => p.(open := false, unlisted := [], failed := p.failed || !ok)
    case AbandonListed => p.(listed := p.listed[1..], failed := true)
    case Filter =>
      p.(listed := p.listed[1..],
         garbage := if p.listed[0] in accessible then p.garbage else p.garbage + [p.listed[0]])
    case Abandon => p.(garbage := p.garbage[1..], failed := true)
    case AbandonName => p.(toDelete := p.toDelete[1..], failed := true)
    case TakeScore(w) => SetCloner(p, w, Copying(p.garbage[0])).(garbage := p.garbage[1..])
    case Copy(w, result) =>
      var s := p.cloners[w].score;
      var bucket := if result == Refused then p.bucket else p.bucket[GarbageName(s) := p.bucket[BlobName(s)]];
      if result == Succeeded then SetCloner(p, w, Sending(s)).(bucket := bucket)
      else SetCloner(p, w, ClonerGone).(bucket := bucket, failed := true)
    case Send(w, done) =>
      if done then SetCloner(p, w, AwaitingScore).(failed := true)
      else SetCloner(p, w, AwaitingScore).(toDelete := p.toDelete + [p.cloners[w].score])
    case TakeName(w) => SetDeleter(p, w, Deleting(p.toDelete[0])).(toDelete := p.toDelete[1..])
    case Delete(w, result) =>
      var bucket := if result == Refused then p.bucket else p.bucket - {BlobName(p.deleters[w].score)};
      if result == Succeeded then SetDeleter(p, w, AwaitingName).(bucket := bucket)
      else SetDeleter(p, w, DeleterGone).(bucket := bucket, failed := true)
  }

  function Start(bucket: Bucket, listing: seq<Score>, cloners: nat, deleters: nat): Pipeline {
    Pipeline(bucket, true, listing, [], [], [],
             seq(cloners, _ => AwaitingScore), seq(deleters, _ => AwaitingName), {}, false)
  }

  ghost predicate StepAt(accessible: set<Score>, ps: seq<Pipeline>, steps: seq<Step>, i: int) {
    && 0 <= i < |steps| && i + 1 < |ps|
    && Possible(ps[i], steps[i]) && ps[i + 1] == Apply(accessible, ps[i], steps[i])
  }

  ghost predicate IsRun(accessible: set<Score>, bucket: Bucket, listing: seq<Score>, cloners: nat, deleters: nat,
                        ps: seq<Pipeline>, steps: seq<Step>)
  {
    && |ps| == |steps| + 1
    && ps[0] == Start(bucket, listing, cloners, deleters)
    && forall i {:trigger StepAt(accessible, ps, steps, i)} :: 0 <= i < |steps| ==> StepAt(accessible, ps, steps, i)
  }

  // ---- Nothing is lost ----

  lemma GarbageNamesAreDistinct(s: Score, s': Score)
    ensures GarbageName(s) == GarbageName(s') ==> s == s'
    ensures GarbageName(s) != BlobName(s')
  {
    if GarbageName(s) == GarbageName(s') {
      assert GarbageName(s)[|GARBAGE_PREFIX|..] == Hex(s);
      assert GarbageName(s')[|GARBAGE_PREFIX|..] == Hex(s');
      DecodeHex(s);
      DecodeHex(s');
    }
    assert GarbageName(s)[0] == 'g' && BlobName(s')[0] == 'b';
  }

  /** The blob that was there at the start has been copied to the garbage. */
  predicate Copied(start: Bucket, bucket: Bucket, s: Score) {
    && BlobName(s) in start && GarbageName(s) in bucket
    && bucket[GarbageName(s)] == start[BlobName(s)]
  }

  /** A blob is where it was, or in the garbage; if it is where it was, it is what it was. */
  predicate BlobOk(start: Bucket, bucket: Bucket, s: Score) {
    && (BlobName(s) in bucket ==> BlobName(s) in start && bucket[BlobName(s)] == start[BlobName(s)])
    && (BlobName(s) in start && BlobName(s) !in bucket ==> Copied(start, bucket, s))
  }

  ghost predicate BlobsOk(start: Bucket, bucket: Bucket) {
    forall s {:trigger BlobOk(start, bucket, s)} :: BlobOk(start, bucket, s)
  }

  /** s is somewhere between being copied and being deleted. */
  predicate Leaving(p: Pipeline, s: Score) {
    Sending(s) in p.cloners || s in p.toDelete || Deleting(s) in p.deleters
  }

  /** s has passed the filter and has not been copied. */
  predicate Entering(p: Pipeline, s: Score) {
    s in p.garbage || Copying(s) in p.cloners
  }

  ghost predicate LeavingOk(accessible: set<Score>, start: Bucket, p: Pipeline) {
    && (forall s {:trigger Leaving(p, s)} :: Leaving(p, s) ==> s !in accessible && Copied(start, p.bucket, s))
    && (forall s {:trigger Entering(p, s)} :: Entering(p, s) ==> s !in accessible)
  }

  ghost predicate AccessibleStay(accessible: set<Score>, start: Bucket, bucket: Bucket) {
    forall s :: s in accessible && BlobName(s) in start ==> BlobName(s) in bucket
  }

  ghost predicate Inv(accessible: set<Score>, start: Bucket, p: Pipeline) {
    && BlobsOk(start, p.bucket)
    && LeavingOk(accessible, start, p)
    && AccessibleStay(accessible, start, p.bucket)
  }

  /** Copying again, or for another score, keeps what has been copied. */
  lemma CopyKeepsBlobs(start: Bucket, bucket: Bucket, s: Score)
    requires BlobsOk(start, bucket) && BlobName(s) in bucket
    ensures var bucket' := bucket[GarbageName(s) := bucket[BlobName(s)]];
      && BlobsOk(start, bucket') && Copied(start, bucket', s)
      && (forall s': Score :: Copied(start, bucket, s') ==> Copied(start, bucket', s'))
      && (forall s': Score :: BlobName(s') in bucket ==> BlobName(s') in bucket')
  {
    var bucket' := bucket[GarbageName(s) := bucket[BlobName(s)]];
    assert BlobOk(start, bucket, s);
    forall s': Score
      ensures BlobOk(start, bucket', s') && (Copied(start, bucket, s') ==> Copied(start, bucket', s'))
    {
      assert BlobOk(start, bucket, s');
      GarbageNamesAreDistinct(s, s');
      if s' != s {
        GarbageNamesAreDistinct(s', s);
      }
    }
  }

  lemma DeleteKeepsBlobs(start: Bucket, bucket: Bucket, s: Score)
    requires BlobsOk(start, bucket) && Copied(start, bucket, s)
    ensures var bucket' := bucket - {BlobName(s)};
      && BlobsOk(start, bucket')
      && (forall s': Score :: Copied(start, bucket, s') ==> Copied(start, bucket', s'))
      && (forall s': Score :: s' != s && BlobName(s') in bucket ==> BlobName(s') in bucket')
  {
    var bucket' := bucket - {BlobName(s)};
    forall s': Score
      ensures BlobOk(start, bucket', s') && (Copied(start, bucket, s') ==> Copied(start, bucket', s'))
      ensures s' != s && BlobName(s') in bucket ==> BlobName(s') in bucket'
    {
      assert BlobOk(start, bucket, s');
      GarbageNamesAreDistinct(s', s);
      if BlobName(s') == BlobName(s) {
        NamesAreDistinct(s, s');
      }
    }
  }

  /** Which scores a step brings into each of the two groups. */
  lemma WhoEnters(accessible: set<Score>, p: Pipeline, step: Step, s: Score)
    requires Possible(p, step)
    ensures Entering(Apply(accessible, p, step), s) ==> Entering(p, s) || (step == Filter && s !in accessible)
    ensures Leaving(Apply(accessible, p, step), s) ==>
      Leaving(p, s) || (step.Copy? && step.result == Succeeded && p.cloners[step.w] == Copying(s))
  {
    match step
    case List =>
    case EndList(_) =>
    case Filter =>
    case AbandonListed =>
    case Abandon =>
    case AbandonName =>
    case TakeScore(w) => MembersAfter(p.cloners, w, Copying(p.garbage[0]));
    case Copy(w, result) =>
      MembersAfter(p.cloners, w, if result == Succeeded then Sending(p.cloners[w].score) else ClonerGone);
    case Send(w, _) => MembersAfter(p.cloners, w, AwaitingScore);
    case TakeName(w) => MembersAfter(p.deleters, w, Deleting(p.toDelete[0]));
    case Delete(w, result) => MembersAfter(p.deleters, w, if result == Succeeded then AwaitingName else DeleterGone);
  }

  lemma MembersAfter<T>(workers: seq<T>, w: nat, x: T)
    requires w < |workers|
    ensures workers[w] in workers
    ensures forall y :: y in workers[w := x] ==> y == x || y in workers
  {
  }

  lemma StepKeepsBucket(accessible: set<Score>, start: Bucket, p: Pipeline, step: Step)
    requires Inv(accessible, start, p) && Possible(p, step)
    ensures var p' := Apply(accessible, p, step);
      && BlobsOk(start, p'.bucket) && AccessibleStay(accessible, start, p'.bucket)
      && (forall s: Score :: Copied(start, p.bucket, s) ==> Copied(start, p'.bucket, s))
      && (step.Copy? && step.result != Refused ==> Copied(start, p'.bucket, p.cloners[step.w].score))
  {
    if step.Copy? && step.result != Refused {
      CopyKeepsBlobs(start, p.bucket, p.cloners[step.w].score);
    } else if step.Delete? && step.result != Refused {
      var s := p.deleters[step.w].score;
      assert Leaving(p, s);
      DeleteKeepsBlobs(start, p.bucket, s);
    }
  }

  lemma StepKeepsInv(accessible: set<Score>, start: Bucket, p: Pipeline, step: Step)
    requires Inv(accessible, start, p) && Possible(p, step)
    ensures Inv(accessible, start, Apply(accessible, p, step))
  {
    var p' := Apply(accessible, p, step);
    StepKeepsBucket(accessible, start, p, step);
    forall s
      ensures Leaving(p', s) ==> s !in accessible && Copied(start, p'.bucket, s)
      ensures Entering(p', s) ==> s !in accessible
    {
      WhoEnters(accessible, p, step, s);
      if step.Copy? && p.cloners[step.w] == Copying(s) {
        assert Entering(p, s);
      }
    }
  }

  lemma {:induction false} RunKeepsInv(accessible: set<Score>, bucket: Bucket, listing: seq<Score>, cloners: nat, deleters: nat,
                                       ps: seq<Pipeline>, steps: seq<Step>, i: nat)
    requires IsRun(accessible, bucket, listing, cloners, deleters, ps, steps) && i < |ps|
    ensures Inv(accessible, bucket, ps[i])
  {
    if i > 0 {
      RunKeepsInv(accessible, bucket, listing, cloners, deleters, ps, steps, i - 1);
      assert StepAt(accessible, ps, steps, i - 1);
      StepKeepsInv(accessible, bucket, ps[i - 1], steps[i - 1]);
    }
  }

  /** The blob is under its own name or in the garbage, with its content; if accessible, under its own name. */
  predicate NotLost(accessible: set<Score>, bucket: Bucket, now: Bucket, s: Score)
    requires BlobName(s) in bucket
  {
    if BlobName(s) in now then now[BlobName(s)] == bucket[BlobName(s)]
    else s !in accessible && Copied(bucket, now, s)
  }

  /**
   However cloners and deleters interleave, and whatever fails, every blob that
   was in the bucket is at all times under its own name or in the garbage, with
   its content; and if its score is accessible it is under its own name.
   */
  lemma NothingIsLost(accessible: set<Score>, bucket: Bucket, listing: seq<Score>, cloners: nat, deleters: nat,
                      ps: seq<Pipeline>, steps: seq<Step>, i: nat, s: Score)
    requires IsRun(accessible, bucket, listing, cloners, deleters, ps, steps) && i < |ps|
    requires BlobName(s) in bucket
    ensures NotLost(accessible, bucket, ps[i].bucket, s)
  {
    RunKeepsInv(accessible, bucket, listing, cloners, deleters, ps, steps, i);
    assert BlobOk(bucket, ps[i].bucket, s);
  }

  // ---- All garbage is moved ----

  predicate Accounted(accessible: set<Score>, p: Pipeline, s: Score) {
    || s in accessible || s in p.listed || Entering(p, s) || Leaving(p, s)
    || BlobName(s) !in p.bucket || p.failed
  }

  ghost predicate SeenAccounted(accessible: set<Score>, p: Pipeline) {
    forall s {:trigger Accounted(accessible, p, s)} :: s in p.seen ==> Accounted(accessible, p, s)
  }

  lemma ClonerMoves(p: Pipeline, w: nat, c: Cloner, s: Score)
    requires w < |p.cloners|
    ensures var p' := SetCloner(p, w, c);
      && c in p'.cloners
      && (Copying(s) in p.cloners && p.cloners[w] != Copying(s) ==> Copying(s) in p'.cloners)
      && (Sending(s) in p.cloners && p.cloners[w] != Sending(s) ==> Sending(s) in p'.cloners)
  {
    var p' := SetCloner(p, w, c);
    assert p'.cloners[w] == c;
    if Copying(s) in p.cloners && p.cloners[w] != Copying(s) {
      var i :| 0 <= i < |p.cloners| && p.cloners[i] == Copying(s);
      assert p'.cloners[i] == Copying(s);
    }
    if Sending(s) in p.cloners && p.cloners[w] != Sending(s) {
      var i :| 0 <= i < |p.cloners| && p.cloners[i] == Sending(s);
      assert p'.cloners[i] == Sending(s);
    }
  }

  lemma DeleterMoves(p: Pipeline, w: nat, d: Deleter, s: Score)
    requires w < |p.deleters|
    ensures var p' := SetDeleter(p, w, d);
      && d in p'.deleters
      && (Deleting(s) in p.deleters && p.deleters[w] != Deleting(s) ==> Deleting(s) in p'.deleters)
  {
    var p' := SetDeleter(p, w, d);
    assert p'.deleters[w] == d;
    if Deleting(s) in p.deleters && p.deleters[w] != Deleting(s) {
      var i :| 0 <= i < |p.deleters| && p.deleters[i] == Deleting(s);
      assert p'.deleters[i] == Deleting(s);
    }
  }

  lemma HeadOrTail(q: seq<Score>, s: Score)
    requires s in q
    ensures s == q[0] || s in q[1..]
  {
  }

  lemma StepAccounts(accessible: set<Score>, p: Pipeline, step: Step, s: Score)
    requires Possible(p, step) && Accounted(accessible, p, s)
    requires BlobName(s) !in p.bucket ==> BlobName(s) !in Apply(accessible, p, step).bucket
    ensures Accounted(accessible, Apply(accessible, p, step), s)
  {
    match step
    case List =>
    case EndList(_) =>
    case AbandonListed =>
    case Filter =>
      if s in p.listed {
        HeadOrTail(p.listed, s);
      }
    case Abandon =>
    case AbandonName =>
    case TakeScore(w) =>
      if s in p.garbage {
        HeadOrTail(p.garbage, s);
      }
      ClonerMoves(p, w, Copying(p.garbage[0]), s);
    case Copy(w, result) =>
      if result == Succeeded {
        ClonerMoves(p, w, Sending(p.cloners[w].score), s);
      }
    case Send(w, done) =>
      ClonerMoves(p, w, AwaitingScore, s);
    case TakeName(w) =>
      if s in p.toDelete {
        HeadOrTail(p.toDelete, s);
      }
      DeleterMoves(p, w, Deleting(p.toDelete[0]), s);
    case Delete(w, result) =>
      if result == Succeeded {
        DeleterMoves(p, w, AwaitingName, s);
      }
  }

  lemma StepKeepsAccounts(accessible: set<Score>, start: Bucket, p: Pipeline, step: Step)
    requires Possible(p, step) && SeenAccounted(accessible, p) && Inv(accessible, start, p)
    ensures SeenAccounted(accessible, Apply(accessible, p, step))
  {
    var p' := Apply(accessible, p, step);
    forall s | s in p'.seen
      ensures Accounted(accessible, p', s)
    {
      if step == List && s == p.unlisted[0] {
        assert p'.listed[|p.listed|] == s;
      } else {
        if step.Copy? && step.result != Refused {
          GarbageNamesAreDistinct(p.cloners[step.w].score, s);
        }
        StepAccounts(accessible, p, step, s);
      }
    }
  }

  lemma {:induction false} RunKeepsAccounts(accessible: set<Score>, bucket: Bucket, listing: seq<Score>, cloners: nat, deleters: nat,
                                            ps: seq<Pipeline>, steps: seq<Step>, i: nat)
    requires IsRun(accessible, bucket, listing, cloners, deleters, ps, steps) && i < |ps|
    ensures SeenAccounted(accessible, ps[i])
  {
    if i > 0 {
      RunKeepsAccounts(accessible, bucket, listing, cloners, deleters, ps, steps, i - 1);
      RunKeepsInv(accessible, bucket, listing, cloners, deleters, ps, steps, i - 1);
      assert StepAt(accessible, ps, steps, i - 1);
      StepKeepsAccounts(accessible, bucket, ps[i - 1], steps[i - 1]);
    }
  }

  /** Every score of the listing has been given, or is yet to be, unless something has failed. */
  ghost predicate ListingAccounted(listing: seq<Score>, p: Pipeline) {
    && (forall s :: s in listing ==> s in p.seen || s in p.unlisted || p.failed)
    && (!p.open ==> p.unlisted == [])
  }

  lemma {:induction false} RunKeepsListing(accessible: set<Score>, bucket: Bucket, listing: seq<Score>,
                                           cloners: nat, deleters: nat, ps: seq<Pipeline>, steps: seq<Step>, i: nat)
    requires IsRun(accessible, bucket, listing, cloners, deleters, ps, steps) && i < |ps|
    ensures ListingAccounted(listing, ps[i])
  {
    if i > 0 {
      RunKeepsListing(accessible, bucket, listing, cloners, deleters, ps, steps, i - 1);
      assert StepAt(accessible, ps, steps, i - 1);
    }
  }

  /** The listing has ended, all channels are empty and no worker is in the middle of anything. */
  predicate Drained(p: Pipeline) {
    && !p.open && p.listed == [] && p.garbage == [] && p.toDelete == []
    && (forall w :: 0 <= w < |p.cloners| ==> p.cloners[w] == AwaitingScore)
    && (forall w :: 0 <= w < |p.deleters| ==> p.deleters[w] == AwaitingName)
  }

  /** When a collection ends without failure, of what was listed exactly the accessible is left. */
  lemma ExactlyGarbageIsMoved(accessible: set<Score>, bucket: Bucket, listing: seq<Score>, cloners: nat, deleters: nat,
                              ps: seq<Pipeline>, steps: seq<Step>, i: nat, s: Score)
    requires IsRun(accessible, bucket, listing, cloners, deleters, ps, steps) && i < |ps|
    requires Drained(ps[i]) && !ps[i].failed && s in listing && BlobName(s) in bucket
    ensures BlobName(s) in ps[i].bucket <==> s in accessible
    ensures s !in accessible ==> Copied(bucket, ps[i].bucket, s)
  {
    RunKeepsListing(accessible, bucket, listing, cloners, deleters, ps, steps, i);
    RunKeepsAccounts(accessible, bucket, listing, cloners, deleters, ps, steps, i);
    RunKeepsInv(accessible, bucket, listing, cloners, deleters, ps, steps, i);
    assert Accounted(accessible, ps[i], s) && !Entering(ps[i], s) && !Leaving(ps[i], s);
    assert BlobOk(bucket, ps[i].bucket, s);
  }

  // ---- Every collection ends ----

  function ClonerWork(c: Cloner): nat {
    if c.Copying? then 4 else if c.Sending? then 3 else 0
  }

  function DeleterWork(d: Deleter): nat {
    if d.Deleting? then 1 else 0
  }

  function Total<T>(workers: seq<T>, work: T -> nat): nat {
    if workers == [] then 0
    else
      var last := |workers| - 1;
      Total(workers[..last], work) + work(workers[last])
  }

  lemma {:induction false} TotalUpdate<T>(workers: seq<T>, w: nat, x: T, work: T -> nat)
    requires w < |workers|
    ensures Total(workers[w := x], work) == Total(workers, work) - work(workers[w]) + work(x)
  {
    var last := |workers| - 1;
    if w == last {
      assert workers[w := x][..last] == workers[..last];
    } else {
      assert workers[w := x][..last] == workers[..last][w := x];
      TotalUpdate(workers[..last], w, x, work);
    }
  }

  /** How many steps the scores on their way can still take. */
  function WorkLeft(p: Pipeline): int {
    (if p.open then 1 + 7 * |p.unlisted| else 0) + 6 * |p.listed| + 5 * |p.garbage| + 2 * |p.toDelete|
    + Total(p.cloners, ClonerWork) + Total(p.deleters, DeleterWork)
  }

  lemma ClonerDoesWork(accessible: set<Score>, p: Pipeline, step: Step)
    requires Possible(p, step) && (step.TakeScore? || step.Copy? || step.Send?)
    ensures 0 <= WorkLeft(Apply(accessible, p, step)) < WorkLeft(p)
  {
    match step
    case TakeScore(w) => TotalUpdate(p.cloners, w, Copying(p.garbage[0]), ClonerWork);
    case Copy(w, result) =>
      TotalUpdate(p.cloners, w, if result == Succeeded then Sending(p.cloners[w].score) else ClonerGone, ClonerWork);
    case Send(w, done) => TotalUpdate(p.cloners, w, AwaitingScore, ClonerWork);
  }

  lemma DeleterDoesWork(accessible: set<Score>, p: Pipeline, step: Step)
    requires Possible(p, step) && (step.TakeName? || step.Delete?)
    ensures 0 <= WorkLeft(Apply(accessible, p, step)) < WorkLeft(p)
  {
    match step
    case TakeName(w) => TotalUpdate(p.deleters, w, Deleting(p.toDelete[0]), DeleterWork);
    case Delete(w, result) =>
      TotalUpdate(p.deleters, w, if result == Succeeded then AwaitingName else DeleterGone, DeleterWork);
  }

  lemma StepDoesWork(accessible: set<Score>, p: Pipeline, step: Step)
    requires Possible(p, step)
    ensures 0 <= WorkLeft(Apply(accessible, p, step)) < WorkLeft(p)
  {
    if step.TakeScore? || step.Copy? || step.Send? {
      ClonerDoesWork(accessible, p, step);
    } else if step.TakeName? || step.Delete? {
      DeleterDoesWork(accessible, p, step);
    }
  }

  /** Nothing is under way: the listing has ended and every worker is waiting or gone. */
  predicate AtRest(p: Pipeline) {
    && !p.open && p.listed == [] && p.garbage == [] && p.toDelete == []
    && (forall w :: 0 <= w < |p.cloners| ==> p.cloners[w] in {AwaitingScore, ClonerGone})
    && (forall w :: 0 <= w < |p.deleters| ==> p.deleters[w] in {AwaitingName, DeleterGone})
  }

  /** Nothing has failed, there are workers of both kinds, and what is to be copied is there. */
  predicate Healthy(p: Pipeline) {
    && !p.failed && p.cloners != [] && p.deleters != []
    && ClonerGone !in p.cloners && DeleterGone !in p.deleters
    && forall w :: 0 <= w < |p.cloners| && p.cloners[w].Copying? ==> BlobName(p.cloners[w].score) in p.bucket
  }

  /** Until then some step is possible, and one that is no failure if nothing is wrong yet: a collection never gets stuck. */
  lemma SomethingIsPossible(accessible: set<Score>, p: Pipeline) returns (step: Step)
    requires !AtRest(p)
    ensures Possible(p, step)
    ensures Healthy(p) ==> !Apply(accessible, p, step).failed
  {
    if p.open {
      step := if p.unlisted != [] then List else EndList(true);
    } else if p.listed != [] {
      step := Filter;
    } else if w :| 0 <= w < |p.cloners| && p.cloners[w].Copying? {
      step := Copy(w, if BlobName(p.cloners[w].score) in p.bucket then Succeeded else Refused);
    } else if w :| 0 <= w < |p.cloners| && p.cloners[w].Sending? {
      step := Send(w, false);
    } else if w :| 0 <= w < |p.deleters| && p.deleters[w].Deleting? {
      step := Delete(w, Succeeded);
    } else if p.garbage != [] {
      step := Abandon;
      if w :| 0 <= w < |p.cloners| && p.cloners[w] == AwaitingScore {
        step := TakeScore(w);
      }
    } else {
      step := AbandonName;
      if w :| 0 <= w < |p.deleters| && p.deleters[w] == AwaitingName {
        step := TakeName(w);
      }
    }
    if Healthy(p) {
      assert p.cloners[0] in p.cloners && p.deleters[0] in p.deleters;
    }
  }

  /** A worker is gone only when something has failed. */
  predicate GoneOnlyIfFailed(p: Pipeline) {
    !p.failed ==> ClonerGone !in p.cloners && DeleterGone !in p.deleters
  }

  lemma StepKeepsGone(accessible: set<Score>, p: Pipeline, step: Step)
    requires Possible(p, step) && GoneOnlyIfFailed(p)
    ensures GoneOnlyIfFailed(Apply(accessible, p, step))
  {
  }

  /** What goes wrong in the course of a collection. */
  predicate IsFailure(step: Step) {
    match step
    case EndList(ok) => !ok
    case AbandonListed => true
    case Abandon => true
    case AbandonName => true
    case Copy(_, result) => result != Succeeded
    case Send(_, done) => done
    case Delete(_, result) => result != Succeeded
    case _ => false
  }

  /** A collection has failed if and only if something has gone wrong in it. */
  lemma {:induction false} FailedIff(accessible: set<Score>, bucket: Bucket, listing: seq<Score>, cloners: nat, deleters: nat,
                                     ps: seq<Pipeline>, steps: seq<Step>, i: nat)
    requires IsRun(accessible, bucket, listing, cloners, deleters, ps, steps) && i < |ps|
    ensures ps[i].failed <==> exists k :: 0 <= k < i && IsFailure(steps[k])
  {
    if i > 0 {
      FailedIff(accessible, bucket, listing, cloners, deleters, ps, steps, i - 1);
      assert StepAt(accessible, ps, steps, i - 1);
    }
  }

  /** A request that is not refused takes effect, whatever is reported of it, and changes nothing else. */
  lemma RequestsTakeEffect(accessible: set<Score>, p: Pipeline, step: Step)
    requires Possible(p, step)
    ensures var bucket := Apply(accessible, p, step).bucket;
      && (step.Copy? && step.result != Refused ==>
            var s := p.cloners[step.w].score; bucket == p.bucket[GarbageName(s) := p.bucket[BlobName(s)]])
      && (step.Delete? && step.result != Refused ==> bucket == p.bucket - {BlobName(p.deleters[step.w].score)})
      && (!(step.Copy? || step.Delete?) || step.result == Refused ==> bucket == p.bucket)
  {
  }

  /** p is the last state of some run. */
  ghost predicate Reached(accessible: set<Score>, bucket: Bucket, listing: seq<Score>, cloners: nat, deleters: nat, p: Pipeline) {
    exists ps: seq<Pipeline>, steps: seq<Step> ::
      IsRun(accessible, bucket, listing, cloners, deleters, ps, steps) && ps[|steps|] == p
  }

  lemma ReachedFirst(accessible: set<Score>, bucket: Bucket, listing: seq<Score>, cloners: nat, deleters: nat)
    ensures Reached(accessible, bucket, listing, cloners, deleters, Start(bucket, listing, cloners, deleters))
  {
    var ps, steps: seq<Step> := [Start(bucket, listing, cloners, deleters)], [];
    assert IsRun(accessible, bucket, listing, cloners, deleters, ps, steps);
  }

  lemma ReachedNext(accessible: set<Score>, bucket: Bucket, listing: seq<Score>, cloners: nat, deleters: nat,
                    p: Pipeline, step: Step)
    requires Reached(accessible, bucket, listing, cloners, deleters, p) && Possible(p, step)
    ensures Reached(accessible, bucket, listing, cloners, deleters, Apply(accessible, p, step))
  {
    var ps, steps :| IsRun(accessible, bucket, listing, cloners, deleters, ps, steps) && ps[|steps|] == p;
    var ps', steps' := ps + [Apply(accessible, p, step)], steps + [step];
    forall i | 0 <= i < |steps'|
      ensures StepAt(accessible, ps', steps', i)
    {
      if i < |steps| {
        assert StepAt(accessible, ps, steps, i);
      }
    }
    assert IsRun(accessible, bucket, listing, cloners, deleters, ps', steps');
  }

  lemma ReachedGone(accessible: set<Score>, bucket: Bucket, listing: seq<Score>, cloners: nat, deleters: nat, p: Pipeline)
    requires Reached(accessible, bucket, listing, cloners, deleters, p)
    ensures GoneOnlyIfFailed(p)
  {
    var ps, steps :| IsRun(accessible, bucket, listing, cloners, deleters, ps, steps) && ps[|steps|] == p;
    for i := 0 to |steps|
      invariant GoneOnlyIfFailed(ps[i])
    {
      assert StepAt(accessible, ps, steps, i);
      StepKeepsGone(accessible, ps[i], steps[i]);
    }
  }

  /** Exactly the garbage of the listing has been moved. */
  ghost predicate GarbageMoved(accessible: set<Score>, bucket: Bucket, listing: seq<Score>, now: Bucket) {
    forall s {:trigger s in listing} :: s in listing && BlobName(s) in bucket ==>
      && (BlobName(s) in now <==> s in accessible)
      && (s !in accessible ==> Copied(bucket, now, s))
  }

  ghost predicate NothingLost(accessible: set<Score>, bucket: Bucket, now: Bucket) {
    forall s {:trigger NotLost(accessible, bucket, now, s)} :: BlobName(s) in bucket ==> NotLost(accessible, bucket, now, s)
  }

  lemma ReachedOutcome(accessible: set<Score>, bucket: Bucket, listing: seq<Score>, cloners: nat, deleters: nat, p: Pipeline)
    requires Reached(accessible, bucket, listing, cloners, deleters, p) && AtRest(p)
    ensures Drained(p) || p.failed
    ensures !p.failed ==> GarbageMoved(accessible, bucket, listing, p.bucket)
    ensures NothingLost(accessible, bucket, p.bucket)
  {
    var ps, steps :| IsRun(accessible, bucket, listing, cloners, deleters, ps, steps) && ps[|steps|] == p;
    ReachedGone(accessible, bucket, listing, cloners, deleters, p);
    if !p.failed {
      forall s | s in listing && BlobName(s) in bucket
        ensures BlobName(s) in p.bucket <==> s in accessible
        ensures s !in accessible ==> Copied(bucket, p.bucket, s)
      {
        ExactlyGarbageIsMoved(accessible, bucket, listing, cloners, deleters, ps, steps, |steps|, s);
      }
    }
    forall s: Score | BlobName(s) in bucket
      ensures NotLost(accessible, bucket, p.bucket, s)
    {
      NothingIsLost(accessible, bucket, listing, cloners, deleters, ps, steps, |steps|, s);
    }
  }

  // ---- The goroutines ----

  /** What the goroutines share; each method is one section of one of them. */
  class Collector {
    const accessible: set<Score>
    var bucket: Bucket
    var open: bool
    var unlisted: seq<Score>
    var listed: seq<Score>
    var garbage: seq<Score>
    var toDelete: seq<Score>
    var cloners: seq<Cloner>
    var deleters: seq<Deleter>
    var seen: set<Score>
    var failed: bool

    function Abs(): Pipeline
      reads this
    {
      Pipeline(bucket, open, unlisted, listed, garbage, toDelete, cloners, deleters, seen, failed)
    }

    constructor (accessible: set<Score>, bucket: Bucket, listing: seq<Score>, cloners: nat, deleters: nat)
      ensures this.accessible == accessible && Abs() == Start(bucket, listing, cloners, deleters)
    {
      this.accessible, this.bucket := accessible, bucket;
      open, unlisted, listed, garbage, toDelete := true, listing, [], [], [];
      this.cloners := seq(cloners, _ => AwaitingScore);
      this.deleters := seq(deleters, _ => AwaitingName);
      seen, failed := {}, false;
    }

    method ListOne()
      requires open && unlisted != []
      modifies this
      ensures Abs() == Apply(accessible, old(Abs()), List)
    {
      listed := listed + [unlisted[0]];
      seen := seen + {unlisted[0]};
      unlisted := unlisted[1..];
    }

    method FilterOne()
      requires listed != []
      modifies this
      ensures Abs() == Apply(accessible, old(Abs()), Filter)
    {
      var score := listed[0];
      listed := listed[1..];
      if score !in accessible {
        garbage := garbage + [score];
      }
    }

    method CopyObject(w: nat, result: Result)
      requires Possible(Abs(), Copy(w, result))
      modifies this
      ensures Abs() == Apply(accessible, old(Abs()), Copy(w, result))
    {
      var score := cloners[w].score;
      if result != Refused {
        bucket := bucket[GarbageName(score) := bucket[BlobName(score)]];
      }
      if result != Succeeded {
        cloners, failed := cloners[w := ClonerGone], true;
        return;
      }
      cloners := cloners[w := Sending(score)];
    }

    method SendName(w: nat, done: bool)
      requires Possible(Abs(), Send(w, done))
      modifies this
      ensures Abs() == Apply(accessible, old(Abs()), Send(w, done))
    {
      if done {
        failed := true;
      } else {
        toDelete := toDelete + [cloners[w].score];
      }
      cloners := cloners[w := AwaitingScore];
    }

    method DeleteObject(w: nat, result: Result)
      requires Possible(Abs(), Delete(w, result))
      modifies this
      ensures Abs() == Apply(accessible, old(Abs()), Delete(w, result))
    {
      if result != Refused {
        bucket := bucket - {BlobName(deleters[w].score)};
      }
      if result != Succeeded {
        deleters, failed := deleters[w := DeleterGone], true;
        return;
      }
      deleters := deleters[w := AwaitingName];
    }

    method TakeStep(step: Step)
      requires Possible(Abs(), step)
      modifies this
      ensures Abs() == Apply(accessible, old(Abs()), step)
    {
      match step {
        case List => ListOne();
        case EndList(ok) => open, unlisted, failed := false, [], failed || !ok;
        case Filter => FilterOne();
        case AbandonListed => listed, failed := listed[1..], true;
        case Abandon => garbage, failed := garbage[1..], true;
        case AbandonName => toDelete, failed := toDelete[1..], true;
        case TakeScore(w) => cloners, garbage := cloners[w := Copying(garbage[0])], garbage[1..];
        case Copy(w, result) => CopyObject(w, result);
        case Send(w, done) => SendName(w, done);
        case TakeName(w) => deleters, toDelete := deleters[w := Deleting(toDelete[0])], toDelete[1..];
        case Delete(w, result) => DeleteObject(w, result);
      }
    }
  }

  /** All that is asked of a schedule: to pick a step that is possible until all is at rest. */
  ghost predicate Schedules(schedule: Pipeline -> Step) {
    forall p {:trigger schedule(p)} :: !AtRest(p) ==> Possible(p, schedule(p))
  }

  /**
   A whole collection, its goroutines interleaved by an arbitrary schedule that
   also decides what fails. It always ends; nothing is ever lost; and if nothing
   has failed, of the scores listed exactly the accessible are left.
   */
  method Collect(accessible: set<Score>, bucket: Bucket, listing: seq<Score>, cloners: nat, deleters: nat,
                 schedule: Pipeline -> Step)
    returns (left: Bucket, ok: bool)
    requires Schedules(schedule)
    ensures NothingLost(accessible, bucket, left)
    ensures ok ==> GarbageMoved(accessible, bucket, listing, left)
    ensures exists p :: Reached(accessible, bucket, listing, cloners, deleters, p)
                     && p.bucket == left && ok == !p.failed && (Drained(p) || p.failed)
  {
    var c := new Collector(accessible, bucket, listing, cloners, deleters);
    ReachedFirst(accessible, bucket, listing, cloners, deleters);
    while !AtRest(c.Abs())
      invariant c.accessible == accessible
      invariant Reached(accessible, bucket, listing, cloners, deleters, c.Abs())
      decreases WorkLeft(c.Abs())
    {
      var step := schedule(c.Abs());
      ReachedNext(accessible, bucket, listing, cloners, deleters, c.Abs(), step);
      StepDoesWork(accessible, c.Abs(), step);
      c.TakeStep(step);
    }
    ReachedOutcome(accessible, bucket, listing, cloners, deleters, c.Abs());
    return c.bucket, !c.failed;
  }
}
