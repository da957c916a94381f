/**
 The hand-off of memory permits through the blob store stack
 (internal/save/semaphore.go, internal/save/save.go, internal/save/visitor.go):
 any number of workers, each in saveFileChunk or saveDir, share the semaphore
 for reading from disk and the one for encrypting and computing scores.
 */
module Semaphores {

  /** Where a worker is in a call, from the outermost wrapper to the innermost. */
  datatype Stage =
    | Idle
    | AcquiringRead    // in readFromDiskSem.Acquire
    | Reading          // reading the chunk, or marshalling the listing
    | AcquiringEncrypt // in the acquiring store
    | ReleasingRead    // in the releasing store for readFromDiskSem
    | Encrypting       // in the encrypting store
    | Scoring          // in the existing-scores store
    | ReleasingEncrypt // in the releasing store for the second semaphore
    | InGCS            // in the GCS store
    | LeavingAcquirer  // in the deferred function of the acquiring store
    | LeavingSave      // in the deferred function of saveFileChunk or saveDir

  /**
   A worker's frames: the two needToRelease variables, the semaphores that the
   context carries a callback for, and whether it holds data yet to be encrypted.
   */
  datatype Call = Call(
    stage: Stage,
    needToReleaseRead: bool,
    needToReleaseEncrypt: bool,
    markedRead: bool,
    markedEncrypt: bool,
    plaintext: bool)

  const IDLE := Call(Idle, false, false, false, false, false)

  /**
   What can happen next to a call. Proceed is the way on; Stop stands for a
   cancelled acquire, end of file, a read, marshalling, encryption or GCS error,
   and a score that is already known.
   */
  datatype Event = Proceed | Stop

  datatype Pool = Pool(read: int, readCapacity: nat, encrypt: int, encryptCapacity: nat, calls: seq<Call>)

  /** An acquire blocks on a full channel, a release on an empty one. */
  predicate Enabled(p: Pool, w: nat, e: Event) {
    && w < |p.calls|
    && var c := p.calls[w];
       match c.stage
       case Idle => e == Proceed
       case AcquiringRead => e == Proceed ==> p.read < p.readCapacity
       case AcquiringEncrypt => e == Proceed ==> p.encrypt < p.encryptCapacity
       case ReleasingRead => e == Proceed && p.read > 0
       case ReleasingEncrypt => e == Proceed && p.encrypt > 0
       case LeavingAcquirer => e == Proceed && (c.needToReleaseEncrypt ==> p.encrypt > 0)
       case LeavingSave => e == Proceed && (c.needToReleaseRead ==> p.read > 0)
       case _ => true
  }

  /** releaseSem panics when the context carries no callback for the semaphore. */
  predicate Panics(c: Call) {
    || (c.stage == ReleasingRead && !c.markedRead)
    || (c.stage == ReleasingEncrypt && !c.markedEncrypt)
  }

  function NextCall(c: Call, e: Event): Call {
    match c.stage
    case Idle => IDLE.(stage := AcquiringRead)
    case AcquiringRead =>
      if e == Stop then IDLE
      else c.(stage := Reading, needToReleaseRead := true, markedRead := true, plaintext := true)
    case Reading =>
      if e == Stop then c.(stage := LeavingSave, plaintext := false) else c.(stage := AcquiringEncrypt)
    case AcquiringEncrypt =>
      if e == Stop then c.(stage := LeavingSave, plaintext := false)
      else c.(stage := ReleasingRead, needToReleaseEncrypt := true, markedEncrypt := true)
    case ReleasingRead => c.(stage := Encrypting, needToReleaseRead := false)
    case Encrypting =>
      c.(stage := if e == Stop then LeavingAcquirer else Scoring, plaintext := false)
    case Scoring => c.(stage := if e == Stop then LeavingAcquirer else ReleasingEncrypt)
    case ReleasingEncrypt => c.(stage := InGCS, needToReleaseEncrypt := false)
    case InGCS => c.(stage := LeavingAcquirer)
    case LeavingAcquirer => c.(stage := LeavingSave, needToReleaseEncrypt := false)
    case LeavingSave => IDLE
  }

  /** By how much the step changes the number of permits of each semaphore in use. */
  function ReadDelta(c: Call, e: Event): int {
    match c.stage
    case AcquiringRead => if e == Stop then 0 else 1
    case ReleasingRead => -1
    case LeavingSave => if c.needToReleaseRead then -1 else 0
    case _ => 0
  }

  function EncryptDelta(c: Call, e: Event): int {
    match c.stage
    case AcquiringEncrypt => if e == Stop then 0 else 1
    case ReleasingEncrypt => -1
    case LeavingAcquirer => if c.needToReleaseEncrypt then -1 else 0
    case _ => 0
  }

  function Apply(p: Pool, w: nat, e: Event): Pool
    requires Enabled(p, w, e)
  {
    var c := p.calls[w];
    p.(read := p.read + ReadDelta(c, e),
       encrypt := p.encrypt + EncryptDelta(c, e),
       calls := p.calls[w := NextCall(c, e)])
  }

  function Start(workers: nat, readCapacity: nat, encryptCapacity: nat): Pool {
    Pool(0, readCapacity, 0, encryptCapacity, seq(workers, _ => IDLE))
  }

  ghost predicate StepAt(pools: seq<Pool>, steps: seq<(nat, Event)>, i: int) {
    && 0 <= i < |steps| && i + 1 < |pools|
    && Enabled(pools[i], steps[i].0, steps[i].1)
    && pools[i + 1] == Apply(pools[i], steps[i].0, steps[i].1)
  }

  ghost predicate IsRun(workers: nat, readCapacity: nat, encryptCapacity: nat,
                        pools: seq<Pool>, steps: seq<(nat, Event)>)
  {
    && |pools| == |steps| + 1
    && pools[0] == Start(workers, readCapacity, encryptCapacity)
    && forall i {:trigger StepAt(pools, steps, i)} :: 0 <= i < |steps| ==> StepAt(pools, steps, i)
  }

  // ---- The invariant ----

  function Count(calls: seq<Call>, p: Call -> bool): nat {
    if calls == [] then 0
    else
      var last := |calls| - 1;
      Count(calls[..last], p) + if p(calls[last]) then 1 else 0
  }

  predicate NeedsRead(c: Call) { c.needToReleaseRead }

  predicate NeedsEncrypt(c: Call) { c.needToReleaseEncrypt }

  predicate HoldsPlaintext(c: Call) { c.plaintext }

  /** Which permits a call holds at each stage, and when its data is in memory. */
  predicate CallOk(c: Call) {
    match c.stage
    case Idle => c == IDLE
    case AcquiringRead => c == IDLE.(stage := AcquiringRead)
    case Reading => c == Call(Reading, true, false, true, false, true)
    case AcquiringEncrypt => c == Call(AcquiringEncrypt, true, false, true, false, true)
    case ReleasingRead => c == Call(ReleasingRead, true, true, true, true, true)
    case Encrypting => c == Call(Encrypting, false, true, true, true, true)
    case Scoring => c == Call(Scoring, false, true, true, true, false)
    case ReleasingEncrypt => c == Call(ReleasingEncrypt, false, true, true, true, false)
    case InGCS => c == Call(InGCS, false, false, true, true, false)
    case LeavingAcquirer => !c.needToReleaseRead && !c.plaintext
    case LeavingSave => !c.needToReleaseEncrypt && !c.plaintext
  }

  ghost predicate PoolInv(p: Pool) {
    && p.read == Count(p.calls, NeedsRead) <= p.readCapacity
    && p.encrypt == Count(p.calls, NeedsEncrypt) <= p.encryptCapacity
    && forall w :: 0 <= w < |p.calls| ==> CallOk(p.calls[w])
  }

  lemma {:induction false} CountUpdate(calls: seq<Call>, w: nat, c: Call, p: Call -> bool)
    requires w < |calls|
    ensures Count(calls[w := c], p)
         == Count(calls, p) + (if p(c) then 1 else 0) - if p(calls[w]) then 1 else 0
  {
    var last := |calls| - 1;
    if w == last {
      assert calls[w := c][..last] == calls[..last];
    } else {
      assert calls[w := c][..last] == calls[..last][w := c];
      CountUpdate(calls[..last], w, c, p);
    }
  }

  lemma {:induction false} CountNone(calls: seq<Call>, p: Call -> bool)
    requires forall w :: 0 <= w < |calls| ==> !p(calls[w])
    ensures Count(calls, p) == 0
  {
    if calls != [] {
      CountNone(calls[..|calls| - 1], p);
    }
  }

  lemma {:induction false} FindCounted(calls: seq<Call>, p: Call -> bool) returns (w: nat)
    requires Count(calls, p) > 0
    ensures w < |calls| && p(calls[w])
  {
    var last := |calls| - 1;
    if p(calls[last]) {
      w := last;
    } else {
      w := FindCounted(calls[..last], p);
    }
  }

  lemma StartInv(workers: nat, readCapacity: nat, encryptCapacity: nat)
    ensures PoolInv(Start(workers, readCapacity, encryptCapacity))
  {
    var p := Start(workers, readCapacity, encryptCapacity);
    CountNone(p.calls, NeedsRead);
    CountNone(p.calls, NeedsEncrypt);
  }

  /** Every way a step can go, errors included, keeps permits and holders in balance. */
  lemma StepKeepsBalance(p: Pool, w: nat, e: Event)
    requires PoolInv(p) && Enabled(p, w, e)
    ensures PoolInv(Apply(p, w, e))
  {
    var c := p.calls[w];
    var c' := NextCall(c, e);
    assert CallOk(c) && CallOk(c');
    CountUpdate(p.calls, w, c', NeedsRead);
    CountUpdate(p.calls, w, c', NeedsEncrypt);
  }

  lemma {:induction false} RunKeepsBalance(workers: nat, readCapacity: nat, encryptCapacity: nat,
                                           pools: seq<Pool>, steps: seq<(nat, Event)>, i: nat)
    requires IsRun(workers, readCapacity, encryptCapacity, pools, steps) && i < |pools|
    ensures PoolInv(pools[i]) && |pools[i].calls| == workers
    ensures pools[i].readCapacity == readCapacity && pools[i].encryptCapacity == encryptCapacity
  {
    if i == 0 {
      StartInv(workers, readCapacity, encryptCapacity);
    } else {
      RunKeepsBalance(workers, readCapacity, encryptCapacity, pools, steps, i - 1);
      assert StepAt(pools, steps, i - 1);
      StepKeepsBalance(pools[i - 1], steps[i - 1].0, steps[i - 1].1);
    }
  }

  // ---- What the protocol is for ----

  /** Neither semaphore has a permit in use once no worker is in a call. */
  lemma IdleMeansBalanced(p: Pool)
    requires PoolInv(p) && forall w :: 0 <= w < |p.calls| ==> p.calls[w].stage == Idle
    ensures p.read == 0 && p.encrypt == 0
  {
    CountNone(p.calls, NeedsRead);
    CountNone(p.calls, NeedsEncrypt);
  }

  lemma {:induction false} CountedOne(calls: seq<Call>, p: Call -> bool, w: nat)
    requires w < |calls| && p(calls[w])
    ensures Count(calls, p) > 0
  {
    var last := |calls| - 1;
    if w < last {
      CountedOne(calls[..last], p, w);
    }
  }

  /** No release can block, and releaseSem never panics. */
  lemma ReleasesNeverBlock(p: Pool, w: nat)
    requires PoolInv(p) && w < |p.calls|
    requires p.calls[w].stage !in {AcquiringRead, AcquiringEncrypt}
    ensures Enabled(p, w, Proceed) && !Panics(p.calls[w])
  {
    var c := p.calls[w];
    assert CallOk(c);
    if c.needToReleaseRead {
      CountedOne(p.calls, NeedsRead, w);
    }
    if c.needToReleaseEncrypt {
      CountedOne(p.calls, NeedsEncrypt, w);
    }
  }

  /** No permit of either kind is held across the network. */
  lemma NothingHeldInGCS(p: Pool, w: nat)
    requires PoolInv(p) && w < |p.calls| && p.calls[w].stage == InGCS
    ensures !p.calls[w].needToReleaseRead && !p.calls[w].needToReleaseEncrypt && !p.calls[w].plaintext
  {
    assert CallOk(p.calls[w]);
  }

  lemma {:induction false} PlaintextIsPermitted(calls: seq<Call>)
    requires forall w :: 0 <= w < |calls| ==> CallOk(calls[w])
    ensures Count(calls, HoldsPlaintext) <= Count(calls, NeedsRead) + Count(calls, NeedsEncrypt)
  {
    if calls != [] {
      PlaintextIsPermitted(calls[..|calls| - 1]);
      assert CallOk(calls[|calls| - 1]);
    }
  }

  /** The memory bound the two semaphores are there to enforce. */
  lemma PlaintextIsBounded(p: Pool)
    requires PoolInv(p)
    ensures Count(p.calls, HoldsPlaintext) <= p.readCapacity + p.encryptCapacity
  {
    PlaintextIsPermitted(p.calls);
  }

  /** While some worker is in a call, some such worker can move on without being cancelled. */
  lemma SomeoneProceeds(p: Pool) returns (w: nat)
    requires PoolInv(p) && p.readCapacity > 0 && p.encryptCapacity > 0
    requires exists i :: 0 <= i < |p.calls| && p.calls[i].stage != Idle
    ensures w < |p.calls| && p.calls[w].stage != Idle && Enabled(p, w, Proceed)
  {
    w :| 0 <= w < |p.calls| && p.calls[w].stage != Idle;
    if p.calls[w].stage == AcquiringRead && p.read == p.readCapacity {
      w := FindCounted(p.calls, NeedsRead);
      assert CallOk(p.calls[w]);
    }
    if p.calls[w].stage == AcquiringEncrypt && p.encrypt == p.encryptCapacity {
      w := FindCounted(p.calls, NeedsEncrypt);
      assert CallOk(p.calls[w]);
    }
    if p.calls[w].stage !in {AcquiringRead, AcquiringEncrypt} {
      ReleasesNeverBlock(p, w);
    }
  }

  /** How many steps a call can still take before it has returned. */
  function StepsLeft(c: Call): nat {
    match c.stage
    case Idle => 0
    case AcquiringRead => 10
    case Reading => 9
    case AcquiringEncrypt => 8
    case ReleasingRead => 7
    case Encrypting => 6
    case Scoring => 5
    case ReleasingEncrypt => 4
    case InGCS => 3
    case LeavingAcquirer => 2
    case LeavingSave => 1
  }

  /** Every call that has been made ends within ten steps of its own. */
  lemma CallsEnd(c: Call, e: Event)
    requires c.stage != Idle
    ensures StepsLeft(NextCall(c, e)) < StepsLeft(c)
  {
  }

  // ---- The way of a call ----

  function After(c: Call, n: nat): Call {
    if n == 0 then c else NextCall(After(c, n - 1), Proceed)
  }

  /**
   A call that nothing stops goes through all the stores, in order, to GCS and
   back, having let go of each permit on the way in.
   */
  lemma WayOfACall()
    ensures After(IDLE, 1).stage == AcquiringRead && After(IDLE, 2).stage == Reading
    ensures After(IDLE, 3).stage == AcquiringEncrypt && After(IDLE, 4).stage == ReleasingRead
    ensures After(IDLE, 5).stage == Encrypting && After(IDLE, 6).stage == Scoring
    ensures After(IDLE, 7).stage == ReleasingEncrypt && After(IDLE, 8).stage == InGCS
    ensures After(IDLE, 9).stage == LeavingAcquirer && After(IDLE, 10).stage == LeavingSave && After(IDLE, 11) == IDLE
    ensures After(IDLE, 2).needToReleaseRead && After(IDLE, 4).needToReleaseEncrypt
    ensures !After(IDLE, 5).needToReleaseRead && !After(IDLE, 8).needToReleaseEncrypt
  {
    var c1 := After(IDLE, 1);
    assert c1 == NextCall(After(IDLE, 0), Proceed);
    var c4 := After(IDLE, 4);
    assert c4 == NextCall(NextCall(NextCall(c1, Proceed), Proceed), Proceed);
    var c8 := After(IDLE, 8);
    assert c8 == NextCall(NextCall(NextCall(NextCall(c4, Proceed), Proceed), Proceed), Proceed);
  }

  /** A call that is stopped leaves by the deferred functions: it never goes further in. */
  lemma StoppedCallLeaves(c: Call)
    requires CallOk(c) && c.stage !in {Idle, ReleasingRead, ReleasingEncrypt}
    ensures NextCall(c, Stop).stage in {Idle, LeavingAcquirer, LeavingSave}
    ensures NextCall(c, Stop).stage == Idle <==> c.stage in {AcquiringRead, LeavingSave}
    ensures NextCall(c, Stop).stage == LeavingAcquirer <==> c.stage in {Encrypting, Scoring, InGCS}
  {
  }
}
