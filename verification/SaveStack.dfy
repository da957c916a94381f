/**
 One worker's pass through saveFileChunk or saveDir and the stack of stores
 below it, as nested calls with deferred releases. Each thing it does is a step
 of the machine in Semaphores, so what is proved there of any number of
 interleaved workers is proved of these methods. A wait for a permit is a wait
 to take that step: it proceeds only when there is one, and otherwise ends, if
 it ends, by being cancelled.
 */
module SaveStack {
  import opened Semaphores

  class Semaphore {
    const capacity: nat
    var held: nat

    constructor (capacity: nat)
      ensures this.capacity == capacity && held == 0
    {
      this.capacity := capacity;
      held := 0;
    }

    method Acquire()
      requires held < capacity
      modifies this
      ensures held == old(held) + 1
    {
      held := held + 1;
    }

    method Release()
      requires held > 0
      modifies this
      ensures held == old(held) - 1
    {
      held := held - 1;
    }
  }

  class Worker {
    const readFromDisk: Semaphore
    const encryptAndScore: Semaphore
    // The variables that the callbacks in the context flip.
    var needToReleaseRead: bool
    var needToReleaseEncrypt: bool
    // The machine's view of this worker.
    ghost var call: Call

    ghost predicate Valid()
      reads this
    {
      && readFromDisk != encryptAndScore
      && CallOk(call)
      && call.needToReleaseRead == needToReleaseRead
      && call.needToReleaseEncrypt == needToReleaseEncrypt
    }

    constructor (read: Semaphore, encrypt: Semaphore)
      requires read != encrypt
      ensures Valid() && call == IDLE && readFromDisk == read && encryptAndScore == encrypt
    {
      readFromDisk, encryptAndScore := read, encrypt;
      needToReleaseRead, needToReleaseEncrypt := false, false;
      call := IDLE;
    }

    /** The machine takes the step that the code has just taken. */
    ghost method Follow(e: Event)
      modifies this`call
      ensures call == NextCall(old(call), e)
    {
      call := NextCall(call, e);
    }

    /** saveFileChunk and saveDir. */
    method Save(fate: Stage -> Event) returns (ok: bool)
      requires Valid() && call == IDLE
      requires fate(AcquiringRead) == Proceed ==> readFromDisk.held < readFromDisk.capacity
      requires fate(AcquiringEncrypt) == Proceed ==> encryptAndScore.held < encryptAndScore.capacity
      modifies this, readFromDisk, encryptAndScore
      ensures Valid() && call == IDLE
      ensures readFromDisk.held == old(readFromDisk.held)
      ensures encryptAndScore.held == old(encryptAndScore.held)
      ensures ok <==>
        && fate(AcquiringRead) == fate(Reading) == fate(AcquiringEncrypt) == fate(Encrypting) == Proceed
        && (fate(Scoring) == Stop || fate(InGCS) == Proceed)
    {
      Follow(Proceed);
      if fate(AcquiringRead) == Stop {
        Follow(Stop);
        return false;
      }
      readFromDisk.Acquire();
      needToReleaseRead := true;
      Follow(Proceed);

      ok := false;
      if fate(Reading) == Stop {
        Follow(Stop);
      } else {
        Follow(Proceed);
        ok := SaveAcquiring(fate);
      }

      if needToReleaseRead {
        readFromDisk.Release();
        needToReleaseRead := false;
      }
      Follow(Proceed);
    }

    /** The acquiring store. */
    method SaveAcquiring(fate: Stage -> Event) returns (ok: bool)
      requires Valid() && call.stage == AcquiringEncrypt
      requires readFromDisk.held > 0
      requires fate(AcquiringEncrypt) == Proceed ==> encryptAndScore.held < encryptAndScore.capacity
      modifies this, readFromDisk, encryptAndScore
      ensures Valid() && call.stage == LeavingSave
      ensures readFromDisk.held == old(readFromDisk.held) - if needToReleaseRead then 0 else 1
      ensures encryptAndScore.held == old(encryptAndScore.held)
      ensures ok <==>
        && fate(AcquiringEncrypt) == fate(Encrypting) == Proceed
        && (fate(Scoring) == Stop || fate(InGCS) == Proceed)
    {
      if fate(AcquiringEncrypt) == Stop {
        Follow(Stop);
        return false;
      }
      encryptAndScore.Acquire();
      needToReleaseEncrypt := true;
      Follow(Proceed);

      ok := SaveReleasingRead(fate);

      if needToReleaseEncrypt {
        encryptAndScore.Release();
        needToReleaseEncrypt := false;
      }
      Follow(Proceed);
    }

    /** The releasing store for readFromDiskSem, above the encrypting store. */
    method SaveReleasingRead(fate: Stage -> Event) returns (ok: bool)
      requires Valid() && call.stage == ReleasingRead
      requires readFromDisk.held > 0 && encryptAndScore.held > 0
      modifies this, readFromDisk, encryptAndScore
      ensures Valid() && call.stage == LeavingAcquirer && !needToReleaseRead
      ensures readFromDisk.held == old(readFromDisk.held) - 1
      ensures encryptAndScore.held == old(encryptAndScore.held) - if needToReleaseEncrypt then 0 else 1
      ensures ok <==> fate(Encrypting) == Proceed && (fate(Scoring) == Stop || fate(InGCS) == Proceed)
    {
      assert !Panics(call);
      needToReleaseRead := false;
      readFromDisk.Release();
      Follow(Proceed);

      if fate(Encrypting) == Stop {
        Follow(Stop);
        return false;
      }
      Follow(Proceed);
      ok := SaveIfUnknown(fate);
    }

    /** The existing-scores store and, for a score not yet known, what lies below it. */
    method SaveIfUnknown(fate: Stage -> Event) returns (ok: bool)
      requires Valid() && call.stage == Scoring && encryptAndScore.held > 0
      modifies this, encryptAndScore
      ensures Valid() && call.stage == LeavingAcquirer && !needToReleaseRead
      ensures encryptAndScore.held == old(encryptAndScore.held) - if needToReleaseEncrypt then 0 else 1
      ensures ok <==> fate(Scoring) == Stop || fate(InGCS) == Proceed
    {
      if fate(Scoring) == Stop {
        Follow(Stop);
        return true;
      }
      Follow(Proceed);

      assert !Panics(call);
      needToReleaseEncrypt := false;
      encryptAndScore.Release();
      Follow(Proceed);

      ok := fate(InGCS) == Proceed;
      Follow(fate(InGCS));
    }
  }
}
