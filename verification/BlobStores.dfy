/**
 The blob stores that save and restore stack on a bucket (internal/blob): an
 encrypting store over a checking store over the existing-scores store over GCS.
 Hashing and encryption are parameters.
 */
module BlobStores {
  import opened Wrappers
  import opened Scores

  datatype Crypto = Crypto(hash: Bytes -> Score, encrypt: Bytes -> Option<Bytes>, decrypt: Bytes -> Option<Bytes>)

  /** All that is assumed of the cipher. */
  ghost predicate CryptoSound(c: Crypto) {
    forall b {:trigger c.encrypt(b)} :: c.encrypt(b).Some? ==> c.decrypt(c.encrypt(b).value) == Some(b)
  }

  const BLOB_PREFIX := "blobs/"

  /** Object names and their contents. */
  type Bucket = map<string, Bytes>

  function BlobName(s: Score): string {
    BLOB_PREFIX + Hex(s)
  }

  lemma NamesAreDistinct(s: Score, s': Score)
    requires BlobName(s) == BlobName(s')
    ensures s == s'
  {
    assert BlobName(s)[|BLOB_PREFIX|..] == Hex(s);
    assert BlobName(s')[|BLOB_PREFIX|..] == Hex(s');
    DecodeHex(s);
    DecodeHex(s');
  }

  /** The bucket, and the set of hex scores known to be in it. */
  datatype State = State(bucket: Bucket, known: set<string>)

  // ---- Saving and loading ----

  /** How the creation of an object ends. Lost: it takes effect and is reported as failed. */
  datatype Creation = Stored | NotStored | Lost

  /** `create` tells how the creation of an object of each name ends. */
  function SavedCiphertext(c: Crypto, st: State, create: string -> Creation, ct: Bytes): (State, Option<Score>) {
    var s := c.hash(ct);
    if Hex(s) in st.known then (st, Some(s))
    else
      match create(BlobName(s))
      case Stored => (State(st.bucket[BlobName(s) := ct], st.known + {Hex(s)}), Some(s))
      case NotStored => (st, None)
      case Lost => (st.(bucket := st.bucket[BlobName(s) := ct]), None)
  }

  function Saved(c: Crypto, st: State, create: string -> Creation, blob: Bytes): (State, Option<Score>) {
    match c.encrypt(blob)
    case None => (st, None)
    case Some(ct) => SavedCiphertext(c, st, create, ct)
  }

  function Loaded(c: Crypto, bucket: Bucket, s: Score): Option<Bytes> {
    if BlobName(s) !in bucket then None
    else
      var ct := bucket[BlobName(s)];
      if c.hash(ct) != s then None else c.decrypt(ct)
  }

  class Store {
    const crypto: Crypto
    var bucket: Bucket
    var known: set<string>

    function Abs(): State
      reads this
    {
      State(bucket, known)
    }

    constructor (crypto: Crypto, bucket: Bucket, known: set<string>)
      ensures this.crypto == crypto && Abs() == State(bucket, known)
    {
      this.crypto := crypto;
      this.bucket, this.known := bucket, known;
    }

    method CreateObject(name: string, contents: Bytes, create: string -> Creation) returns (ok: bool)
      modifies this`bucket
      ensures ok == create(name).Stored?
      ensures bucket == if create(name).NotStored? then old(bucket) else old(bucket)[name := contents]
    {
      if create(name).NotStored? {
        return false;
      }
      bucket := bucket[name := contents];
      return create(name).Stored?;
    }

    /** The existing-scores store over the GCS store. */
    method SaveCiphertext(ct: Bytes, create: string -> Creation) returns (s: Option<Score>)
      modifies this
      ensures (Abs(), s) == SavedCiphertext(crypto, old(Abs()), create, ct)
    {
      var score := crypto.hash(ct);
      if Hex(score) in known {
        return Some(score);
      }
      var ok := CreateObject(BlobName(score), ct, create);
      if !ok {
        return None;
      }
      known := known + {Hex(score)};
      return Some(score);
    }

    method Save(blob: Bytes, create: string -> Creation) returns (s: Option<Score>)
      modifies this
      ensures (Abs(), s) == Saved(crypto, old(Abs()), create, blob)
    {
      var ct := crypto.encrypt(blob);
      if ct.None? {
        return None;
      }
      s := SaveCiphertext(ct.value, create);
    }

    method Load(s: Score) returns (blob: Option<Bytes>)
      ensures blob == Loaded(crypto, bucket, s)
    {
      if BlobName(s) !in bucket {
        return None;
      }
      var ct := bucket[BlobName(s)];
      if crypto.hash(ct) != s {
        return None;
      }
      blob := crypto.decrypt(ct);
    }
  }

  // ---- What the set of known scores promises ----

  /** The stored objects are what their names say. */
  ghost predicate BucketSound(c: Crypto, bucket: Bucket) {
    forall s: Score :: BlobName(s) in bucket ==> c.hash(bucket[BlobName(s)]) == s
  }

  /** And known scores have objects. */
  ghost predicate StoreSound(c: Crypto, st: State) {
    && BucketSound(c, st.bucket)
    && (forall s: Score :: Hex(s) in st.known ==> BlobName(s) in st.bucket)
  }

  /** Two different blobs, one in each set, have the same score. */
  ghost predicate Clash(c: Crypto, a: set<Bytes>, b: set<Bytes>) {
    exists x, y :: x in a && y in b && x != y && c.hash(x) == c.hash(y)
  }

  lemma SaveKeepsSound(c: Crypto, st: State, create: string -> Creation, ct: Bytes)
    requires StoreSound(c, st)
    ensures var (st', r) := SavedCiphertext(c, st, create, ct);
      && StoreSound(c, st')
      && (r.Some? ==> r.value == c.hash(ct) && BlobName(c.hash(ct)) in st'.bucket)
      && (forall name :: name in st.bucket ==> name in st'.bucket)
  {
    var s := c.hash(ct);
    var (st', r) := SavedCiphertext(c, st, create, ct);
    forall s': Score | BlobName(s') in st'.bucket
      ensures c.hash(st'.bucket[BlobName(s')]) == s'
    {
      if BlobName(s') == BlobName(s) {
        NamesAreDistinct(s, s');
      }
    }
    forall s': Score | Hex(s') in st'.known
      ensures BlobName(s') in st'.bucket
    {
      if Hex(s') == Hex(s) {
        assert BlobName(s') == BlobName(s);
      }
    }
  }

  /** Whatever is in the bucket, what loads for a score is what was encrypted in an object that has that score. */
  lemma LoadsOnlyWhatHasTheScore(c: Crypto, bucket: Bucket, s: Score, blob: Bytes)
    ensures Loaded(c, bucket, s) == Some(blob) <==>
      BlobName(s) in bucket && c.hash(bucket[BlobName(s)]) == s && c.decrypt(bucket[BlobName(s)]) == Some(blob)
  {
  }

  /** From a bucket that may be damaged: what loads for the score of a blob is the blob, or some object clashes with it. */
  lemma LoadsOnlyTheBlob(c: Crypto, bucket: Bucket, blob: Bytes)
    requires CryptoSound(c) && c.encrypt(blob).Some?
    ensures var ct := c.encrypt(blob).value;
      Loaded(c, bucket, c.hash(ct)) in {None, Some(blob)} || Clash(c, {ct}, bucket.Values)
  {
    var ct := c.encrypt(blob).value;
    if Loaded(c, bucket, c.hash(ct)).Some? {
      LoadsOnlyWhatHasTheScore(c, bucket, c.hash(ct), Loaded(c, bucket, c.hash(ct)).value);
      var stored := bucket[BlobName(c.hash(ct))];
      if stored != ct {
        assert ct in {ct} && stored in bucket.Values;
      }
    }
  }

  /**
   What saving answers and leaves behind. It succeeds if and only if the score is
   known or its object is created; objects and known scores change in no other way.
   */
  lemma SaveIsExact(c: Crypto, st: State, create: string -> Creation, ct: Bytes)
    ensures var ((st', r), s) := (SavedCiphertext(c, st, create, ct), c.hash(ct));
      && (r == Some(s) <==> Hex(s) in st.known || create(BlobName(s)) == Stored)
      && (r == None <==> Hex(s) !in st.known && create(BlobName(s)) != Stored)
      && (Hex(s) in st.known ==> st' == st)
      && (Hex(s) in st'.known <==> r.Some?) && st'.known - {Hex(s)} == st.known - {Hex(s)}
      && (forall name :: name != BlobName(s) ==>
            (name in st'.bucket <==> name in st.bucket) && (name in st.bucket ==> st'.bucket[name] == st.bucket[name]))
      && (Hex(s) !in st.known && create(BlobName(s)) != NotStored ==>
            BlobName(s) in st'.bucket && st'.bucket[BlobName(s)] == ct)
      && (create(BlobName(s)) == NotStored ==> st' == st)
  {
  }

  /** A blob that encrypts is saved as what it encrypts to; one that does not is not saved. */
  lemma SavesTheCiphertext(c: Crypto, st: State, create: string -> Creation, blob: Bytes)
    ensures c.encrypt(blob).Some? ==> Saved(c, st, create, blob) == SavedCiphertext(c, st, create, c.encrypt(blob).value)
    ensures c.encrypt(blob).None? ==> Saved(c, st, create, blob) == (st, None)
  {
  }

  /** A saved blob loads as itself, unless another stored blob has its score. */
  lemma LoadsBack(c: Crypto, bucket: Bucket, blob: Bytes)
    requires CryptoSound(c) && BucketSound(c, bucket)
    requires c.encrypt(blob).Some? && BlobName(c.hash(c.encrypt(blob).value)) in bucket
    ensures var ct := c.encrypt(blob).value;
      Loaded(c, bucket, c.hash(ct)) == Some(blob) || Clash(c, {ct}, bucket.Values)
  {
    var ct := c.encrypt(blob).value;
    var stored := bucket[BlobName(c.hash(ct))];
    if stored != ct {
      assert ct in {ct} && stored in bucket.Values;
    }
  }
}
