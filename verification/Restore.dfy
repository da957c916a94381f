/** Restoring a tree from the bucket (internal/restore), and its round trip with saving. */
module Restore {
  import opened Wrappers
  import opened Scores
  import opened Listing
  import opened Trees
  import opened BlobStores
  import opened Save

  // ---- What restoring reads ----

  /** The listing of a directory node, which must have exactly one score. */
  function ReadListing(env: Env, bucket: Bucket, scores: seq<Score>): Option<seq<FileInfo>> {
    if |scores| != 1 then None
    else
      match Loaded(env.crypto, bucket, scores[0])
      case None => None
      case Some(b) => UnmarshalledDir(env.wire, b)
  }

  function ReadChunk(env: Env, bucket: Bucket, s: Score): Option<Bytes> {
    match Loaded(env.crypto, bucket, s)
    case None => None
    case Some(b) => UnmarshalFile(b)
  }

  function ReadChunks(env: Env, bucket: Bucket, scores: seq<Score>): Option<Bytes> {
    if scores == [] then Some([])
    else
      var chunk := ReadChunk(env, bucket, scores[0]);
      var rest := ReadChunks(env, bucket, scores[1..]);
      if chunk.Some? && rest.Some? then Some(chunk.value + rest.value) else None
  }

  /** A directory is read from the one listing that it has, and not at all if it has none or several. */
  lemma ReadsListingIff(env: Env, bucket: Bucket, scores: seq<Score>, listing: seq<FileInfo>)
    ensures ReadListing(env, bucket, scores) == Some(listing) <==>
      exists s, b :: scores == [s] && Loaded(env.crypto, bucket, s) == Some(b) && UnmarshalledDir(env.wire, b) == Some(listing)
  {
    if |scores| == 1 {
      assert scores == [scores[0]];
    }
  }

  /** The children of a restore node, in the order of the listing. */
  method FindDependencies(env: Env, store: Store, info: FileInfo) returns (children: Option<seq<FileInfo>>)
    requires store.crypto == env.crypto
    ensures children == if info.typ != TYPE_DIRECTORY then Some([]) else ReadListing(env, store.bucket, info.scores)
  {
    if info.typ != TYPE_DIRECTORY {
      return Some([]);
    }
    if |info.scores| != 1 {
      return None;
    }
    var b := store.Load(info.scores[0]);
    if b.None? {
      return None;
    }
    var listing := UnmarshalDir(env.wire, b.value);
    if listing.None? {
      return None;
    }
    var nodes: seq<FileInfo> := [];
    for i := 0 to |listing.value|
      invariant nodes == listing.value[..i]
    {
      nodes := nodes + [listing.value[i]];
    }
    assert listing.value[..|listing.value|] == listing.value;
    return Some(nodes);
  }

  /**
   Writes the file chunk by chunk; what is written is the content, if nothing
   fails. `opens`, `writes` and `closes` tell how the operations on the file end.
   */
  method WriteFileContents(env: Env, store: Store, scores: seq<Score>, opens: bool, writes: nat -> bool, closes: bool)
    returns (written: Bytes, ok: bool)
    requires store.crypto == env.crypto
    ensures ok <==> ReadChunks(env, store.bucket, scores).Some? && opens && closes && AllWrite(writes, |scores|)
    ensures ok ==> ReadChunks(env, store.bucket, scores) == Some(written)
  {
    written := [];
    if !opens {
      return written, false;
    }
    PrependNothing(ReadChunks(env, store.bucket, scores));
    assert scores[0..] == scores;
    for i := 0 to |scores|
      invariant ReadChunks(env, store.bucket, scores) == Prepend(written, ReadChunks(env, store.bucket, scores[i..]))
      invariant AllWrite(writes, i)
    {
      assert scores[i..][0] == scores[i] && scores[i..][1..] == scores[i + 1..];
      var chunk := store.Load(scores[i]);
      if chunk.None? {
        return written, false;
      }
      var contents := UnmarshalFile(chunk.value);
      if contents.None? || !writes(i) {
        return written, false;
      }
      ghost var rest := ReadChunks(env, store.bucket, scores[i + 1..]);
      assert ReadChunks(env, store.bucket, scores[i..]) == Prepend(contents.value, rest);
      PrependTwice(written, contents.value, rest);
      written := written + contents.value;
    }
    assert written + [] == written;
    return written, closes;
  }

  predicate AllWrite(writes: nat -> bool, n: nat) {
    forall i: nat :: i < n ==> writes(i)
  }

  /**
   rt is what restoring the entry `info` makes: its name, type, mode, times and
   target are those of info, its content and children are read from the bucket.
   */
  ghost predicate Restores(env: Env, bucket: Bucket, info: FileInfo, rt: Tree)
    decreases rt
  {
    && rt.info == info
    && (info.typ == TYPE_FILE || info.typ == TYPE_DIRECTORY || info.typ == TYPE_SYMLINK)
    && (if info.typ == TYPE_FILE then ReadChunks(env, bucket, info.scores) == Some(rt.content) else rt.content == [])
    && (if info.typ == TYPE_DIRECTORY then
          var l := ReadListing(env, bucket, info.scores);
          && l.Some? && |rt.children| == |l.value|
          && forall k :: 0 <= k < |rt.children| ==> Restores(env, bucket, l.value[k], rt.children[k])
        else rt.children == [])
  }

  /** Restoring an entry makes one thing only. */
  lemma {:induction false} RestoresOneTree(env: Env, bucket: Bucket, info: FileInfo, a: Tree, b: Tree)
    requires Restores(env, bucket, info, a) && Restores(env, bucket, info, b)
    ensures a == b
    decreases a
  {
    if info.typ == TYPE_DIRECTORY {
      var l := ReadListing(env, bucket, info.scores).value;
      forall k | 0 <= k < |l|
        ensures a.children[k] == b.children[k]
      {
        RestoresOneTree(env, bucket, l[k], a.children[k], b.children[k]);
      }
      assert a.children == b.children;
    }
  }

  // ---- What restoring can make of a saved tree ----

  /** Whatever has become of the bucket, a blob of the tree reads as itself, or not at all, or two blobs clash. */
  lemma ReadsOnlyTheBlob(env: Env, bucket: Bucket, blobs: set<Bytes>, blob: Bytes)
    requires EnvSound(env) && env.crypto.encrypt(blob).Some? && CiphertextOf(env, blob) <= blobs
    ensures Loaded(env.crypto, bucket, BlobScore(env, blob).value) in {None, Some(blob)}
         || Clash(env.crypto, blobs, bucket.Values)
  {
    LoadsOnlyTheBlob(env.crypto, bucket, blob);
    var ct := env.crypto.encrypt(blob).value;
    assert ct in CiphertextOf(env, blob);
    if Clash(env.crypto, {ct}, bucket.Values) {
      var x, y :| x in {ct} && y in bucket.Values && x != y && env.crypto.hash(x) == env.crypto.hash(y);
      assert x in blobs;
    }
  }

  lemma {:induction false} ChunksReadOnly(env: Env, bucket: Bucket, blobs: set<Bytes>, chunks: seq<Bytes>)
    requires EnvSound(env) && ChunkScores(env, chunks).Some? && ChunkBlobs(env, chunks) <= blobs
    ensures ReadChunks(env, bucket, ChunkScores(env, chunks).value) in {None, Some(Concat(chunks))}
         || Clash(env.crypto, blobs, bucket.Values)
  {
    if chunks != [] {
      var scores := ChunkScores(env, chunks).value;
      ReadsOnlyTheBlob(env, bucket, blobs, MarshalFile(chunks[0]));
      FileRoundTrip(chunks[0]);
      ChunksReadOnly(env, bucket, blobs, chunks[1..]);
      assert scores[0] == BlobScore(env, MarshalFile(chunks[0])).value;
      assert scores[1..] == ChunkScores(env, chunks[1..]).value;
    }
  }

  lemma FileReadsOnly(env: Env, bucket: Bucket, t: Tree, blobs: set<Bytes>)
    requires EnvSound(env) && TreeBlobs(env, t) <= blobs
    requires t.info.typ == TYPE_FILE && TreeScores(env, t).Some?
    ensures ReadChunks(env, bucket, TreeScores(env, t).value) in {None, Some(t.content)}
         || Clash(env.crypto, blobs, bucket.Values)
  {
    var chunks := Chunks(t.content, env.chunkSize);
    ChunksReadOnly(env, bucket, blobs, chunks);
    ChunksConcat(t.content, env.chunkSize);
  }

  lemma ListingReadsOnly(env: Env, bucket: Bucket, t: Tree, blobs: set<Bytes>)
    requires EnvSound(env) && TreeBlobs(env, t) <= blobs
    requires t.info.typ == TYPE_DIRECTORY && TreeScores(env, t).Some?
    ensures TreeEntries(env, t.children).Some?
    ensures ReadListing(env, bucket, TreeScores(env, t).value) in {None, Some(NormalizeAll(TreeEntries(env, t.children).value))}
         || Clash(env.crypto, blobs, bucket.Values)
  {
    var entries := TreeEntries(env, t.children).value;
    var b := MarshalledDir(env.wire, entries).value;
    ReadsOnlyTheBlob(env, bucket, blobs, b);
    ListingRoundTrip(env.wire, entries);
  }

  /**
   So whatever is restored of a saved tree, from a bucket that may be damaged in
   any way, is faithful to it, or two different blobs have the same score.
   */
  lemma {:induction false} RestoresOnlyTheTree(env: Env, bucket: Bucket, t: Tree, info: FileInfo, rt: Tree, blobs: set<Bytes>)
    requires EnvSound(env) && TreeBlobs(env, t) <= blobs
    requires TreeScores(env, t) == Some(info.scores) && info.typ == t.info.typ
    requires Restores(env, bucket, info, rt)
    ensures Faithful(t, rt) || Clash(env.crypto, blobs, bucket.Values)
    decreases t
  {
    if info.typ == TYPE_FILE {
      FileReadsOnly(env, bucket, t, blobs);
    } else if info.typ == TYPE_DIRECTORY && !Clash(env.crypto, blobs, bucket.Values) {
      ListingReadsOnly(env, bucket, t, blobs);
      forall k | 0 <= k < |rt.children|
        ensures SameEntry(t.children[k].info, rt.children[k].info) && Faithful(t.children[k], rt.children[k])
      {
        EntryOfChild(env, t.children, k);
        ChildBlobs(env, t.children, k);
        RestoresOnlyTheTree(env, bucket, t.children[k], KeptEntry(env, t.children[k]), rt.children[k], blobs);
      }
    }
  }

  // ---- The round trip ----

  /** The bucket has an object for each of the blobs. */
  ghost predicate HasAll(env: Env, bucket: Bucket, blobs: set<Bytes>) {
    forall ct {:trigger ct in blobs} :: ct in blobs ==> BlobName(env.crypto.hash(ct)) in bucket
  }

  /** The bucket has an object for each of the blobs, and objects are what their names say. */
  ghost predicate Holds(env: Env, bucket: Bucket, blobs: set<Bytes>) {
    BucketSound(env.crypto, bucket) && HasAll(env, bucket, blobs)
  }

  /** A stored blob reads back, or it clashes with another stored one. */
  lemma ReadsBack(env: Env, bucket: Bucket, blobs: set<Bytes>, blob: Bytes)
    requires EnvSound(env) && Holds(env, bucket, blobs)
    requires env.crypto.encrypt(blob).Some? && CiphertextOf(env, blob) <= blobs
    ensures Loaded(env.crypto, bucket, BlobScore(env, blob).value) == Some(blob)
         || Clash(env.crypto, blobs, bucket.Values)
  {
    LoadsBack(env.crypto, bucket, blob);
    var ct := env.crypto.encrypt(blob).value;
    assert ct in CiphertextOf(env, blob);
    if Clash(env.crypto, {ct}, bucket.Values) {
      var x, y :| x in {ct} && y in bucket.Values && x != y && env.crypto.hash(x) == env.crypto.hash(y);
      assert x in blobs;
    }
  }

  lemma {:induction false} ChunksReadBack(env: Env, bucket: Bucket, blobs: set<Bytes>, chunks: seq<Bytes>)
    requires EnvSound(env) && Holds(env, bucket, blobs)
    requires ChunkScores(env, chunks).Some? && ChunkBlobs(env, chunks) <= blobs
    ensures ReadChunks(env, bucket, ChunkScores(env, chunks).value) == Some(Concat(chunks))
         || Clash(env.crypto, blobs, bucket.Values)
  {
    if chunks != [] {
      var scores := ChunkScores(env, chunks).value;
      ReadsBack(env, bucket, blobs, MarshalFile(chunks[0]));
      FileRoundTrip(chunks[0]);
      ChunksReadBack(env, bucket, blobs, chunks[1..]);
      assert scores[0] == BlobScore(env, MarshalFile(chunks[0])).value;
      assert scores[1..] == ChunkScores(env, chunks[1..]).value;
    }
  }

  lemma FileReadsBack(env: Env, bucket: Bucket, t: Tree, blobs: set<Bytes>)
    requires EnvSound(env) && Holds(env, bucket, blobs) && TreeBlobs(env, t) <= blobs
    requires t.info.typ == TYPE_FILE && TreeScores(env, t).Some?
    ensures ReadChunks(env, bucket, TreeScores(env, t).value) == Some(t.content)
         || Clash(env.crypto, blobs, bucket.Values)
  {
    var chunks := Chunks(t.content, env.chunkSize);
    ChunksReadBack(env, bucket, blobs, chunks);
    ChunksConcat(t.content, env.chunkSize);
  }

  lemma ListingReadsBack(env: Env, bucket: Bucket, t: Tree, blobs: set<Bytes>)
    requires EnvSound(env) && Holds(env, bucket, blobs) && TreeBlobs(env, t) <= blobs
    requires t.info.typ == TYPE_DIRECTORY && TreeScores(env, t).Some?
    ensures TreeEntries(env, t.children).Some?
    ensures ReadListing(env, bucket, TreeScores(env, t).value) == Some(NormalizeAll(TreeEntries(env, t.children).value))
         || Clash(env.crypto, blobs, bucket.Values)
  {
    var entries := TreeEntries(env, t.children).value;
    var b := MarshalledDir(env.wire, entries).value;
    ReadsBack(env, bucket, blobs, b);
    ListingRoundTrip(env.wire, entries);
  }

  /** The entry of a child in its parent's listing, as the listing keeps it. */
  function KeptEntry(env: Env, t: Tree): FileInfo
    requires env.chunkSize >= 1
  {
    Normalize(t.info.(scores := Get(TreeScores(env, t), [])))
  }

  /** What saving t and then restoring the entry `info` makes. */
  function Returned(env: Env, t: Tree, info: FileInfo): Tree
    requires env.chunkSize >= 1
    decreases t
  {
    Tree(info,
         if t.info.typ == TYPE_FILE then t.content else [],
         if t.info.typ == TYPE_DIRECTORY
         then seq(|t.children|, k requires 0 <= k < |t.children| =>
           Returned(env, t.children[k], KeptEntry(env, t.children[k])))
         else [])
  }

  /**
   rt has the content that t was saved with, and below it the same names, types,
   modes, modification times, symlink targets and contents throughout.
   */
  ghost predicate Faithful(t: Tree, rt: Tree)
    decreases t
  {
    && (t.info.typ == TYPE_FILE ==> rt.content == t.content)
    && (t.info.typ == TYPE_DIRECTORY ==>
          && |rt.children| == |t.children|
          && forall k :: 0 <= k < |t.children| ==>
               && SameEntry(t.children[k].info, rt.children[k].info)
               && Faithful(t.children[k], rt.children[k]))
  }

  predicate SameEntry(a: FileInfo, b: FileInfo) {
    && a.typ == b.typ && a.name == b.name
    && a.permissions == b.permissions && a.mtime == b.mtime
    && a.uid == b.uid && a.gid == b.gid && a.size == b.size
    && (a.typ == TYPE_SYMLINK ==> a.target == b.target)
  }

  /** It has the content that t was saved with, and is faithful throughout. */
  lemma {:induction false} ReturnedIsFaithful(env: Env, t: Tree, info: FileInfo)
    requires env.chunkSize >= 1
    ensures Faithful(t, Returned(env, t, info))
    decreases t
  {
    if t.info.typ == TYPE_DIRECTORY {
      forall k | 0 <= k < |t.children|
        ensures Faithful(t.children[k], Returned(env, t.children[k], KeptEntry(env, t.children[k])))
      {
        ReturnedIsFaithful(env, t.children[k], KeptEntry(env, t.children[k]));
      }
    }
  }

  /**
   Restoring from a bucket that holds the blobs of a saved tree gives the tree
   back, unless two different stored blobs have the same score.
   */
  lemma {:induction false} SaveThenRestore(env: Env, bucket: Bucket, t: Tree, info: FileInfo, blobs: set<Bytes>)
    requires EnvSound(env) && Holds(env, bucket, blobs) && TreeBlobs(env, t) <= blobs
    requires TreeScores(env, t) == Some(info.scores) && info.typ == t.info.typ
    ensures Restores(env, bucket, info, Returned(env, t, info)) || Clash(env.crypto, blobs, bucket.Values)
    decreases t
  {
    if info.typ == TYPE_FILE {
      FileReadsBack(env, bucket, t, blobs);
    } else if info.typ == TYPE_DIRECTORY && !Clash(env.crypto, blobs, bucket.Values) {
      ListingReadsBack(env, bucket, t, blobs);
      var l := ReadListing(env, bucket, info.scores).value;
      forall k | 0 <= k < |l|
        ensures Restores(env, bucket, l[k], Returned(env, t, info).children[k])
      {
        EntryOfChild(env, t.children, k);
        ChildBlobs(env, t.children, k);
        SaveThenRestore(env, bucket, t.children[k], KeptEntry(env, t.children[k]), blobs);
      }
    }
  }

  /** Whatever restoring makes of a saved tree is faithful to it, or two blobs clash. */
  lemma RestoreIsFaithful(env: Env, bucket: Bucket, t: Tree, info: FileInfo, rt: Tree)
    requires EnvSound(env)
    requires TreeScores(env, t) == Some(info.scores) && info.typ == t.info.typ
    requires Restores(env, bucket, info, rt)
    ensures Faithful(t, rt) || Clash(env.crypto, TreeBlobs(env, t), bucket.Values)
  {
    RestoresOnlyTheTree(env, bucket, t, info, rt, TreeBlobs(env, t));
  }
}
